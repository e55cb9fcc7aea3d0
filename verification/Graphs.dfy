/** Finite directed graphs over names, their walks and cycles. */
module Graphs {
  /** For each node the list of nodes it points to, with repetition. */
  type Graph = map<string, seq<string>>

  /** Targets that are not nodes of the graph do not count. */
  ghost predicate Edge(g: Graph, u: string, v: string) {
    u in g && v in g && v in g[u]
  }

  ghost predicate Walk(g: Graph, p: seq<string>) {
    |p| >= 1 && forall i :: 0 <= i < |p| - 1 ==> Edge(g, p[i], p[i + 1])
  }

  ghost predicate Closed(g: Graph, p: seq<string>) {
    |p| >= 2 && Walk(g, p) && p[0] == p[|p| - 1]
  }

  ghost predicate HasCycle(g: Graph) {
    exists p :: Closed(g, p)
  }

  // ---- A set in which every node has a successor contains a cycle ---------

  ghost predicate PointsInto(g: Graph, u: string, r: set<string>) {
    exists v :: v in r && Edge(g, u, v)
  }

  lemma {:induction false} WalkInside(g: Graph, r: set<string>, n: nat) returns (p: seq<string>)
    requires r != {} && forall u :: u in r ==> PointsInto(g, u, r)
    ensures |p| == n + 1 && Walk(g, p) && forall i :: 0 <= i < |p| ==> p[i] in r
  {
    if n == 0 {
      var u :| u in r;
      p := [u];
    } else {
      var q := WalkInside(g, r, n - 1);
      assert PointsInto(g, q[n - 1], r);
      var v :| v in r && Edge(g, q[n - 1], v);
      p := q + [v];
    }
  }

  lemma {:induction false} Pigeonhole(p: seq<string>, r: set<string>)
    requires |p| > |r| && forall i :: 0 <= i < |p| ==> p[i] in r
    ensures exists i, j :: 0 <= i < j < |p| && p[i] == p[j]
  {
    var last, init := p[|p| - 1], p[..|p| - 1];
    if last in init {
      var i :| 0 <= i < |init| && init[i] == last;
      assert p[i] == p[|p| - 1];
    } else {
      forall i | 0 <= i < |init| ensures init[i] in r - {last} {
        assert init[i] == p[i] && init[i] in init;
      }
      Pigeonhole(init, r - {last});
      var i, j :| 0 <= i < j < |init| && init[i] == init[j];
      assert p[i] == p[j];
    }
  }

  lemma {:induction false} TrappedMeansCycle(g: Graph, r: set<string>)
    requires r != {} && forall u :: u in r ==> PointsInto(g, u, r)
    ensures HasCycle(g)
  {
    var p := WalkInside(g, r, |r|);
    Pigeonhole(p, r);
    var i, j :| 0 <= i < j < |p| && p[i] == p[j];
    RepeatMeansCycle(g, p, i, j);
  }

  lemma {:induction false} RepeatMeansCycle(g: Graph, p: seq<string>, i: nat, j: nat)
    requires Walk(g, p) && i < j < |p| && p[i] == p[j]
    ensures HasCycle(g)
  {
    var c := p[i..j + 1];
    forall k | 0 <= k < |c| - 1 ensures Edge(g, c[k], c[k + 1]) {
      assert c[k] == p[i + k] && c[k + 1] == p[i + k + 1];
    }
    assert Closed(g, c);
  }

  // ---- An order that respects the edges rules cycles out ------------------

  ghost predicate NoRepeat(s: seq<string>) {
    forall i, j :: 0 <= i < j < |s| ==> s[i] != s[j]
  }

  /** Everything a node points to stands before it. */
  ghost predicate Respects(g: Graph, order: seq<string>) {
    forall k :: 0 <= k < |order| ==> order[k] in g && forall d :: d in g[order[k]] ==> d in order[..k]
  }

  lemma {:induction false} WalkDescends(g: Graph, order: seq<string>, p: seq<string>, k: nat) returns (m: nat)
    requires NoRepeat(order) && Respects(g, order) && Walk(g, p)
    requires k < |order| && p[0] == order[k]
    ensures m <= k && order[m] == p[|p| - 1] && (|p| >= 2 ==> m < k)
  {
    if |p| == 1 {
      m := k;
    } else {
      assert Edge(g, p[0], p[1]);
      assert p[1] in order[..k];
      var j :| 0 <= j < k && order[j] == p[1];
      forall i | 0 <= i < |p[1..]| - 1 ensures Edge(g, p[1..][i], p[1..][i + 1]) {
        assert Edge(g, p[i + 1], p[i + 2]);
      }
      m := WalkDescends(g, order, p[1..], j);
    }
  }

  lemma {:induction false} OrderedMeansAcyclic(g: Graph, order: seq<string>)
    requires NoRepeat(order) && Respects(g, order) && forall u :: u in g ==> u in order
    ensures !HasCycle(g)
  {
    forall p | Walk(g, p) && |p| >= 2 ensures p[0] != p[|p| - 1] {
      assert Edge(g, p[0], p[1]);
      var k :| 0 <= k < |order| && order[k] == p[0];
      var m := WalkDescends(g, order, p, k);
    }
  }

  lemma {:induction false} NoRepeatBound(s: seq<string>, r: set<string>)
    requires NoRepeat(s) && forall i :: 0 <= i < |s| ==> s[i] in r
    ensures |s| <= |r|
    ensures |s| == |r| ==> forall x :: x in r ==> x in s
  {
    if s == [] {
      assert |r| == 0 ==> r == {};
    } else {
      var init, last := s[..|s| - 1], s[|s| - 1];
      NoRepeatBound(init, r - {last});
      assert s == init + [last];
    }
  }
}
