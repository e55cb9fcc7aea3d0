/** `validateChainGraph` of `core/outbound`: depth-first search for a cycle among
    the chains of the known outbounds. */
module ChainGraph {
  import opened Graphs

  datatype Outbound = Outbound(tag: string, chain: seq<string>)
  datatype Verdict = Fine | CycleAt(tag: string)

  /** A later configuration replaces an earlier one with the same tag. */
  function Known(configs: seq<Outbound>): Graph {
    if configs == [] then map[]
    else Known(configs[..|configs| - 1])[configs[|configs| - 1].tag := configs[|configs| - 1].chain]
  }

  /** No walk from `tag` meets the stack or itself. */
  ghost predicate Clean(g: Graph, tag: string, stack: set<string>) {
    forall p :: Walk(g, p) && p[0] == tag ==> NoRepeat(p) && forall i :: 0 <= i < |p| ==> p[i] !in stack
  }

  /** The walk ends in the stack or where it has been before. */
  ghost predicate Caught(g: Graph, p: seq<string>, stack: set<string>) {
    Walk(g, p) && (p[|p| - 1] in stack || p[|p| - 1] in p[..|p| - 1])
  }

  method Visit(g: Graph, tag: string, stack: set<string>) returns (v: Verdict)
    requires stack <= g.Keys
    ensures v.Fine? ==> Clean(g, tag, stack)
    ensures v.CycleAt? ==> exists p :: Caught(g, p, stack) && p[0] == tag
    decreases g.Keys - stack
  {
    if tag !in g {
      UnknownClean(g, tag, stack);
      return Fine;
    }
    if tag in stack {
      assert Caught(g, [tag], stack);
      return CycleAt(tag);
    }
    for i := 0 to |g[tag]|
      invariant forall j :: 0 <= j < i ==> Clean(g, g[tag][j], stack + {tag})
    {
      var hop := g[tag][i];
      v := Visit(g, hop, stack + {tag});
      if v.CycleAt? {
        ghost var q :| Caught(g, q, stack + {tag}) && q[0] == hop;
        ExtendCaught(g, tag, q, stack);
        return;
      }
    }
    CleanFromHops(g, tag, stack);
    return Fine;
  }

  lemma {:induction false} UnknownClean(g: Graph, tag: string, stack: set<string>)
    requires tag !in g && stack <= g.Keys
    ensures Clean(g, tag, stack)
  {
    forall p | Walk(g, p) && p[0] == tag ensures |p| == 1 {
      if |p| > 1 { WalkTail(g, p); }
    }
  }

  lemma {:induction false} WalkTail(g: Graph, p: seq<string>)
    requires Walk(g, p) && |p| >= 2
    ensures Walk(g, p[1..]) && Edge(g, p[0], p[1])
  {
    forall i | 0 <= i < |p[1..]| - 1 ensures Edge(g, p[1..][i], p[1..][i + 1]) {
      assert Edge(g, p[i + 1], p[i + 2]);
    }
  }

  lemma {:induction false} ExtendCaught(g: Graph, tag: string, q: seq<string>, stack: set<string>)
    requires tag in g && Caught(g, q, stack + {tag}) && q[0] in g[tag]
    requires stack <= g.Keys
    ensures exists p :: Caught(g, p, stack) && p[0] == tag
  {
    var p := [tag] + q;
    LastIsKnown(g, q, stack + {tag});
    forall i | 0 <= i < |p| - 1 ensures Edge(g, p[i], p[i + 1]) {
      if i > 0 { assert Edge(g, q[i - 1], q[i]); }
    }
    assert p[..|p| - 1] == [tag] + q[..|q| - 1];
    assert Caught(g, p, stack);
  }

  lemma {:induction false} LastIsKnown(g: Graph, q: seq<string>, stack: set<string>)
    requires Caught(g, q, stack) && stack <= g.Keys
    ensures q[0] in g
  {
    if |q| > 1 { assert Edge(g, q[0], q[1]); }
  }

  lemma {:induction false} CleanFromHops(g: Graph, tag: string, stack: set<string>)
    requires tag in g && tag !in stack
    requires forall j :: 0 <= j < |g[tag]| ==> Clean(g, g[tag][j], stack + {tag})
    ensures Clean(g, tag, stack)
  {
    forall p | Walk(g, p) && p[0] == tag
      ensures NoRepeat(p) && forall i :: 0 <= i < |p| ==> p[i] !in stack
    {
      if |p| > 1 {
        WalkTail(g, p);
        var q := p[1..];
        var j :| 0 <= j < |g[tag]| && g[tag][j] == q[0];
        assert Clean(g, g[tag][j], stack + {tag});
        forall i | 1 <= i < |p| ensures p[i] != tag && p[i] !in stack {
          assert p[i] == q[i - 1];
        }
        forall a, b | 0 <= a < b < |p| ensures p[a] != p[b] {
          if a > 0 { assert q[a - 1] != q[b - 1]; }
        }
      }
    }
  }

  /** No error exactly when the graph of known tags has no cycle, whatever order
      the tags are visited in. */
  method ValidateChainGraph(configs: seq<Outbound>) returns (v: Verdict)
    ensures v.Fine? <==> !HasCycle(Known(configs))
  {
    var g: Graph := map[];
    for i := 0 to |configs|
      invariant g == Known(configs[..i])
    {
      assert configs[..i + 1][..i] == configs[..i];
      g := g[configs[i].tag := configs[i].chain];
    }
    assert configs[..|configs|] == configs;
    var rest := g.Keys;
    while rest != {}
      invariant forall t :: t in g && t !in rest ==> Clean(g, t, {})
    {
      var tag :| tag in rest;
      v := Visit(g, tag, {});
      if v.CycleAt? {
        ghost var p :| Caught(g, p, {}) && p[0] == tag;
        ghost var i :| 0 <= i < |p| - 1 && p[i] == p[|p| - 1];
        RepeatMeansCycle(g, p, i, |p| - 1);
        return;
      }
      rest := rest - {tag};
    }
    AllClean(g);
    return Fine;
  }

  lemma {:induction false} AllClean(g: Graph)
    requires forall t :: t in g ==> Clean(g, t, {})
    ensures !HasCycle(g)
  {
    forall p | Walk(g, p) && |p| >= 2 ensures p[0] != p[|p| - 1] {
      assert Edge(g, p[0], p[1]);
      assert Clean(g, p[0], {});
    }
  }
}
