/** `computeStartOrder` of `common/runtime/registry`: Kahn's algorithm over the
    dependency lists of the registered modules. */
module StartOrder {
  import opened Graphs

  datatype Result = Ok(order: seq<string>) | Unregistered(name: string, dep: string) | Circular

  // ---- Sorting names ------------------------------------------------------

  predicate Le(a: string, b: string) {
    a == [] || (b != [] && (a[0] < b[0] || (a[0] == b[0] && Le(a[1..], b[1..]))))
  }

  lemma {:induction false} LeTotal(a: string, b: string)
    ensures Le(a, b) || Le(b, a)
    ensures Le(a, b) && Le(b, a) ==> a == b
  {
    if a == [] || b == [] {
    } else {
      LeTotal(a[1..], b[1..]);
      assert a == [a[0]] + a[1..] && b == [b[0]] + b[1..];
    }
  }

  lemma {:induction false} LeTransitive(a: string, b: string, c: string)
    requires Le(a, b) && Le(b, c)
    ensures Le(a, c)
  {
    if a == [] || a[0] != b[0] || b[0] != c[0] {
    } else {
      LeTransitive(a[1..], b[1..], c[1..]);
    }
  }

  ghost predicate IsSorted(s: seq<string>) {
    forall i, j :: 0 <= i < j < |s| ==> Le(s[i], s[j])
  }

  function Insert(t: seq<string>, x: string): seq<string> {
    if t == [] || Le(x, t[0]) then [x] + t else [t[0]] + Insert(t[1..], x)
  }

  lemma {:induction false} InsertRearranges(t: seq<string>, x: string)
    ensures multiset(Insert(t, x)) == multiset(t) + multiset{x}
  {
    if t == [] || Le(x, t[0]) {
    } else {
      InsertRearranges(t[1..], x);
      assert t == [t[0]] + t[1..];
    }
  }

  lemma {:induction false} InsertSorted(t: seq<string>, x: string)
    requires IsSorted(t)
    ensures IsSorted(Insert(t, x))
  {
    if t == [] {
    } else if Le(x, t[0]) {
      forall j | 0 < j < |t| ensures Le(x, t[j]) {
        LeTransitive(x, t[0], t[j]);
      }
    } else {
      LeTotal(x, t[0]);
      var u := Insert(t[1..], x);
      InsertSorted(t[1..], x);
      InsertRearranges(t[1..], x);
      forall j | 0 <= j < |u| ensures Le(t[0], u[j]) {
        assert u[j] in multiset(u);
        assert u[j] in t[1..] || u[j] == x;
      }
    }
  }

  /** `sort.Strings`, by insertion. */
  method SortStrings(s: seq<string>) returns (r: seq<string>)
    ensures IsSorted(r) && multiset(r) == multiset(s)
  {
    r := [];
    for i := 0 to |s|
      invariant IsSorted(r) && multiset(r) == multiset(s[..i])
    {
      assert s[..i + 1] == s[..i] + [s[i]];
      InsertSorted(r, s[i]);
      InsertRearranges(r, s[i]);
      r := Insert(r, s[i]);
    }
    assert s[..|s|] == s;
  }

  lemma {:induction false} SortedUnique(s: seq<string>, t: seq<string>)
    requires IsSorted(s) && IsSorted(t) && multiset(s) == multiset(t)
    ensures s == t
  {
    assert |multiset(s)| == |s| && |multiset(t)| == |t|;
    if s == [] {
    } else {
      SameHead(s, t);
      WithoutHead(s);
      WithoutHead(t);
      SortedUnique(s[1..], t[1..]);
      assert s == [s[0]] + s[1..] && t == [t[0]] + t[1..];
    }
  }

  lemma {:induction false} WithoutHead(s: seq<string>)
    requires s != []
    ensures multiset(s[1..]) == multiset(s) - multiset{s[0]}
  {
    assert s == [s[0]] + s[1..];
  }

  lemma {:induction false} SameHead(s: seq<string>, t: seq<string>)
    requires IsSorted(s) && IsSorted(t) && multiset(s) == multiset(t) && s != [] && t != []
    ensures s[0] == t[0]
  {
    assert s[0] in multiset(t) && t[0] in multiset(s);
    var i :| 0 <= i < |t| && t[i] == s[0];
    var j :| 0 <= j < |s| && s[j] == t[0];
    LeTotal(s[0], t[0]);
  }

  lemma {:induction false} SortedExists(m: multiset<string>)
    ensures exists s :: IsSorted(s) && multiset(s) == m
  {
    if m == multiset{} {
      assert IsSorted([]) && multiset([]) == m;
    } else {
      var x :| x in m;
      SortedExists(m - multiset{x});
      var t :| IsSorted(t) && multiset(t) == m - multiset{x};
      InsertSorted(t, x);
      InsertRearranges(t, x);
    }
  }

  /** The one sorted list with the given elements. */
  ghost function SortedOf(m: multiset<string>): (s: seq<string>)
    ensures IsSorted(s) && multiset(s) == m
  {
    SortedExists(m);
    var s :| IsSorted(s) && multiset(s) == m;
    s
  }

  // ---- The order as a function of the graph alone -------------------------

  function Occurrences(s: seq<string>, x: string): nat {
    multiset(s)[x]
  }

  ghost predicate Counts(g: Graph, keys: set<string>, name: string, m: multiset<string>)
    requires keys <= g.Keys
  {
    forall x {:trigger m[x]} :: m[x] == if x in keys then Occurrences(g[x], name) else 0
  }

  lemma {:induction false} CountsExist(g: Graph, keys: set<string>, name: string)
    requires keys <= g.Keys
    ensures exists m :: Counts(g, keys, name, m)
  {
    if keys == {} {
      assert Counts(g, keys, name, multiset{});
    } else {
      var x :| x in keys;
      CountsExist(g, keys - {x}, name);
      var m :| Counts(g, keys - {x}, name, m);
      assert Counts(g, keys, name, m[x := Occurrences(g[x], name)]);
    }
  }

  /** Every module in `keys` that lists `name`, as often as it lists it. */
  ghost function DependentsOf(g: Graph, keys: set<string>, name: string): (m: multiset<string>)
    requires keys <= g.Keys
    ensures Counts(g, keys, name, m)
  {
    CountsExist(g, keys, name);
    var m :| Counts(g, keys, name, m);
    m
  }

  ghost function Dependents(g: Graph, name: string): seq<string> {
    SortedOf(DependentsOf(g, g.Keys, name))
  }

  /** One pass over the dependents of a started module. */
  ghost function Relax(ds: seq<string>, degree: map<string, int>, queue: seq<string>): (map<string, int>, seq<string>) {
    if ds == [] then (degree, queue)
    else
      var n := (if ds[0] in degree then degree[ds[0]] else 0) - 1;
      Relax(ds[1..], degree[ds[0] := n], if n == 0 then queue + [ds[0]] else queue)
  }

  ghost function Degrees(g: Graph): map<string, int> {
    map n | n in g :: |g[n]|
  }

  ghost function Roots(g: Graph): set<string> {
    set n | n in g && g[n] == []
  }

  datatype State = State(queue: seq<string>, order: seq<string>, degree: map<string, int>)

  ghost function Next(g: Graph, s: State): State
    requires s.queue != []
  {
    var (d, q) := Relax(Dependents(g, s.queue[0]), s.degree, s.queue[1..]);
    State(q, s.order + [s.queue[0]], d)
  }

  ghost function After(g: Graph, rounds: nat): State {
    if rounds == 0 then State(SortedOf(multiset(Roots(g))), [], Degrees(g))
    else
      var s := After(g, rounds - 1);
      if s.queue == [] then s else Next(g, s)
  }

  /** The start order, without any mention of how a map is iterated. */
  ghost function CanonicalOrder(g: Graph): seq<string> {
    After(g, |g|).order
  }

  // ---- Counting unstarted dependencies ------------------------------------

  ghost function Pending(s: seq<string>, done: set<string>): nat {
    if s == [] then 0 else (if s[0] in done then 0 else 1) + Pending(s[1..], done)
  }

  lemma {:induction false} PendingDrops(s: seq<string>, done: set<string>, x: string)
    requires x !in done
    ensures Pending(s, done + {x}) == Pending(s, done) - Occurrences(s, x)
  {
    if s == [] {
    } else {
      PendingDrops(s[1..], done, x);
      assert s == [s[0]] + s[1..];
    }
  }

  lemma {:induction false} PendingZero(s: seq<string>, done: set<string>)
    ensures Pending(s, done) == 0 <==> forall d :: d in s ==> d in done
  {
    if s == [] {
    } else {
      PendingZero(s[1..], done);
      assert s == [s[0]] + s[1..];
      assert Pending(s, done) == 0 ==> forall d :: d in s ==> d == s[0] || d in s[1..];
    }
  }

  lemma {:induction false} PendingAll(s: seq<string>)
    ensures Pending(s, {}) == |s|
  {
    if s == [] {
    } else {
      PendingAll(s[1..]);
    }
  }

  // ---- The algorithm ------------------------------------------------------

  ghost predicate AllRegistered(g: Graph) {
    forall n {:trigger KnownDeps(g, n)} :: n in g ==> KnownDeps(g, n)
  }

  function Elements(s: seq<string>): set<string> {
    set x | x in s
  }

  function Copies(x: string, k: nat): seq<string> {
    seq(k, _ => x)
  }

  lemma {:induction false} CopiesCount(x: string, k: nat)
    ensures multiset(Copies(x, k)) == multiset{}[x := k]
  {
    if k == 0 {
    } else {
      CopiesCount(x, k - 1);
      assert Copies(x, k) == Copies(x, k - 1) + [x];
    }
  }

  lemma {:induction false} CopyStep(base: seq<string>, name: string, s: seq<string>, j: nat, d: string)
    requires j < |s|
    ensures base + Copies(name, Occurrences(s[..j + 1], d)) ==
            base + Copies(name, Occurrences(s[..j], d)) + if s[j] == d then [name] else []
  {
    assert s[..j + 1] == s[..j] + [s[j]];
    var k := Occurrences(s[..j], d);
    assert Copies(name, k + 1) == Copies(name, k) + [name];
  }

  lemma {:induction false} ReverseListGrows(g: Graph, keys: set<string>, n: string, d: string, before: seq<string>, after: seq<string>)
    requires keys <= g.Keys && n in g && n !in keys && multiset(before) == DependentsOf(g, keys, d)
    requires after == before + Copies(n, Occurrences(g[n], d))
    ensures multiset(after) == DependentsOf(g, keys + {n}, d)
  {
    CopiesCount(n, Occurrences(g[n], d));
    assert multiset(after) == multiset(before) + multiset{}[n := Occurrences(g[n], d)];
  }

  /** Degrees and reverse lists once the modules in `done` are counted. */
  ghost predicate Built(g: Graph, done: set<string>, degree: map<string, int>, deps: map<string, seq<string>>) {
    done <= g.Keys == degree.Keys == deps.Keys && Counted(g, done, degree) && Reversed(g, done, deps)
  }

  ghost predicate Counted(g: Graph, done: set<string>, degree: map<string, int>)
    requires done <= g.Keys == degree.Keys
  {
    && (forall n {:trigger degree[n]} :: n in g ==> degree[n] == if n in done then |g[n]| else 0)
    && (forall n {:trigger KnownDeps(g, n)} :: n in done ==> KnownDeps(g, n))
  }

  ghost predicate Reversed(g: Graph, keys: set<string>, deps: map<string, seq<string>>)
    requires keys <= g.Keys == deps.Keys
  {
    forall d {:trigger deps[d]} :: d in g ==> multiset(deps[d]) == DependentsOf(g, keys, d)
  }

  ghost predicate KnownDeps(g: Graph, n: string)
    requires n in g
  {
    forall d :: d in g[n] ==> d in g
  }

  lemma {:induction false} BuiltStep(g: Graph, done: set<string>, name: string, degree: map<string, int>, deps: map<string, seq<string>>,
                  degree': map<string, int>, deps': map<string, seq<string>>)
    requires Built(g, done, degree, deps) && name in g && name !in done
    requires KnownDeps(g, name) && degree' == degree[name := |g[name]|]
    requires deps'.Keys == g.Keys && Noted(g, name, deps, deps')
    ensures Built(g, done + {name}, degree', deps')
  {
    ReversedStep(g, done, name, deps, deps');
  }

  lemma {:induction false} ReversedStep(g: Graph, keys: set<string>, name: string,
                     deps: map<string, seq<string>>, deps': map<string, seq<string>>)
    requires keys <= g.Keys == deps.Keys == deps'.Keys && name in g && name !in keys && Reversed(g, keys, deps)
    requires Noted(g, name, deps, deps')
    ensures Reversed(g, keys + {name}, deps')
  {
    forall d | d in g ensures multiset(deps'[d]) == DependentsOf(g, keys + {name}, d) {
      ReverseListGrows(g, keys, name, d, deps[d], deps'[d]);
    }
  }

  lemma {:induction false} MoveOver(rest: set<string>, done: set<string>, x: string)
    requires x in rest
    ensures rest - {x} + (done + {x}) == rest + done
  {
  }

  /** The reverse lists and in-degrees, whatever order the modules come in. */
  method BuildDegrees(g: Graph) returns (r: Result, degree: map<string, int>, deps: map<string, seq<string>>)
    ensures r == Ok([]) || r.Unregistered?
    ensures r.Unregistered? ==> r.name in g && r.dep in g[r.name] && r.dep !in g
    ensures r.Ok? ==> Built(g, g.Keys, degree, deps)
  {
    degree, deps := map n | n in g :: 0, map n | n in g :: [];
    var rest := g.Keys;
    ghost var done := {};
    while rest != {}
      invariant rest !! done && rest + done == g.Keys
      invariant Built(g, done, degree, deps)
    {
      var name :| name in rest;
      r, degree, deps := AddModule(g, done, name, degree, deps);
      if r.Unregistered? { return; }
      MoveOver(rest, done, name);
      rest, done := rest - {name}, done + {name};
    }
    r := Ok([]);
  }

  method AddModule(g: Graph, ghost done: set<string>, name: string,
                   degree0: map<string, int>, deps0: map<string, seq<string>>)
    returns (r: Result, degree: map<string, int>, deps: map<string, seq<string>>)
    requires Built(g, done, degree0, deps0) && name in g && name !in done
    ensures r == Ok([]) || r.Unregistered?
    ensures r.Unregistered? ==> r.name == name && r.dep in g[name] && r.dep !in g
    ensures r.Ok? ==> Built(g, done + {name}, degree, deps)
  {
    r, degree, deps := ReadDependencies(g, name, degree0, deps0);
    if r.Ok? {
      BuiltStep(g, done, name, degree0, deps0, degree, deps);
    }
  }

  method ReadDependencies(g: Graph, name: string, degree0: map<string, int>, deps0: map<string, seq<string>>)
    returns (r: Result, degree: map<string, int>, deps: map<string, seq<string>>)
    requires name in g && degree0.Keys == deps0.Keys == g.Keys && degree0[name] == 0
    ensures r == Ok([]) || r.Unregistered?
    ensures r.Unregistered? ==> r.name == name && r.dep in g[name] && r.dep !in g
    ensures r.Ok? ==> KnownDeps(g, name) && degree == degree0[name := |g[name]|]
    ensures r.Ok? ==> deps.Keys == g.Keys && Noted(g, name, deps0, deps)
  {
    degree, deps := degree0, deps0;
    for j := 0 to |g[name]|
      invariant degree == degree0[name := j] && deps.Keys == g.Keys
      invariant forall k :: 0 <= k < j ==> g[name][k] in g
      invariant NotedUpTo(g, name, deps0, deps, j)
    {
      var dep := g[name][j];
      if dep !in g {
        return Unregistered(name, dep), degree, deps;
      }
      NotedNext(g, name, deps0, deps, j);
      deps := deps[dep := deps[dep] + [name]];
      degree := degree[name := degree[name] + 1];
    }
    assert g[name][..|g[name]|] == g[name];
    NotedAll(g, name, deps0, deps);
    r := Ok([]);
  }

  lemma {:induction false} NotedAll(g: Graph, name: string, deps0: map<string, seq<string>>, deps: map<string, seq<string>>)
    requires name in g && deps0.Keys == deps.Keys == g.Keys && NotedUpTo(g, name, deps0, deps, |g[name]|)
    ensures Noted(g, name, deps0, deps)
  {
    assert g[name][..|g[name]|] == g[name];
  }

  /** The reverse lists hold `name` once for each of its dependencies. */
  ghost predicate Noted(g: Graph, name: string, deps0: map<string, seq<string>>, deps: map<string, seq<string>>)
    requires name in g && deps0.Keys == deps.Keys == g.Keys
  {
    forall d {:trigger deps[d]} :: d in g ==> deps[d] == deps0[d] + Copies(name, Occurrences(g[name], d))
  }

  /** The reverse lists hold `name` once for each of its first `j` dependencies. */
  ghost predicate NotedUpTo(g: Graph, name: string, deps0: map<string, seq<string>>, deps: map<string, seq<string>>, j: nat)
    requires name in g && j <= |g[name]| && deps0.Keys == deps.Keys == g.Keys
  {
    forall d {:trigger deps[d]} :: d in g ==> deps[d] == deps0[d] + Copies(name, Occurrences(g[name][..j], d))
  }

  lemma {:induction false} NotedNext(g: Graph, name: string, deps0: map<string, seq<string>>, deps: map<string, seq<string>>, j: nat)
    requires name in g && j < |g[name]| && deps0.Keys == deps.Keys == g.Keys && g[name][j] in g
    requires NotedUpTo(g, name, deps0, deps, j)
    ensures NotedUpTo(g, name, deps0, deps[g[name][j] := deps[g[name][j]] + [name]], j + 1)
  {
    var dep := g[name][j];
    var after := deps[dep := deps[dep] + [name]];
    forall d | d in g ensures after[d] == deps0[d] + Copies(name, Occurrences(g[name][..j + 1], d)) {
      CopyStep(deps0[d], name, g[name], j, d);
      assert deps[d] == deps0[d] + Copies(name, Occurrences(g[name][..j], d));
    }
  }

  // ---- The rounds ---------------------------------------------------------

  /** `listed` holds no name twice, and exactly the registered names of degree zero. */
  ghost predicate ListsZeros(g: Graph, listed: seq<string>, degree: map<string, int>) {
    && degree.Keys == g.Keys && NoRepeat(listed)
    && (forall i :: 0 <= i < |listed| ==> listed[i] in g)
    && (forall x {:trigger degree[x]} :: x in g ==> (x in listed <==> degree[x] == 0))
  }

  ghost predicate CountsPending(g: Graph, order: seq<string>, degree: map<string, int>) {
    degree.Keys == g.Keys && forall x {:trigger degree[x]} :: x in g ==> degree[x] == Pending(g[x], Elements(order))
  }

  /** State between two rounds: `order` has been started, `queue` holds the
      modules whose dependencies all have, and `degree` counts what is missing. */
  ghost predicate Kahn(g: Graph, queue: seq<string>, order: seq<string>, degree: map<string, int>) {
    ListsZeros(g, order + queue, degree) && CountsPending(g, order, degree) && Respects(g, order)
  }

  lemma {:induction false} ListOneMore(g: Graph, order: seq<string>, queue: seq<string>, degree: map<string, int>, x: string)
    requires ListsZeros(g, order + queue, degree) && x in g && degree[x] > 0
    ensures var n := degree[x] - 1;
      ListsZeros(g, order + if n == 0 then queue + [x] else queue, degree[x := n])
  {
    var listed := order + queue;
    assert degree[x := degree[x] - 1].Keys == g.Keys;
    assert x !in listed;
    assert order + (queue + [x]) == listed + [x];
    assert forall y :: y in listed + [x] <==> y in listed || y == x;
  }

  /** The loop over the dependents of the module just started. */
  method RelaxAll(ds: seq<string>, queue0: seq<string>, degree0: map<string, int>)
    returns (queue: seq<string>, degree: map<string, int>)
    requires forall i :: 0 <= i < |ds| ==> ds[i] in degree0
    ensures (degree, queue) == Relax(ds, degree0, queue0)
  {
    queue, degree := queue0, degree0;
    assert ds[0..] == ds;
    for j := 0 to |ds|
      invariant degree0.Keys <= degree.Keys
      invariant Relax(ds[j..], degree, queue) == Relax(ds, degree0, queue0)
    {
      assert ds[j..][0] == ds[j] && ds[j..][1..] == ds[j + 1..];
      degree := degree[ds[j] := degree[ds[j]] - 1];
      if degree[ds[j]] == 0 {
        queue := queue + [ds[j]];
      }
    }
  }

  /** It queues exactly the names whose count reaches zero, each once. */
  lemma {:induction false} RelaxKeeps(g: Graph, ds: seq<string>, order: seq<string>, queue: seq<string>,
                                      degree: map<string, int>)
    requires ListsZeros(g, order + queue, degree)
    requires forall i :: 0 <= i < |ds| ==> ds[i] in g
    requires forall x {:trigger degree[x]} :: x in g ==> Occurrences(ds, x) <= degree[x]
    ensures var (d, q) := Relax(ds, degree, queue);
      ListsZeros(g, order + q, d) &&
      forall x {:trigger d[x]} :: x in g ==> d[x] == degree[x] - Occurrences(ds, x)
  {
    if ds == [] {
    } else {
      var x, rest := ds[0], ds[1..];
      HeadOccurs(ds);
      ListOneMore(g, order, queue, degree, x);
      var n := degree[x] - 1;
      var d1, q1 := degree[x := n], if n == 0 then queue + [x] else queue;
      RelaxKeeps(g, rest, order, q1, d1);
    }
  }

  lemma {:induction false} HeadOccurs(ds: seq<string>)
    requires ds != []
    ensures forall x :: Occurrences(ds, x) == Occurrences(ds[1..], x) + if x == ds[0] then 1 else 0
  {
    assert ds == [ds[0]] + ds[1..];
  }

  method InitialQueue(g: Graph, degree: map<string, int>) returns (queue: seq<string>)
    requires degree == Degrees(g)
    ensures queue == SortedOf(multiset(Roots(g)))
  {
    var rest := degree.Keys;
    queue := [];
    ghost var found: set<string> := {};
    while rest != {}
      invariant rest <= g.Keys && multiset(queue) == multiset(found)
      invariant forall n :: n in found <==> n in g && n !in rest && g[n] == []
    {
      var name :| name in rest;
      if degree[name] == 0 {
        queue := queue + [name];
        found := found + {name};
      }
      rest := rest - {name};
    }
    assert found == Roots(g);
    queue := SortStrings(queue);
    SortedUnique(queue, SortedOf(multiset(Roots(g))));
  }

  lemma {:induction false} KahnStart(g: Graph)
    ensures Kahn(g, SortedOf(multiset(Roots(g))), [], Degrees(g))
  {
    var queue := SortedOf(multiset(Roots(g)));
    assert [] + queue == queue && Elements([]) == {};
    forall x | x in g ensures Degrees(g)[x] == Pending(g[x], Elements([])) {
      PendingAll(g[x]);
    }
    ListOfSet(queue, Roots(g));
    forall i | 0 <= i < |queue| ensures queue[i] in g {
      assert queue[i] in queue;
    }
  }

  lemma {:induction false} ListOfSet(s: seq<string>, r: set<string>)
    requires multiset(s) == multiset(r)
    ensures NoRepeat(s) && forall x :: x in s <==> x in r
  {
    forall x ensures x in s <==> x in r {
      assert x in s <==> x in multiset(s);
    }
    forall i, j | 0 <= i < j < |s| ensures s[i] != s[j] {
      CountOfPair(s, i, j);
    }
  }

  lemma {:induction false} CountOfPair(s: seq<string>, i: nat, j: nat)
    requires i < j < |s| && forall x :: multiset(s)[x] <= 1
    ensures s[i] != s[j]
  {
    var x := s[i];
    assert s == s[..i] + [x] + s[i + 1..j] + [s[j]] + s[j + 1..];
    assert multiset(s) == multiset(s[..i]) + multiset{x} + multiset(s[i + 1..j]) + multiset{s[j]} + multiset(s[j + 1..]);
    assert multiset(s)[x] >= 1 + multiset{s[j]}[x];
  }

  /** Before a round: the module at the head of the queue has all its
      dependencies started, and no dependent is counted down below zero. */
  lemma {:induction false} RoundStarts(g: Graph, queue: seq<string>, order: seq<string>, degree: map<string, int>)
    requires Kahn(g, queue, order, degree) && queue != []
    ensures queue[0] in g && queue[0] !in order && Respects(g, order + [queue[0]])
    ensures forall x {:trigger degree[x]} :: x in g ==> Occurrences(Dependents(g, queue[0]), x) <= degree[x]
    ensures forall i :: 0 <= i < |Dependents(g, queue[0])| ==> Dependents(g, queue[0])[i] in g
  {
    var name, ds := queue[0], Dependents(g, queue[0]);
    var listed := order + queue;
    assert listed[|order|] == name && name in listed;
    forall i | 0 <= i < |order| ensures order[i] != name {
      assert listed[i] == order[i];
    }
    PendingZero(g[name], Elements(order));
    forall x | x in g ensures Occurrences(ds, x) <= degree[x] {
      PendingDrops(g[x], Elements(order), name);
    }
    forall i | 0 <= i < |ds| ensures ds[i] in g {
      assert ds[i] in multiset(ds);
    }
    assert (order + [name])[..|order|] == order;
    forall k | 0 <= k < |order| ensures (order + [name])[..k] == order[..k] {}
  }

  lemma {:induction false} RoundEnds(g: Graph, queue: seq<string>, order: seq<string>, degree: map<string, int>, degree': map<string, int>)
    requires Kahn(g, queue, order, degree) && queue != [] && degree'.Keys == g.Keys && queue[0] !in order
    requires forall x {:trigger degree'[x]} :: x in g ==> degree'[x] == degree[x] - Occurrences(Dependents(g, queue[0]), x)
    ensures CountsPending(g, order + [queue[0]], degree')
  {
    var name := queue[0];
    assert Elements(order + [name]) == Elements(order) + {name};
    forall x | x in g ensures degree'[x] == Pending(g[x], Elements(order + [name])) {
      PendingDrops(g[x], Elements(order), name);
    }
  }

  // ---- The result ---------------------------------------------------------

  /** When the queue runs dry early, the names that are left trap each other. */
  lemma {:induction false} LeftoverMeansCycle(g: Graph, order: seq<string>, degree: map<string, int>)
    requires AllRegistered(g) && Kahn(g, [], order, degree) && |order| != |g|
    ensures HasCycle(g)
  {
    assert order + [] == order;
    var left := g.Keys - Elements(order);
    ElementsSize(order);
    SomethingLeft(g.Keys, Elements(order));
    forall u | u in left ensures PointsInto(g, u, left) {
      LeftoverWaits(g, order, degree, u);
    }
    TrappedMeansCycle(g, left);
  }

  lemma {:induction false} SomethingLeft(all: set<string>, some: set<string>)
    requires |some| != |all| && some <= all
    ensures all - some != {}
  {
    assert all == some + (all - some);
  }

  lemma {:induction false} LeftoverWaits(g: Graph, order: seq<string>, degree: map<string, int>, u: string)
    requires AllRegistered(g) && ListsZeros(g, order, degree) && CountsPending(g, order, degree)
    requires u in g && u !in order
    ensures PointsInto(g, u, g.Keys - Elements(order))
  {
    PendingZero(g[u], Elements(order));
    assert degree[u] != 0;
    var d :| d in g[u] && d !in Elements(order);
    assert KnownDeps(g, u);
    assert Edge(g, u, d);
  }

  lemma {:induction false} ElementsSize(s: seq<string>)
    requires NoRepeat(s)
    ensures |Elements(s)| == |s|
  {
    if s == [] {
    } else {
      var init := s[..|s| - 1];
      ElementsSize(init);
      assert s == init + [s[|s| - 1]];
      assert Elements(s) == Elements(init) + {s[|s| - 1]};
    }
  }

  lemma {:induction false} FullOrder(g: Graph, order: seq<string>, degree: map<string, int>)
    requires Kahn(g, [], order, degree) && |order| == |g|
    ensures NoRepeat(order) && Elements(order) == g.Keys && !HasCycle(g)
  {
    assert order + [] == order;
    NoRepeatBound(order, g.Keys);
    OrderedMeansAcyclic(g, order);
  }

  /** `computeStartOrder`.  It succeeds exactly when every dependency is
      registered and there is no cycle; the order then is the canonical one,
      however the maps were iterated. */
  method ComputeStartOrder(g: Graph) returns (r: Result)
    ensures r.Unregistered? <==> !AllRegistered(g)
    ensures r.Unregistered? ==> r.name in g && r.dep in g[r.name] && r.dep !in g
    ensures r.Circular? <==> AllRegistered(g) && HasCycle(g)
    ensures r.Ok? ==> NoRepeat(r.order) && Elements(r.order) == g.Keys && Respects(g, r.order)
    ensures r.Ok? ==> r.order == CanonicalOrder(g)
  {
    var degree, deps;
    r, degree, deps := BuildDegrees(g);
    if r.Unregistered? {
      assert !KnownDeps(g, r.name);
      return;
    }
    assert AllRegistered(g);
    var queue := InitialQueue(g, degree);
    var order := [];
    KahnStart(g);
    while queue != []
      invariant Kahn(g, queue, order, degree) && |order| <= |g|
      invariant State(queue, order, degree) == After(g, |order|)
      decreases |g| - |order|
    {
      queue, order, degree := Round(g, deps, queue, order, degree);
    }
    if |order| != |g| {
      LeftoverMeansCycle(g, order, degree);
      return Circular;
    }
    FullOrder(g, order, degree);
    return Ok(order);
  }

  /** Starts the module at the head of the queue and counts its dependents down. */
  method Round(g: Graph, deps: map<string, seq<string>>, queue0: seq<string>, order0: seq<string>, degree0: map<string, int>)
    returns (queue: seq<string>, order: seq<string>, degree: map<string, int>)
    requires deps.Keys == g.Keys && Reversed(g, g.Keys, deps)
    requires Kahn(g, queue0, order0, degree0) && queue0 != []
    requires State(queue0, order0, degree0) == After(g, |order0|)
    ensures order == order0 + [queue0[0]] && |order| <= |g| && Kahn(g, queue, order, degree)
    ensures State(queue, order, degree) == After(g, |order|)
  {
    RoundKeeps(g, queue0, order0, degree0);
    var ds := SortStrings(deps[queue0[0]]);
    SortedUnique(ds, Dependents(g, queue0[0]));
    queue, degree := RelaxAll(ds, queue0[1..], degree0);
    order := order0 + [queue0[0]];
  }

  lemma {:induction false} HeadMoves(order: seq<string>, queue: seq<string>)
    requires queue != []
    ensures order + [queue[0]] + queue[1..] == order + queue && |order| < |order + queue|
  {
  }

  lemma {:induction false} RoundKeeps(g: Graph, queue: seq<string>, order: seq<string>, degree: map<string, int>)
    requires Kahn(g, queue, order, degree) && queue != []
    ensures queue[0] in g && |order| < |g|
    ensures forall i :: 0 <= i < |Dependents(g, queue[0])| ==> Dependents(g, queue[0])[i] in degree
    ensures var (d, q) := Relax(Dependents(g, queue[0]), degree, queue[1..]);
      Kahn(g, q, order + [queue[0]], d)
  {
    var name, ds := queue[0], Dependents(g, queue[0]);
    RoundStarts(g, queue, order, degree);
    HeadMoves(order, queue);
    RelaxKeeps(g, ds, order + [name], queue[1..], degree);
    RoundEnds(g, queue, order, degree, Relax(ds, degree, queue[1..]).0);
    NoRepeatBound(order + queue, g.Keys);
  }

  // ---- The canonical order on its own -------------------------------------

  lemma {:induction false} AfterIsKahn(g: Graph, rounds: nat)
    ensures var s := After(g, rounds);
      Kahn(g, s.queue, s.order, s.degree) && (s.queue != [] ==> |s.order| == rounds)
  {
    if rounds == 0 {
      KahnStart(g);
    } else {
      AfterIsKahn(g, rounds - 1);
      var s := After(g, rounds - 1);
      if s.queue != [] {
        RoundKeeps(g, s.queue, s.order, s.degree);
      }
    }
  }

  /** In an acyclic graph of registered modules the canonical order lists every
      module once, each behind all its dependencies. */
  lemma {:induction false} CanonicalOrderIsOrder(g: Graph)
    requires AllRegistered(g) && !HasCycle(g)
    ensures var order := CanonicalOrder(g);
      NoRepeat(order) && Elements(order) == g.Keys && Respects(g, order)
  {
    AfterIsKahn(g, |g|);
    var s := After(g, |g|);
    if s.queue != [] {
      RoundKeeps(g, s.queue, s.order, s.degree);
    }
    if |s.order| != |g| {
      LeftoverMeansCycle(g, s.order, s.degree);
    }
    FullOrder(g, s.order, s.degree);
  }
}
