/** The module registry of `common/runtime/registry`: registration, `StartAll`
    in dependency order, `StopAll` in reverse. */
module Registry {
  import opened Graphs
  import opened StartOrder

  datatype ModuleState = Uninitialized | Initialized | Starting | Running | Stopping | Stopped | Failed
  datatype Outcome = Success | RegisterError | OrderError | InitError(name: string) | StartError(name: string) | StopErrors

  /** The registry as a value: dependency lists, states, and the order of the
      last successful sort. */
  datatype Reg = Reg(deps: Graph, state: map<string, ModuleState>, order: seq<string>)

  /** Which calls into the modules fail. */
  datatype Faults = Faults(init: set<string>, start: set<string>, stop: set<string>)

  datatype Op = Register(name: string, dependencies: seq<string>) | StartAll(faults: Faults) | StopAll(faults: Faults)

  // ---- The operations as functions ----------------------------------------

  function StartFrom(order: seq<string>, state: map<string, ModuleState>, f: Faults): (map<string, ModuleState>, Outcome)
    requires forall i :: 0 <= i < |order| ==> order[i] in state
  {
    if order == [] then (state, Success)
    else
      var n := order[0];
      if state[n].Running? then StartFrom(order[1..], state, f)
      else if state[n].Uninitialized? && n in f.init then (state, InitError(n))
      else if n in f.start then (state[n := Failed], StartError(n))
      else StartFrom(order[1..], state[n := Running], f)
  }

  /** Stops the running modules of `order`, last first; a failing stop is noted
      and the rest still happens. */
  function StopFrom(order: seq<string>, state: map<string, ModuleState>, f: Faults): (map<string, ModuleState>, bool)
    requires forall i :: 0 <= i < |order| ==> order[i] in state
  {
    if order == [] then (state, true)
    else
      var n, rest := order[|order| - 1], order[..|order| - 1];
      if !state[n].Running? then StopFrom(rest, state, f)
      else if n in f.stop then (StopFrom(rest, state[n := Failed], f).0, false)
      else StopFrom(rest, state[n := Stopped], f)
  }

  ghost predicate Consistent(r: Reg) {
    && r.state.Keys == r.deps.Keys
    && NoRepeat(r.order) && Respects(r.deps, r.order)
    && (forall n :: n in r.state && r.state[n].Running? ==> n in r.order)
  }

  /** No running module has a dependency that is not running. */
  ghost predicate Supported(r: Reg) {
    forall n {:trigger Upheld(r, n)} :: n in r.state && n in r.deps && r.state[n].Running? ==> Upheld(r, n)
  }

  ghost predicate Upheld(r: Reg, n: string)
    requires n in r.deps
  {
    forall d :: d in r.deps[n] ==> d in r.state && r.state[d].Running?
  }

  ghost function Apply(r: Reg, op: Op): (Reg, Outcome)
    requires Consistent(r)
  {
    match op
    case Register(name, ds) =>
      if name == "" || name in r.deps then (r, RegisterError)
      else (Reg(r.deps[name := ds], r.state[name := Uninitialized], r.order), Success)
    case StartAll(f) =>
      if !AllRegistered(r.deps) || HasCycle(r.deps) then (r, OrderError)
      else
        CanonicalOrderIsOrder(r.deps);
        var order := CanonicalOrder(r.deps);
        var (state, out) := StartFrom(order, r.state, f);
        (Reg(r.deps, state, order), out)
    case StopAll(f) =>
      var (state, ok) := StopFrom(r.order, r.state, f);
      (Reg(r.deps, state, r.order), if ok then Success else StopErrors)
  }

  // ---- What starting keeps ------------------------------------------------

  /** With everything before position `k` running, starting the rest in order
      never leaves a running module without its dependencies. */
  lemma {:induction false} StartKeeps(r: Reg, k: nat, f: Faults)
    requires Consistent(r) && Supported(r) && Elements(r.order) == r.deps.Keys && k <= |r.order|
    requires forall i :: 0 <= i < k ==> r.state[r.order[i]].Running?
    ensures var (state, out) := StartFrom(r.order[k..], r.state, f);
      var r' := Reg(r.deps, state, r.order);
      Consistent(r') && Supported(r') && (out.Success? ==> forall n :: n in state ==> state[n].Running?)
    decreases |r.order| - k
  {
    var rest := r.order[k..];
    if k == |r.order| {
    } else {
      var n := r.order[k];
      assert rest[0] == n && rest[1..] == r.order[k + 1..];
      if r.state[n].Running? {
        StartKeeps(r, k + 1, f);
      } else if r.state[n].Uninitialized? && n in f.init {
      } else if n in f.start {
        FallKeeps(r, k, Failed);
      } else {
        var r1 := Reg(r.deps, r.state[n := Running], r.order);
        RiseKeeps(r, k);
        StartKeeps(r1, k + 1, f);
      }
    }
  }

  lemma {:induction false} RiseKeeps(r: Reg, k: nat)
    requires Consistent(r) && Supported(r) && k < |r.order|
    requires forall i :: 0 <= i < k ==> r.state[r.order[i]].Running?
    ensures var r1 := Reg(r.deps, r.state[r.order[k] := Running], r.order);
      Consistent(r1) && Supported(r1)
  {
    var m := r.order[k];
    var r1 := Reg(r.deps, r.state[m := Running], r.order);
    forall n | n in r1.state && n in r1.deps && r1.state[n].Running? ensures Upheld(r1, n) {
      if n == m {
        forall d | d in r.deps[m] ensures d in r1.state && r1.state[d].Running? {
          assert d in r.order[..k];
        }
      } else {
        assert Upheld(r, n);
      }
    }
  }

  /** A module that is not running, or on which nothing running depends, may
      leave the running state. */
  lemma {:induction false} FallKeeps(r: Reg, k: nat, s: ModuleState)
    requires Consistent(r) && Supported(r) && k < |r.order| && !s.Running?
    requires r.state[r.order[k]].Running? ==> forall i :: k < i < |r.order| ==> !r.state[r.order[i]].Running?
    ensures var r1 := Reg(r.deps, r.state[r.order[k] := s], r.order);
      Consistent(r1) && Supported(r1)
  {
    var m := r.order[k];
    var r1 := Reg(r.deps, r.state[m := s], r.order);
    forall n | n in r1.state && n in r1.deps && r1.state[n].Running? ensures Upheld(r1, n) {
      assert Upheld(r, n);
      assert n in r.order;
      var i :| 0 <= i < |r.order| && r.order[i] == n;
      forall d | d in r.deps[n] ensures r1.state[d].Running? {
        assert d in r.order[..i];
        var j :| 0 <= j < i && r.order[j] == d;
        assert r.state[m].Running? ==> i <= k;
      }
    }
  }

  // ---- What stopping keeps ------------------------------------------------

  lemma {:induction false} StopKeeps(r: Reg, k: nat, f: Faults)
    requires Consistent(r) && Supported(r) && k <= |r.order|
    requires forall i :: k <= i < |r.order| ==> !r.state[r.order[i]].Running?
    ensures var state := StopFrom(r.order[..k], r.state, f).0;
      var r' := Reg(r.deps, state, r.order);
      Consistent(r') && Supported(r') && forall n :: n in state ==> !state[n].Running?
    decreases k
  {
    var todo := r.order[..k];
    if k == 0 {
      forall n | n in r.state ensures !r.state[n].Running? {
        if n in r.order {
          var i :| 0 <= i < |r.order| && r.order[i] == n;
        }
      }
    } else {
      var n := r.order[k - 1];
      assert todo[k - 1] == n && todo[..k - 1] == r.order[..k - 1];
      if !r.state[n].Running? {
        StopKeeps(r, k - 1, f);
      } else {
        var s := if n in f.stop then Failed else Stopped;
        FallKeeps(r, k - 1, s);
        StopKeeps(Reg(r.deps, r.state[n := s], r.order), k - 1, f);
      }
    }
  }

  // ---- Every run ----------------------------------------------------------

  lemma {:induction false} ApplyKeeps(r: Reg, op: Op)
    requires Consistent(r) && Supported(r)
    ensures var (r', out) := Apply(r, op);
      && Consistent(r') && Supported(r')
      && (op.StartAll? && out.Success? ==> forall n :: n in r'.state ==> r'.state[n].Running?)
      && (op.StopAll? ==> forall n :: n in r'.state ==> !r'.state[n].Running?)
  {
    match op
    case Register(name, ds) =>
      if name !in r.deps { RegisterKeeps(r, name, ds); }
    case StartAll(f) =>
      if AllRegistered(r.deps) && !HasCycle(r.deps) {
        CanonicalOrderIsOrder(r.deps);
        var order := CanonicalOrder(r.deps);
        var r1 := Reg(r.deps, r.state, order);
        ReorderKeeps(r, order);
        assert order[0..] == order;
        StartKeeps(r1, 0, f);
      }
    case StopAll(f) =>
      assert r.order[..|r.order|] == r.order;
      StopKeeps(r, |r.order|, f);
  }

  lemma {:induction false} RegisterKeeps(r: Reg, name: string, ds: seq<string>)
    requires Consistent(r) && Supported(r) && name !in r.deps
    ensures var r1 := Reg(r.deps[name := ds], r.state[name := Uninitialized], r.order);
      Consistent(r1) && Supported(r1)
  {
    var r1 := Reg(r.deps[name := ds], r.state[name := Uninitialized], r.order);
    forall n | n in r1.state && n in r1.deps && r1.state[n].Running? ensures Upheld(r1, n) {
      assert Upheld(r, n);
    }
  }

  lemma {:induction false} ReorderKeeps(r: Reg, order: seq<string>)
    requires Consistent(r) && Supported(r)
    requires NoRepeat(order) && Elements(order) == r.deps.Keys && Respects(r.deps, order)
    ensures Consistent(Reg(r.deps, r.state, order)) && Supported(Reg(r.deps, r.state, order))
  {
    var r1 := Reg(r.deps, r.state, order);
    forall n | n in r.state && r.state[n].Running? ensures n in order {
      assert n in Elements(order);
    }
    forall n | n in r1.state && n in r1.deps && r1.state[n].Running? ensures Upheld(r1, n) {
      assert Upheld(r, n);
    }
  }

  ghost predicate Reaches(r: Reg, ops: seq<Op>, end: Reg)
    decreases |ops|
  {
    if ops == [] then r == end else Consistent(r) && Reaches(Apply(r, ops[0]).0, ops[1..], end)
  }

  const EMPTY := Reg(map[], map[], [])

  /** After every sequence of operations, with any calls failing, each running
      module has all its dependencies running. */
  lemma {:induction false} AlwaysSupported(ops: seq<Op>, start: Reg, end: Reg)
    requires Consistent(start) && Supported(start) && Reaches(start, ops, end)
    ensures Consistent(end) && Supported(end)
  {
    if ops == [] {
    } else {
      ApplyKeeps(start, ops[0]);
      AlwaysSupported(ops[1..], Apply(start, ops[0]).0, end);
    }
  }

  lemma {:induction false} EmptySupported(ops: seq<Op>, end: Reg)
    requires Reaches(EMPTY, ops, end)
    ensures Supported(end)
  {
    AlwaysSupported(ops, EMPTY, end);
  }

  // ---- Exactly what a start or a stop comes to ----------------------------

  /** The module is not running yet, and fails to come up: on its first start in
      `Init`, or in `Start`. */
  predicate ComesUpBadly(s: ModuleState, f: Faults, n: string) {
    !s.Running? && ((s.Uninitialized? && n in f.init) || n in f.start)
  }

  /** The start got as far as position `w` of the order: everything before runs, the
      module there failed, and everything behind is as it was. */
  predicate StoppedShortAt(order: seq<string>, before: map<string, ModuleState>, after: map<string, ModuleState>,
                           out: Outcome, f: Faults, w: nat)
    requires w < |order| && before.Keys == after.Keys && forall i :: 0 <= i < |order| ==> order[i] in before
  {
    var n := order[w];
    && (forall i :: 0 <= i < w ==> after[order[i]] == Running)
    && (forall i :: w < i < |order| ==> after[order[i]] == before[order[i]])
    && (if before[n].Uninitialized? && n in f.init then out == InitError(n) && after[n] == before[n]
        else out == StartError(n) && after[n] == Failed)
  }

  predicate FirstBad(order: seq<string>, state: map<string, ModuleState>, f: Faults, w: nat)
    requires forall i :: 0 <= i < |order| ==> order[i] in state
  {
    && w <= |order| && (w < |order| ==> ComesUpBadly(state[order[w]], f, order[w]))
    && forall i :: 0 <= i < w ==> !ComesUpBadly(state[order[i]], f, order[i])
  }

  lemma {:induction false} StartFromIs(order: seq<string>, state: map<string, ModuleState>, f: Faults, w: nat)
    requires NoRepeat(order) && (forall i :: 0 <= i < |order| ==> order[i] in state) && FirstBad(order, state, f, w)
    ensures var (after, out) := StartFrom(order, state, f);
      && after.Keys == state.Keys && (forall n :: n in state && n !in order ==> after[n] == state[n])
      && (w < |order| ==> StoppedShortAt(order, state, after, out, f, w))
      && (w == |order| ==> out == Success && forall i :: 0 <= i < |order| ==> after[order[i]] == Running)
    decreases |order|
  {
    if order == [] || w == 0 {
    } else {
      var n, rest := order[0], order[1..];
      var state' := state[n := Running];
      assert state[n].Running? ==> state' == state;
      assert forall i :: 0 <= i < |rest| ==> rest[i] == order[i + 1] && rest[i] != n;
      assert FirstBad(rest, state', f, w - 1);
      StartFromIs(rest, state', f, w - 1);
      var (after, out) := StartFrom(rest, state', f);
      forall i | 0 <= i < |order| ensures i > 0 ==> order[i] == rest[i - 1] {}
      assert after[n] == Running;
    }
  }

  lemma {:induction false} FindFirstBad(order: seq<string>, state: map<string, ModuleState>, f: Faults) returns (w: nat)
    requires forall i :: 0 <= i < |order| ==> order[i] in state
    ensures FirstBad(order, state, f, w)
  {
    w := 0;
    while w < |order| && !ComesUpBadly(state[order[w]], f, order[w])
      invariant w <= |order| && forall i :: 0 <= i < w ==> !ComesUpBadly(state[order[i]], f, order[i])
    {
      w := w + 1;
    }
  }

  /** `StartAll` fails for want of an order exactly with an unknown dependency or a
      cycle.  Otherwise it succeeds exactly if every module that is not running comes
      up, and then all run; else it reports the first that does not, in an order in
      which each module stands behind its dependencies. */
  lemma {:induction false} StartOutcome(r: Reg, f: Faults)
    requires Consistent(r)
    ensures var (r', out) := Apply(r, StartAll(f));
      && r'.deps == r.deps && r'.state.Keys == r.state.Keys
      && (out.OrderError? <==> !AllRegistered(r.deps) || HasCycle(r.deps)) && (out.OrderError? ==> r' == r)
      && (!out.OrderError? ==> NoRepeat(r'.order) && Elements(r'.order) == r.deps.Keys && Respects(r.deps, r'.order))
      && (!out.OrderError? ==> (out.Success? <==> forall n :: n in r.state ==> !ComesUpBadly(r.state[n], f, n)))
      && (out.Success? ==> forall n :: n in r.state ==> r'.state[n] == Running)
      && (!out.OrderError? && !out.Success? ==> exists w :: StartsUpTo(r, r', out, f, w))
  {
    if AllRegistered(r.deps) && !HasCycle(r.deps) {
      CanonicalOrderIsOrder(r.deps);
      var order := CanonicalOrder(r.deps);
      AllInOrder(r.state, order);
      var w := FindFirstBad(order, r.state, f);
      StartFromIs(order, r.state, f, w);
      forall n | n in r.state ensures exists i :: 0 <= i < |order| && order[i] == n {
        assert n in Elements(order);
      }
      var (r', out) := Apply(r, StartAll(f));
      if w < |order| {
        assert StartsUpTo(r, r', out, f, w);
      }
    }
  }

  lemma {:induction false} AllInOrder(state: map<string, ModuleState>, order: seq<string>)
    requires Elements(order) == state.Keys
    ensures forall i :: 0 <= i < |order| ==> order[i] in state
  {
    forall i | 0 <= i < |order| ensures order[i] in state {
      assert order[i] in Elements(order);
    }
  }

  predicate StartsUpTo(r: Reg, r': Reg, out: Outcome, f: Faults, w: nat) {
    && w < |r'.order| && r.state.Keys == r'.state.Keys && (forall i :: 0 <= i < |r'.order| ==> r'.order[i] in r.state)
    && FirstBad(r'.order, r.state, f, w) && StoppedShortAt(r'.order, r.state, r'.state, out, f, w)
  }

  lemma {:induction false} StopFromIs(order: seq<string>, state: map<string, ModuleState>, f: Faults)
    requires NoRepeat(order) && forall i :: 0 <= i < |order| ==> order[i] in state
    ensures var (after, ok) := StopFrom(order, state, f);
      && after.Keys == state.Keys
      && (forall n :: n in state ==> after[n] == if n in order then StoppedAs(state[n], f, n) else state[n])
      && (ok <==> forall n :: n in order && state[n].Running? ==> n !in f.stop)
    decreases |order|
  {
    if order == [] {
    } else {
      var n, rest := order[|order| - 1], order[..|order| - 1];
      var state' := state[n := StoppedAs(state[n], f, n)];
      assert !state[n].Running? ==> state' == state;
      assert order == rest + [n] && n !in rest;
      StopFromIs(rest, state', f);
    }
  }

  /** A running module ends up stopped, or failed if its stop fails. */
  function StoppedAs(s: ModuleState, f: Faults, n: string): ModuleState {
    if !s.Running? then s else if n in f.stop then Failed else Stopped
  }

  /** `StopAll` stops every running module, whatever the others do, and reports an
      error exactly if a running one fails to stop. */
  lemma {:induction false} StopOutcome(r: Reg, f: Faults)
    requires Consistent(r)
    ensures var (r', out) := Apply(r, StopAll(f));
      && r'.deps == r.deps && r'.order == r.order && r'.state.Keys == r.state.Keys
      && (forall n :: n in r.state ==> r'.state[n] == StoppedAs(r.state[n], f, n))
      && (out == if exists n :: n in r.state && r.state[n].Running? && n in f.stop then StopErrors else Success)
  {
    StopFromIs(r.order, r.state, f);
  }

  /** Registration refuses the empty and the repeated name, and otherwise adds a module
      that has not been initialised. */
  lemma {:induction false} RegisterOutcome(r: Reg, name: string, ds: seq<string>)
    requires Consistent(r)
    ensures var (r', out) := Apply(r, Register(name, ds));
      && (out == if name == "" || name in r.state then RegisterError else Success)
      && (out.RegisterError? ==> r' == r)
      && (out.Success? ==> name in r'.state && r'.state[name] == Uninitialized && name in r'.deps && r'.deps[name] == ds)
      && (forall n :: n in r.state ==> n in r'.state && r'.state[n] == r.state[n] && n in r'.deps && r'.deps[n] == r.deps[n])
  {
  }

  // ---- The registry object ------------------------------------------------

  class ModuleRegistry {
    var deps: Graph
    var state: map<string, ModuleState>
    var order: seq<string>

    ghost function Value(): Reg
      reads this
    {
      Reg(deps, state, order)
    }

    ghost predicate Valid()
      reads this
    {
      Consistent(Value()) && Supported(Value())
    }

    constructor ()
      ensures Valid() && Value() == EMPTY
    {
      deps, state, order := map[], map[], [];
    }

    method RegisterModule(name: string, dependencies: seq<string>) returns (out: Outcome)
      requires Valid()
      modifies this
      ensures (Value(), out) == Apply(old(Value()), Register(name, dependencies))
      ensures Valid()
    {
      ApplyKeeps(Value(), Register(name, dependencies));
      if name == "" || name in deps {
        return RegisterError;
      }
      deps := deps[name := dependencies];
      state := state[name := Uninitialized];
      return Success;
    }

    method StartModules(f: Faults) returns (out: Outcome)
      requires Valid()
      modifies this
      ensures (Value(), out) == Apply(old(Value()), StartAll(f))
      ensures Valid()
    {
      ApplyKeeps(Value(), StartAll(f));
      state, order, out := StartOrdered(deps, state, order, f);
    }

    method StopModules(f: Faults) returns (out: Outcome)
      requires Valid()
      modifies this
      ensures (Value(), out) == Apply(old(Value()), StopAll(f))
      ensures Valid() && forall n :: n in state ==> !state[n].Running?
    {
      ApplyKeeps(Value(), StopAll(f));
      state, out := StopLoop(order, state, f);
    }
  }

  /** `StartAll`: the order is computed and stored before the first module starts. */
  method StartOrdered(deps: Graph, state0: map<string, ModuleState>, order0: seq<string>, f: Faults)
    returns (state: map<string, ModuleState>, order: seq<string>, out: Outcome)
    requires Consistent(Reg(deps, state0, order0))
    ensures (Reg(deps, state, order), out) == Apply(Reg(deps, state0, order0), StartAll(f))
  {
    var r := ComputeStartOrder(deps);
    if !r.Ok? {
      return state0, order0, OrderError;
    }
    order := r.order;
    state, out := StartLoop(order, state0, f);
  }

  /** The body of `StartAll` once the order is known. */
  method StartLoop(order: seq<string>, state0: map<string, ModuleState>, f: Faults)
    returns (state: map<string, ModuleState>, out: Outcome)
    requires forall j :: 0 <= j < |order| ==> order[j] in state0
    ensures (state, out) == StartFrom(order, state0, f)
  {
    state := state0;
    assert order[0..] == order;
    for i := 0 to |order|
      invariant forall j :: 0 <= j < |order| ==> order[j] in state
      invariant StartFrom(order[i..], state, f) == StartFrom(order, state0, f)
    {
      var name := order[i];
      assert order[i..][0] == name && order[i..][1..] == order[i + 1..];
      if state[name].Running? {
        continue;
      }
      ghost var before := state;
      if state[name].Uninitialized? {
        if name in f.init {
          return state, InitError(name);
        }
        state := state[name := Initialized];
      }
      state := state[name := Starting];
      if name in f.start {
        state := state[name := Failed];
        assert state == before[name := Failed];
        return state, StartError(name);
      }
      state := state[name := Running];
      assert state == before[name := Running];
    }
    return state, Success;
  }

  /** The body of `StopAll`. */
  method StopLoop(order: seq<string>, state0: map<string, ModuleState>, f: Faults)
    returns (state: map<string, ModuleState>, out: Outcome)
    requires forall j :: 0 <= j < |order| ==> order[j] in state0
    ensures (state, out) == (StopFrom(order, state0, f).0, if StopFrom(order, state0, f).1 then Success else StopErrors)
  {
    state := state0;
    var i, failed := |order|, false;
    assert order[..|order|] == order;
    while i > 0
      invariant 0 <= i <= |order|
      invariant forall j :: 0 <= j < |order| ==> order[j] in state
      invariant StopFrom(order, state0, f).0 == StopFrom(order[..i], state, f).0
      invariant StopFrom(order, state0, f).1 == (!failed && StopFrom(order[..i], state, f).1)
    {
      i := i - 1;
      var name := order[i];
      assert order[..i + 1][..i] == order[..i] && order[..i + 1][i] == name;
      if !state[name].Running? {
        continue;
      }
      ghost var before := state;
      state := state[name := Stopping];
      if name in f.stop {
        state := state[name := Failed];
        assert state == before[name := Failed];
        failed := true;
        continue;
      }
      state := state[name := Stopped];
      assert state == before[name := Stopped];
    }
    return state, if failed then StopErrors else Success;
  }
}
