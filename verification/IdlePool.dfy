/** The idle connection pool of `core/tunnel/keepalive.go` as a state machine over
    its atomic steps: critical sections under the mutex, the watcher's read, the
    verdict channel, and the closes that happen outside the lock.  Threads
    interleave freely. */
module IdlePool {
  const IDLE_MAX: nat := 8

  /** Each call of `put` makes one parked entry, numbered in order of creation;
      `Conn` names the connection underneath, which may be put again later. */
  type Entry = nat
  type Conn = nat

  // ---- The critical sections ----------------------------------------------

  datatype Pool = Pool(conns: seq<Entry>, closed: bool)

  /** `put` under the lock: the pool after it and the entries it pushed out.  On a
      closed pool that is the new entry itself. */
  function PutLocked(p: Pool, e: Entry): (Pool, seq<Entry>) {
    if p.closed then (p, [e])
    else
      var conns := p.conns + [e];
      var over := if |conns| > IDLE_MAX then |conns| - IDLE_MAX else 0;
      (p.(conns := conns[over..]), conns[..over])
  }

  function IndexOf(s: seq<Entry>, e: Entry): (i: int)
    ensures -1 <= i < |s|
    ensures if i >= 0 then s[i] == e else e !in s
  {
    if s == [] then -1
    else if s[0] == e then 0
    else
      var i := IndexOf(s[1..], e);
      if i < 0 then -1 else i + 1
  }

  /** `remove` under the lock. */
  function RemoveLocked(p: Pool, e: Entry): (Pool, bool) {
    var i := IndexOf(p.conns, e);
    if i < 0 then (p, false) else (p.(conns := p.conns[..i] + p.conns[i + 1..]), true)
  }

  /** `put`: on an open pool the newcomer comes last, the order is kept, and what
      goes out is the oldest, as many as are over eight; on a closed pool it is
      the newcomer alone. */
  lemma {:induction false} PutOutcome(p: Pool, e: Entry)
    ensures var (q, out) := PutLocked(p, e);
      && q.closed == p.closed
      && (p.closed ==> q.conns == p.conns && out == [e])
      && (!p.closed ==> out + q.conns == p.conns + [e])
      && (!p.closed ==> |q.conns| == if |p.conns| < IDLE_MAX then |p.conns| + 1 else IDLE_MAX)
  {
    var (q, out) := PutLocked(p, e);
    if !p.closed {
      assert out + q.conns == p.conns + [e];
    }
  }

  /** The pool after a sequence of puts, and all they pushed out, in order. */
  ghost function Puts(p: Pool, es: seq<Entry>): (Pool, seq<Entry>) {
    if es == [] then (p, [])
    else
      var (q, out) := Puts(p, es[..|es| - 1]);
      var (r, more) := PutLocked(q, es[|es| - 1]);
      (r, out + more)
  }

  /** Any number of puts on an empty open pool: the last eight stay, in order, and
      all before them went out, oldest first. */
  lemma {:induction false} PutsKeepNewest(es: seq<Entry>)
    ensures var (q, out) := Puts(Pool([], false), es);
      !q.closed && out + q.conns == es && |q.conns| == if |es| < IDLE_MAX then |es| else IDLE_MAX
  {
    if es == [] {
    } else {
      var front, e := es[..|es| - 1], es[|es| - 1];
      PutsKeepNewest(front);
      var (q, out) := Puts(Pool([], false), front);
      OneMore(q, out, e);
      assert es == front + [e];
    }
  }

  lemma {:induction false} OneMore(q: Pool, out: seq<Entry>, e: Entry)
    requires !q.closed
    ensures var (r, more) := PutLocked(q, e);
      && !r.closed && out + more + r.conns == out + q.conns + [e]
      && |r.conns| == if |q.conns| < IDLE_MAX then |q.conns| + 1 else IDLE_MAX
  {
    PutOutcome(q, e);
    var (r, more) := PutLocked(q, e);
    assert out + more + r.conns == out + (more + r.conns);
    assert out + (q.conns + [e]) == out + q.conns + [e];
  }

  /** `remove`: the entry is taken out where it stands, and an entry that is not
      parked changes nothing. */
  lemma {:induction false} RemoveOutcome(p: Pool, before: seq<Entry>, e: Entry, behind: seq<Entry>)
    ensures e !in p.conns ==> RemoveLocked(p, e) == (p, false)
    ensures p.conns == before + [e] + behind && e !in before ==>
      RemoveLocked(p, e) == (p.(conns := before + behind), true)
  {
    var i := IndexOf(p.conns, e);
    if p.conns == before + [e] + behind && e !in before {
      assert p.conns[|before|] == e;
      FirstIndex(p.conns, e, |before|);
      assert p.conns[..i] == before && p.conns[i + 1..] == behind;
    }
  }

  lemma {:induction false} FirstIndex(s: seq<Entry>, e: Entry, k: nat)
    requires k < |s| && s[k] == e && e !in s[..k]
    ensures IndexOf(s, e) == k
  {
    if k == 0 {
    } else {
      assert s[0] == s[..k][0];
      assert s[1..][..k - 1] == s[..k][1..];
      FirstIndex(s[1..], e, k - 1);
    }
  }

  /** The shared object, with exactly these critical sections. */
  class IdleSet {
    var conns: seq<Entry>
    var closed: bool

    ghost function Value(): Pool
      reads this
    {
      Pool(conns, closed)
    }

    constructor ()
      ensures Value() == Pool([], false)
    {
      conns, closed := [], false;
    }

    method Put(e: Entry) returns (toClose: seq<Entry>)
      modifies this
      ensures (Value(), toClose) == PutLocked(old(Value()), e)
    {
      if closed {
        return [e];
      }
      conns := conns + [e];
      toClose := [];
      var over := |conns| - IDLE_MAX;
      if over > 0 {
        toClose := conns[..over];
        conns := conns[over..];
      }
    }

    method Pop() returns (found: bool, e: Entry)
      modifies this`conns
      ensures found == (old(conns) != [])
      ensures if found then old(conns) == conns + [e] else conns == old(conns)
    {
      if |conns| == 0 {
        return false, 0;
      }
      var last := |conns| - 1;
      found, e := true, conns[last];
      conns := conns[..last];
    }

    method Remove(e: Entry) returns (removed: bool)
      modifies this`conns
      ensures (Value(), removed) == RemoveLocked(old(Value()), e)
    {
      var i := IndexOf(conns, e);
      if i < 0 {
        return false;
      }
      conns := conns[..i] + conns[i + 1..];
      return true;
    }

    method CloseAll() returns (toClose: seq<Entry>)
      modifies this
      ensures toClose == old(conns) && Value() == Pool([], true)
    {
      toClose := conns;
      conns, closed := [], true;
    }

    method Reopen()
      modifies this`closed
      ensures !closed
    {
      closed := false;
    }
  }

  // ---- Threads and steps --------------------------------------------------

  datatype Thread =
    | Putting(e: Entry, evict: seq<Entry>)   // `put` past the lock, watcher not yet started
    | Watching(e: Entry)                     // `watch` inside its one-byte read
    | Told(e: Entry, alive: bool)            // `watch` after sending its verdict
    | Reclaiming(e: Entry)                   // `take` holding an entry it popped
    | Closing(es: seq<Entry>)                // someone about to close these
    | Finished

  datatype State = State(
    pool: Pool,
    threads: seq<Thread>,
    connOf: seq<Conn>,            // the connection behind each entry
    verdict: map<Entry, bool>,    // what sits in the entry's channel
    consumed: set<Entry>,         // entries whose watcher read a byte
    closes: seq<Entry>,           // closes done by the pool, in order
    handed: seq<Entry>)           // entries given out by `take`, in order

  datatype Probe = DeadlineExceeded | ReadByte | ReadError

  datatype Step =
    | Put(c: Conn)
    | StartWatch(i: nat)
    | ProbeReturns(i: nat, outcome: Probe)
    | WatcherRemoves(i: nat)
    | Take
    | ReclaimSucceeds(i: nat)
    | ReclaimFails(i: nat)
    | CloseNext(i: nat)
    | CloseAllConns
    | ReopenPool

  const START := State(Pool([], false), [], [], map[], {}, [], [])

  ghost predicate Enabled(s: State, step: Step) {
    match step
    case Put(c) => forall e :: 0 <= e < |s.connOf| && s.connOf[e] == c ==> e in s.handed
    case StartWatch(i) => i < |s.threads| && s.threads[i].Putting?
    case ProbeReturns(i, _) => i < |s.threads| && s.threads[i].Watching?
    case WatcherRemoves(i) => i < |s.threads| && s.threads[i].Told?
    case Take => s.pool.conns != []
    case ReclaimSucceeds(i) =>
      i < |s.threads| && s.threads[i].Reclaiming? && s.threads[i].e in s.verdict && s.verdict[s.threads[i].e]
    case ReclaimFails(i) => i < |s.threads| && s.threads[i].Reclaiming?
    case CloseNext(i) => i < |s.threads| && s.threads[i].Closing? && s.threads[i].es != []
    case CloseAllConns => true
    case ReopenPool => true
  }

  function SetThread(s: State, i: nat, t: Thread): State
    requires i < |s.threads|
  {
    s.(threads := s.threads[i := t])
  }

  function Spawn(s: State, t: Thread): State {
    s.(threads := s.threads + [t])
  }

  ghost function Do(s: State, step: Step): State
    requires Enabled(s, step)
  {
    match step
    case Put(c) =>
      var e := |s.connOf|;
      var (pool, out) := PutLocked(s.pool, e);
      var s1 := s.(pool := pool, connOf := s.connOf + [c]);
      Spawn(s1, if s.pool.closed then Closing(out) else Putting(e, out))
    case StartWatch(i) =>
      var t := s.threads[i];
      Spawn(SetThread(s, i, Closing(t.evict)), Watching(t.e))
    case ProbeReturns(i, outcome) =>
      var e := s.threads[i].e;
      var s1 := s.(verdict := s.verdict[e := outcome.DeadlineExceeded?],
                   consumed := if outcome.ReadByte? then s.consumed + {e} else s.consumed);
      SetThread(s1, i, Told(e, outcome.DeadlineExceeded?))
    case WatcherRemoves(i) =>
      var t := s.threads[i];
      if t.alive then SetThread(s, i, Finished)
      else
        var (pool, removed) := RemoveLocked(s.pool, t.e);
        SetThread(s.(pool := pool), i, if removed then Closing([t.e]) else Finished)
    case Take =>
      var last := |s.pool.conns| - 1;
      Spawn(s.(pool := s.pool.(conns := s.pool.conns[..last])), Reclaiming(s.pool.conns[last]))
    case ReclaimSucceeds(i) =>
      var e := s.threads[i].e;
      SetThread(s.(handed := s.handed + [e], verdict := s.verdict - {e}), i, Finished)
    case ReclaimFails(i) =>
      SetThread(s, i, Closing([s.threads[i].e]))
    case CloseNext(i) =>
      var es := s.threads[i].es;
      SetThread(s.(closes := s.closes + [es[0]]), i, Closing(es[1..]))
    case CloseAllConns =>
      Spawn(s.(pool := Pool([], true)), Closing(s.pool.conns))
    case ReopenPool =>
      s.(pool := s.pool.(closed := false))
  }

  // ---- Ownership ----------------------------------------------------------

  /** The entries a thread is responsible for. */
  function Own(t: Thread): multiset<Entry> {
    match t
    case Putting(_, evict) => multiset(evict)
    case Reclaiming(e) => multiset{e}
    case Closing(es) => multiset(es)
    case _ => multiset{}
  }

  /** What all threads together hold, by some measure of one thread. */
  function Sum(f: Thread -> multiset<Entry>, threads: seq<Thread>): multiset<Entry> {
    if threads == [] then multiset{} else f(threads[0]) + Sum(f, threads[1..])
  }

  function Hands(threads: seq<Thread>): multiset<Entry> {
    Sum(Own, threads)
  }

  /** Entries whose watcher has not reported yet. */
  function Waiting(t: Thread): multiset<Entry> {
    match t
    case Putting(e, _) => multiset{e}
    case Watching(e) => multiset{e}
    case _ => multiset{}
  }

  function Unreported(threads: seq<Thread>): multiset<Entry> {
    Sum(Waiting, threads)
  }

  function Places(s: State): multiset<Entry> {
    multiset(s.pool.conns) + Hands(s.threads) + multiset(s.closes) + multiset(s.handed)
  }

  /** Every entry ever made is in exactly one place: parked, in the hands of one
      thread, closed once by the pool, or handed out once. */
  ghost predicate OneOwner(s: State) {
    forall e: Entry :: Places(s)[e] == if e < |s.connOf| then 1 else 0
  }

  /** An entry that may still be handed out, or was, has lost no byte, and no
      watcher of a handed-out entry is still reading. */
  ghost predicate CleanHandover(s: State) {
    forall e: Entry {:trigger CleanAt(s, e)} :: CleanAt(s, e)
  }

  ghost predicate CleanAt(s: State, e: Entry) {
    && Unreported(s.threads)[e] <= 1
    && (e in Unreported(s.threads) ==> e < |s.connOf| && e !in s.verdict && e !in s.consumed && e !in s.handed)
    && (e in s.verdict && s.verdict[e] ==> e !in s.consumed)
    && (e in s.handed ==> e !in s.consumed)
    && (e in s.verdict || e in s.consumed ==> e < |s.connOf|)
  }

  /** Of the entries of one connection, all but the last were handed out again. */
  ghost predicate OneEntryPerConn(s: State) {
    forall d, e :: 0 <= d < e < |s.connOf| && s.connOf[d] == s.connOf[e] ==> d in s.handed
  }

  ghost predicate Inv(s: State) {
    OneOwner(s) && CleanHandover(s) && OneEntryPerConn(s) && |s.pool.conns| <= IDLE_MAX
  }

  // ---- Bookkeeping on thread lists ----------------------------------------

  lemma {:induction false} SumUpdate(f: Thread -> multiset<Entry>, threads: seq<Thread>, i: nat, t: Thread)
    requires i < |threads|
    ensures Sum(f, threads[i := t]) + f(threads[i]) == Sum(f, threads) + f(t)
  {
    var rest := threads[1..];
    if i == 0 {
      assert threads[i := t][1..] == rest;
      Swap(f(t), Sum(f, rest), f(threads[0]));
    } else {
      SumUpdate(f, rest, i - 1, t);
      assert threads[i := t][1..] == rest[i - 1 := t];
      Carry(f(threads[0]), Sum(f, rest[i - 1 := t]), f(threads[i]), Sum(f, rest), f(t));
    }
  }

  lemma {:induction false} Swap(a: multiset<Entry>, b: multiset<Entry>, c: multiset<Entry>)
    ensures a + b + c == c + b + a
  {
  }

  lemma {:induction false} Carry(h: multiset<Entry>, a: multiset<Entry>, b: multiset<Entry>, c: multiset<Entry>, d: multiset<Entry>)
    requires a + b == c + d
    ensures h + a + b == h + c + d
  {
    assert h + a + b == h + (a + b) && h + c + d == h + (c + d);
  }

  lemma {:induction false} SumAppend(f: Thread -> multiset<Entry>, threads: seq<Thread>, t: Thread)
    ensures Sum(f, threads + [t]) == Sum(f, threads) + f(t)
  {
    if threads == [] {
      assert threads + [t] == [t] && [t][1..] == [];
      assert f(t) + multiset{} == multiset{} + f(t);
    } else {
      SumAppend(f, threads[1..], t);
      assert (threads + [t])[1..] == threads[1..] + [t];
      assert f(threads[0]) + (Sum(f, threads[1..]) + f(t)) == f(threads[0]) + Sum(f, threads[1..]) + f(t);
    }
  }

  lemma {:induction false} SumMember(f: Thread -> multiset<Entry>, threads: seq<Thread>, i: nat)
    requires i < |threads|
    ensures f(threads[i]) <= Sum(f, threads)
  {
    if i == 0 {
    } else {
      SumMember(f, threads[1..], i - 1);
    }
  }

  // ---- No step loses or duplicates an entry -------------------------------

  /** Replacing thread `i` and moving the other places accordingly. */
  lemma {:induction false} MoveThread(s: State, s': State, i: nat, t: Thread)
    requires i < |s.threads| && s'.threads == s.threads[i := t]
    requires multiset(s'.pool.conns) + multiset(s'.closes) + multiset(s'.handed) + Own(t) ==
             multiset(s.pool.conns) + multiset(s.closes) + multiset(s.handed) + Own(s.threads[i])
    ensures Places(s') == Places(s)
  {
    SumUpdate(Own, s.threads, i, t);
    Balance(multiset(s'.pool.conns), multiset(s'.closes), multiset(s'.handed), Own(t), Hands(s'.threads),
            multiset(s.pool.conns), multiset(s.closes), multiset(s.handed), Own(s.threads[i]), Hands(s.threads));
  }

  lemma {:induction false} Balance(p': multiset<Entry>, c': multiset<Entry>, h': multiset<Entry>, o': multiset<Entry>, t': multiset<Entry>,
                p: multiset<Entry>, c: multiset<Entry>, h: multiset<Entry>, o: multiset<Entry>, t: multiset<Entry>)
    requires p' + c' + h' + o' == p + c + h + o
    requires t' + o == t + o'
    ensures p' + t' + c' + h' == p + t + c + h
  {
    forall e ensures (p' + t' + c' + h')[e] == (p + t + c + h)[e] {
      assert (p' + c' + h' + o')[e] == (p + c + h + o)[e] && (t' + o)[e] == (t + o')[e];
    }
  }

  /** A new thread takes over what leaves the pool. */
  lemma {:induction false} NewThread(s: State, s': State, t: Thread, extra: multiset<Entry>)
    requires s'.threads == s.threads + [t] && s'.closes == s.closes && s'.handed == s.handed
    requires multiset(s'.pool.conns) + Own(t) == multiset(s.pool.conns) + extra
    ensures Places(s') == Places(s) + extra
  {
    SumAppend(Own, s.threads, t);
    var a, b, h := multiset(s'.pool.conns), multiset(s.pool.conns), Hands(s.threads);
    var rest := multiset(s.closes) + multiset(s.handed);
    forall e ensures (a + (h + Own(t)) + rest)[e] == (b + h + rest + extra)[e] {
      assert (a + Own(t))[e] == (b + extra)[e];
    }
    assert Places(s') == a + (h + Own(t)) + rest;
    assert Places(s) == b + h + rest;
  }

  lemma {:induction false} PutPlaces(s: State, c: Conn)
    requires Enabled(s, Put(c))
    ensures Places(Do(s, Put(c))) == Places(s) + multiset{|s.connOf|}
  {
    var e := |s.connOf|;
    var (pool, out) := PutLocked(s.pool, e);
    var conns := s.pool.conns + [e];
    if !s.pool.closed {
      assert conns == out + pool.conns;
      assert multiset(conns) == multiset(s.pool.conns) + multiset{e};
    }
    NewThread(s, Do(s, Put(c)), if s.pool.closed then Closing(out) else Putting(e, out), multiset{e});
  }

  lemma {:induction false} RemovePlaces(p: Pool, e: Entry)
    ensures var (q, removed) := RemoveLocked(p, e);
      multiset(q.conns) + (if removed then multiset{e} else multiset{}) == multiset(p.conns)
  {
    var i := IndexOf(p.conns, e);
    if i >= 0 {
      assert p.conns == p.conns[..i] + [e] + p.conns[i + 1..];
    }
  }

  lemma {:induction false} RemoveStepPlaces(s: State, i: nat)
    requires Enabled(s, WatcherRemoves(i))
    ensures Places(Do(s, WatcherRemoves(i))) == Places(s)
  {
    var t := s.threads[i];
    if t.alive {
      MoveThread(s, Do(s, WatcherRemoves(i)), i, Finished);
    } else {
      RemovePlaces(s.pool, t.e);
      var (pool, removed) := RemoveLocked(s.pool, t.e);
      TakenOut(s, i, t.e, pool, removed);
    }
  }

  lemma {:induction false} TakenOut(s: State, i: nat, e: Entry, pool: Pool, removed: bool)
    requires i < |s.threads| && s.threads[i].Told?
    requires multiset(pool.conns) + (if removed then multiset{e} else multiset{}) == multiset(s.pool.conns)
    ensures Places(SetThread(s.(pool := pool), i, if removed then Closing([e]) else Finished)) == Places(s)
  {
    var t := if removed then Closing([e]) else Finished;
    Exchange(multiset(pool.conns), Own(t), multiset(s.pool.conns), multiset(s.closes), multiset(s.handed));
    MoveThread(s, SetThread(s.(pool := pool), i, t), i, t);
  }

  lemma {:induction false} Exchange(a: multiset<Entry>, o: multiset<Entry>, b: multiset<Entry>, c: multiset<Entry>, h: multiset<Entry>)
    requires a + o == b
    ensures a + c + h + o == b + c + h + multiset{}
  {
    assert a + c + h + o == (a + o) + (c + h);
    assert b + c + h + multiset{} == b + (c + h);
  }

  lemma {:induction false} WatchStepPlaces(s: State, i: nat)
    requires Enabled(s, StartWatch(i))
    ensures Places(Do(s, StartWatch(i))) == Places(s)
  {
    var t := s.threads[i];
    MoveThread(s, SetThread(s, i, Closing(t.evict)), i, Closing(t.evict));
    NewThread(SetThread(s, i, Closing(t.evict)), Do(s, StartWatch(i)), Watching(t.e), multiset{});
  }

  lemma {:induction false} TakeStepPlaces(s: State)
    requires Enabled(s, Take)
    ensures Places(Do(s, Take)) == Places(s)
  {
    var last := |s.pool.conns| - 1;
    assert s.pool.conns == s.pool.conns[..last] + [s.pool.conns[last]];
    NewThread(s, Do(s, Take), Reclaiming(s.pool.conns[last]), multiset{});
  }

  lemma {:induction false} CloseAllPlaces(s: State)
    requires Enabled(s, CloseAllConns)
    ensures Places(Do(s, CloseAllConns)) == Places(s)
  {
    NewThread(s, Do(s, CloseAllConns), Closing(s.pool.conns), multiset{});
  }

  lemma {:induction false} CloseStepPlaces(s: State, i: nat)
    requires Enabled(s, CloseNext(i))
    ensures Places(Do(s, CloseNext(i))) == Places(s)
  {
    var es := s.threads[i].es;
    FirstClosed(multiset(s.pool.conns), s.closes, multiset(s.handed), es);
    MoveThread(s, Do(s, CloseNext(i)), i, Closing(es[1..]));
  }

  lemma {:induction false} FirstClosed(p: multiset<Entry>, closes: seq<Entry>, h: multiset<Entry>, es: seq<Entry>)
    requires es != []
    ensures p + multiset(closes + [es[0]]) + h + multiset(es[1..]) == p + multiset(closes) + h + multiset(es)
  {
    assert es == [es[0]] + es[1..];
    var m, rest := multiset(closes), multiset(es[1..]);
    assert multiset(closes + [es[0]]) == m + multiset{es[0]} && multiset(es) == multiset{es[0]} + rest;
    assert p + (m + multiset{es[0]}) + h + rest == p + m + h + (multiset{es[0]} + rest);
  }

  lemma {:induction false} ReclaimStepPlaces(s: State, i: nat)
    requires Enabled(s, ReclaimSucceeds(i))
    ensures Places(Do(s, ReclaimSucceeds(i))) == Places(s)
  {
    MoveThread(s, Do(s, ReclaimSucceeds(i)), i, Finished);
  }

  lemma {:induction false} StepPlaces(s: State, step: Step)
    requires Enabled(s, step) && !step.Put?
    ensures Places(Do(s, step)) == Places(s)
  {
    match step
    case WatcherRemoves(i) => RemoveStepPlaces(s, i);
    case ReclaimSucceeds(i) => ReclaimStepPlaces(s, i);
    case CloseNext(i) => CloseStepPlaces(s, i);
    case ProbeReturns(i, _) => MoveThread(s, Do(s, step), i, Do(s, step).threads[i]);
    case ReclaimFails(i) => MoveThread(s, Do(s, step), i, Do(s, step).threads[i]);
    case ReopenPool =>
    case StartWatch(i) => WatchStepPlaces(s, i);
    case Take => TakeStepPlaces(s);
    case CloseAllConns => CloseAllPlaces(s);
  }

  lemma {:induction false} KeepsOneOwner(s: State, step: Step)
    requires Inv(s) && Enabled(s, step)
    ensures OneOwner(Do(s, step))
  {
    if step.Put? {
      PutPlaces(s, step.c);
    } else {
      StepPlaces(s, step);
      ConnsStay(s, step);
      SameOwners(s, Do(s, step));
    }
  }

  lemma {:induction false} ConnsStay(s: State, step: Step)
    requires Enabled(s, step) && !step.Put?
    ensures Do(s, step).connOf == s.connOf
  {
  }

  lemma {:induction false} SameOwners(s: State, s': State)
    requires OneOwner(s) && Places(s') == Places(s) && s'.connOf == s.connOf
    ensures OneOwner(s')
  {
  }

  // ---- No watcher outlives the handover -----------------------------------

  lemma {:induction false} SpawnUnreported(s: State, c: Conn)
    requires Enabled(s, Put(c))
    ensures Unreported(Do(s, Put(c)).threads) ==
            Unreported(s.threads) + if s.pool.closed then multiset{} else multiset{|s.connOf|}
  {
    SumAppend(Waiting, s.threads, Do(s, Put(c)).threads[|s.threads|]);
  }

  lemma {:induction false} ProbeUnreported(s: State, i: nat, outcome: Probe)
    requires Enabled(s, ProbeReturns(i, outcome))
    ensures Unreported(s.threads) == Unreported(Do(s, ProbeReturns(i, outcome)).threads) + multiset{s.threads[i].e}
  {
    SumUpdate(Waiting, s.threads, i, Told(s.threads[i].e, outcome.DeadlineExceeded?));
  }

  lemma {:induction false} QuietUpdate(threads: seq<Thread>, i: nat, t: Thread)
    requires i < |threads| && Waiting(threads[i]) == Waiting(t)
    ensures Unreported(threads[i := t]) == Unreported(threads)
  {
    SumUpdate(Waiting, threads, i, t);
    Cancel(Unreported(threads[i := t]), Unreported(threads), Waiting(t));
  }

  lemma {:induction false} Cancel(a: multiset<Entry>, b: multiset<Entry>, c: multiset<Entry>)
    requires a + c == b + c
    ensures a == b
  {
    assert a == (a + c) - c && b == (b + c) - c;
  }

  lemma {:induction false} QuietSpawn(threads: seq<Thread>, t: Thread)
    requires Waiting(t) == multiset{}
    ensures Unreported(threads + [t]) == Unreported(threads)
  {
    SumAppend(Waiting, threads, t);
  }

  lemma {:induction false} StartWatchUnreported(s: State, i: nat)
    requires Enabled(s, StartWatch(i))
    ensures Unreported(Do(s, StartWatch(i)).threads) == Unreported(s.threads)
  {
    var t := s.threads[i];
    SumUpdate(Waiting, s.threads, i, Closing(t.evict));
    SumAppend(Waiting, s.threads[i := Closing(t.evict)], Watching(t.e));
  }

  lemma {:induction false} RemoveUnreported(s: State, i: nat)
    requires Enabled(s, WatcherRemoves(i))
    ensures Unreported(Do(s, WatcherRemoves(i)).threads) == Unreported(s.threads)
  {
    QuietUpdate(s.threads, i, Finished);
    QuietUpdate(s.threads, i, Closing([s.threads[i].e]));
  }

  lemma {:induction false} TakeUnreported(s: State)
    requires Enabled(s, Take)
    ensures Unreported(Do(s, Take).threads) == Unreported(s.threads)
  {
    QuietSpawn(s.threads, Reclaiming(s.pool.conns[|s.pool.conns| - 1]));
  }

  lemma {:induction false} CloseAllUnreported(s: State)
    requires Enabled(s, CloseAllConns)
    ensures Unreported(Do(s, CloseAllConns).threads) == Unreported(s.threads)
  {
    QuietSpawn(s.threads, Closing(s.pool.conns));
  }

  lemma {:induction false} ReclaimedUnreported(s: State, i: nat)
    requires Enabled(s, ReclaimSucceeds(i))
    ensures Unreported(Do(s, ReclaimSucceeds(i)).threads) == Unreported(s.threads)
  {
    QuietUpdate(s.threads, i, Finished);
  }

  lemma {:induction false} DroppedUnreported(s: State, i: nat)
    requires Enabled(s, ReclaimFails(i))
    ensures Unreported(Do(s, ReclaimFails(i)).threads) == Unreported(s.threads)
  {
    QuietUpdate(s.threads, i, Closing([s.threads[i].e]));
  }

  lemma {:induction false} CloseUnreported(s: State, i: nat)
    requires Enabled(s, CloseNext(i))
    ensures Unreported(Do(s, CloseNext(i)).threads) == Unreported(s.threads)
  {
    QuietUpdate(s.threads, i, Closing(s.threads[i].es[1..]));
  }

  lemma {:induction false} OtherUnreported(s: State, step: Step)
    requires Enabled(s, step) && !step.Put? && !step.ProbeReturns?
    ensures Unreported(Do(s, step).threads) == Unreported(s.threads)
  {
    match step
    case StartWatch(i) => StartWatchUnreported(s, i);
    case Take => TakeUnreported(s);
    case CloseAllConns => CloseAllUnreported(s);
    case ReopenPool =>
    case WatcherRemoves(i) => RemoveUnreported(s, i);
    case ReclaimSucceeds(i) => ReclaimedUnreported(s, i);
    case ReclaimFails(i) => DroppedUnreported(s, i);
    case CloseNext(i) => CloseUnreported(s, i);
  }

  lemma {:induction false} PutClean(s: State, c: Conn)
    requires Inv(s) && Enabled(s, Put(c))
    ensures CleanHandover(Do(s, Put(c)))
  {
    SpawnUnreported(s, c);
    NewEntryIsNew(s);
    forall e: Entry ensures CleanAt(Do(s, Put(c)), e) {
      assert CleanAt(s, e);
    }
  }

  lemma {:induction false} ProbeClean(s: State, i: nat, outcome: Probe)
    requires Inv(s) && Enabled(s, ProbeReturns(i, outcome))
    ensures CleanHandover(Do(s, ProbeReturns(i, outcome)))
  {
    ProbeUnreported(s, i, outcome);
    var before, after := Unreported(s.threads), Unreported(Do(s, ProbeReturns(i, outcome)).threads);
    forall e: Entry ensures CleanAt(Do(s, ProbeReturns(i, outcome)), e) {
      assert CleanAt(s, e);
      assert before[e] == (after + multiset{s.threads[i].e})[e];
    }
  }

  lemma {:induction false} ReclaimClean(s: State, i: nat)
    requires Inv(s) && Enabled(s, ReclaimSucceeds(i))
    ensures CleanHandover(Do(s, ReclaimSucceeds(i)))
  {
    ReclaimedUnreported(s, i);
    assert CleanAt(s, s.threads[i].e);
    forall e: Entry ensures CleanAt(Do(s, ReclaimSucceeds(i)), e) {
      assert CleanAt(s, e);
    }
  }

  lemma {:induction false} OtherClean(s: State, step: Step)
    requires Inv(s) && Enabled(s, step) && !step.Put? && !step.ProbeReturns? && !step.ReclaimSucceeds?
    ensures CleanHandover(Do(s, step))
  {
    OtherUnreported(s, step);
    forall e: Entry ensures CleanAt(Do(s, step), e) {
      assert CleanAt(s, e);
    }
  }

  lemma {:induction false} KeepsCleanHandover(s: State, step: Step)
    requires Inv(s) && Enabled(s, step)
    ensures CleanHandover(Do(s, step))
  {
    match step
    case Put(c) => PutClean(s, c);
    case ProbeReturns(i, outcome) => ProbeClean(s, i, outcome);
    case ReclaimSucceeds(i) => ReclaimClean(s, i);
    case _ => OtherClean(s, step);
  }

  lemma {:induction false} NewEntryIsNew(s: State)
    requires Inv(s)
    ensures |s.connOf| !in s.handed && |s.connOf| !in s.verdict && |s.connOf| !in s.consumed
    ensures Unreported(s.threads)[|s.connOf|] == 0
  {
    var e := |s.connOf|;
    assert CleanAt(s, e);
    assert Places(s)[e] == 0;
    assert e in multiset(s.handed) ==> Places(s)[e] > 0;
  }

  // ---- Every run ----------------------------------------------------------

  lemma {:induction false} KeepsOneEntryPerConn(s: State, step: Step)
    requires Inv(s) && Enabled(s, step)
    ensures OneEntryPerConn(Do(s, step))
  {
    assert forall e :: e in s.handed ==> e in Do(s, step).handed;
  }

  lemma {:induction false} KeepsSize(s: State, step: Step)
    requires Inv(s) && Enabled(s, step)
    ensures |Do(s, step).pool.conns| <= IDLE_MAX
  {
  }

  lemma {:induction false} StepKeepsInv(s: State, step: Step)
    requires Inv(s) && Enabled(s, step)
    ensures Inv(Do(s, step))
  {
    KeepsOneOwner(s, step);
    KeepsCleanHandover(s, step);
    KeepsOneEntryPerConn(s, step);
    KeepsSize(s, step);
  }

  ghost predicate Reaches(s: State, steps: seq<Step>, end: State)
    decreases |steps|
  {
    if steps == [] then s == end else Enabled(s, steps[0]) && Reaches(Do(s, steps[0]), steps[1..], end)
  }

  lemma {:induction false} RunKeepsInv(s: State, steps: seq<Step>, end: State)
    requires Inv(s) && Reaches(s, steps, end)
    ensures Inv(end)
    decreases |steps|
  {
    if steps == [] {
    } else {
      StepKeepsInv(s, steps[0]);
      RunKeepsInv(Do(s, steps[0]), steps[1..], end);
    }
  }

  /** In every interleaving: each entry has exactly one owner, a handed-out entry
      is never closed by the pool nor still watched and has lost no byte, and the
      pool holds at most eight. */
  lemma {:induction false} EveryRun(steps: seq<Step>, end: State, e: Entry)
    requires Reaches(START, steps, end) && e < |end.connOf|
    ensures multiset(end.pool.conns)[e] + Hands(end.threads)[e] + multiset(end.closes)[e] + multiset(end.handed)[e] == 1
    ensures e in end.handed ==> e !in end.closes && e !in end.consumed && e !in Unreported(end.threads)
    ensures |end.pool.conns| <= IDLE_MAX
  {
    RunKeepsInv(START, steps, end);
    assert CleanAt(end, e);
    assert Places(end)[e] == 1;
    assert e in end.handed ==> e in multiset(end.handed);
    assert e in end.closes ==> e in multiset(end.closes);
  }

  /** The pool closes only connections the client does not hold: when it closes an
      entry, that entry is the one entry of its connection not handed out. */
  lemma {:induction false} CloseIsSafe(steps: seq<Step>, s: State, i: nat)
    requires Reaches(START, steps, s) && Enabled(s, CloseNext(i))
    ensures var e := s.threads[i].es[0];
      && e < |s.connOf| && e !in s.handed && e !in s.closes
      && forall d :: 0 <= d < |s.connOf| && s.connOf[d] == s.connOf[e] && d != e ==> d < e && d in s.handed
  {
    RunKeepsInv(START, steps, s);
    var e := s.threads[i].es[0];
    SumMember(Own, s.threads, i);
    assert e in multiset(s.threads[i].es);
    assert Hands(s.threads)[e] >= 1;
    assert Places(s)[e] >= Hands(s.threads)[e] + multiset(s.closes)[e] + multiset(s.handed)[e];
    assert e in s.handed ==> multiset(s.handed)[e] >= 1;
    assert e in s.closes ==> multiset(s.closes)[e] >= 1;
  }

  /** When nothing is left to do, every entry ever put is parked, closed once, or
      handed out once: none is leaked. */
  lemma {:induction false} NothingLeaks(steps: seq<Step>, end: State, e: Entry)
    requires Reaches(START, steps, end) && e < |end.connOf|
    requires forall i :: 0 <= i < |end.threads| ==> Own(end.threads[i]) == multiset{}
    ensures multiset(end.pool.conns)[e] + multiset(end.closes)[e] + multiset(end.handed)[e] == 1
  {
    EveryRun(steps, end, e);
    IdleHands(end.threads);
  }

  /** An entry whose watcher has read a byte is never handed out, whatever follows. */
  lemma {:induction false} ReadByteNeverHanded(before: seq<Step>, s: State, i: nat, later: seq<Step>, end: State)
    requires Reaches(START, before, s) && Enabled(s, ProbeReturns(i, ReadByte))
    requires Reaches(Do(s, ProbeReturns(i, ReadByte)), later, end)
    ensures s.threads[i].e !in end.handed
  {
    var e, read := s.threads[i].e, Do(s, ProbeReturns(i, ReadByte));
    RunKeepsInv(START, before, s);
    StepKeepsInv(s, ProbeReturns(i, ReadByte));
    ConsumedStays(read, later, end, e);
    RunKeepsInv(read, later, end);
    assert CleanAt(end, e);
  }

  lemma {:induction false} ConsumedStays(s: State, steps: seq<Step>, end: State, e: Entry)
    requires e in s.consumed && Reaches(s, steps, end)
    ensures e in end.consumed
    decreases |steps|
  {
    if steps == [] {
    } else {
      ConsumedStays(Do(s, steps[0]), steps[1..], end, e);
    }
  }

  /** Once closed, the pool parks nothing until it is opened again: every step of
      every thread leaves it closed and empty. */
  lemma {:induction false} ClosedStaysEmpty(s: State, steps: seq<Step>, end: State)
    requires Enabled(s, CloseAllConns) && Reaches(Do(s, CloseAllConns), steps, end) && ReopenPool !in steps
    ensures end.pool == Pool([], true)
  {
    EmptyStays(Do(s, CloseAllConns), steps, end);
  }

  lemma {:induction false} EmptyStays(s: State, steps: seq<Step>, end: State)
    requires s.pool == Pool([], true) && Reaches(s, steps, end) && ReopenPool !in steps
    ensures end.pool == Pool([], true)
    decreases |steps|
  {
    if steps == [] {
    } else {
      EmptyStays(Do(s, steps[0]), steps[1..], end);
    }
  }

  /** Opened again, it takes connections as before. */
  lemma {:induction false} ReopenedTakes(s: State, c: Conn) returns (end: State)
    requires Enabled(s, ReopenPool) && Enabled(s, Put(c)) && |s.pool.conns| <= IDLE_MAX
    ensures Reaches(Do(s, ReopenPool), BackAgain(|s.threads|, c), end) && end.handed == s.handed + [|s.connOf|]
  {
    end := PutThenTake(Do(s, ReopenPool), c);
  }

  /** A put whose connection is taken back at once, with `n` threads before. */
  ghost function BackAgain(n: nat, c: Conn): seq<Step> {
    [Put(c), StartWatch(n)] + [Take, ProbeReturns(n + 1, DeadlineExceeded), ReclaimSucceeds(n + 2)]
  }

  /** Whatever else is going on, a connection put into an open pool can be had back
      at once: the next taker pops that one, the watcher reports that nothing came,
      and it is handed out.  The pool keeps what it held, but for the oldest entry if
      it was full. */
  lemma {:induction false} PutThenTake(s: State, c: Conn) returns (end: State)
    requires Enabled(s, Put(c)) && !s.pool.closed && |s.pool.conns| <= IDLE_MAX
    ensures Reaches(s, BackAgain(|s.threads|, c), end)
    ensures end.handed == s.handed + [|s.connOf|] && end.connOf == s.connOf + [c] && end.closes == s.closes
    ensures end.pool == Pool(if |s.pool.conns| < IDLE_MAX then s.pool.conns else s.pool.conns[1..], false)
  {
    var n, e := |s.threads|, |s.connOf|;
    var parked := PutAndWatch(s, c);
    end := TakeBack(parked, n + 1, e);
    var back := [Take, ProbeReturns(n + 1, DeadlineExceeded), ReclaimSucceeds(n + 2)];
    ReachesOn(s, [Put(c), StartWatch(n)], parked, back, end);
    PutOutcome(s.pool, e);
  }

  lemma {:induction false} ReachesOn(s: State, steps: seq<Step>, mid: State, more: seq<Step>, end: State)
    requires Reaches(s, steps, mid) && Reaches(mid, more, end)
    ensures Reaches(s, steps + more, end)
    decreases |steps|
  {
    if steps == [] {
      assert steps + more == more;
    } else {
      ReachesOn(Do(s, steps[0]), steps[1..], mid, more, end);
      assert (steps + more)[1..] == steps[1..] + more;
    }
  }

  lemma {:induction false} PutAndWatch(s: State, c: Conn) returns (end: State)
    requires Enabled(s, Put(c)) && !s.pool.closed
    ensures Reaches(s, [Put(c), StartWatch(|s.threads|)], end)
    ensures |end.threads| == |s.threads| + 2 && end.threads[|s.threads| + 1] == Watching(|s.connOf|)
    ensures end == s.(pool := PutLocked(s.pool, |s.connOf|).0, threads := end.threads, connOf := s.connOf + [c])
  {
    var s1 := Do(s, Put(c));
    end := Do(s1, StartWatch(|s.threads|));
    assert Reaches(end, [], end);
    assert Reaches(s1, [StartWatch(|s.threads|)], end);
    assert [Put(c), StartWatch(|s.threads|)][1..] == [StartWatch(|s.threads|)];
  }

  lemma {:induction false} TakeBack(s: State, watcher: nat, e: Entry) returns (end: State)
    requires |s.threads| == watcher + 1 && s.threads[watcher] == Watching(e)
    requires s.pool.conns != [] && s.pool.conns[|s.pool.conns| - 1] == e
    ensures Reaches(s, [Take, ProbeReturns(watcher, DeadlineExceeded), ReclaimSucceeds(watcher + 1)], end)
    ensures end.handed == s.handed + [e] && end.connOf == s.connOf && end.closes == s.closes
    ensures end.pool == s.pool.(conns := s.pool.conns[..|s.pool.conns| - 1])
  {
    var s1 := Do(s, Take);
    var s2 := Do(s1, ProbeReturns(watcher, DeadlineExceeded));
    end := Do(s2, ReclaimSucceeds(watcher + 1));
    assert Reaches(end, [], end);
    assert Reaches(s2, [ReclaimSucceeds(watcher + 1)], end);
    var later := [ProbeReturns(watcher, DeadlineExceeded), ReclaimSucceeds(watcher + 1)];
    assert later[1..] == [ReclaimSucceeds(watcher + 1)];
    assert Reaches(s1, later, end);
    assert ([Take] + later)[1..] == later;
  }

  lemma {:induction false} IdleHands(threads: seq<Thread>)
    requires forall i :: 0 <= i < |threads| ==> Own(threads[i]) == multiset{}
    ensures Hands(threads) == multiset{}
  {
    if threads == [] {
    } else {
      IdleHands(threads[1..]);
    }
  }
}
