/** One-time use of authentication tokens: the window check of `pathgen.go` and the
    set of seen tokens of `tokenset.go`, in `core/protocol`. */
module TokenReplay {
  import opened Wrappers

  const WINDOW: int := 30
  const TOLERANCE: int := 1
  const RETENTION: int := (2 * TOLERANCE + 1) * WINDOW
  const SHARDS: nat := 16
  const CLEANUP_THRESHOLD: nat := 1000 / SHARDS

  // ---- The window check ---------------------------------------------------

  /** `VerifyAuthTokenRaw` for a token made for window `w`, at clock `now`. */
  predicate InWindow(w: int, now: nat) {
    now / WINDOW - TOLERANCE <= w <= now / WINDOW + TOLERANCE
  }

  /** The loop over candidate windows; `macMatches` holds for the token's own window. */
  method Verify(w: int, now: nat) returns (ok: bool)
    ensures ok == InWindow(w, now)
  {
    var candidate := now / WINDOW - TOLERANCE;
    while candidate <= now / WINDOW + TOLERANCE
      invariant now / WINDOW - TOLERANCE <= candidate <= now / WINDOW + TOLERANCE + 1
      invariant !(now / WINDOW - TOLERANCE <= w < candidate)
      decreases now / WINDOW + TOLERANCE - candidate
    {
      if candidate == w {
        return true;
      }
      candidate := candidate + 1;
    }
    return false;
  }

  /** A token passes from the first second of the window before its own to the last
      second of the window after it, and at no other moment. */
  lemma {:induction false} AcceptedFromTo(w: int, now: nat)
    ensures InWindow(w, now) <==> 30 * (w - 1) <= now <= 30 * (w + 2) - 1
  {
    assert now == 30 * (now / 30) + now % 30;
  }

  /** Two moments at which one token passes the check lie less than the retention
      apart, by exactly one second. */
  lemma {:induction false} SpanBelowRetention(w: int, t: nat, now: nat)
    requires InWindow(w, t) && InWindow(w, now)
    ensures now - t <= RETENTION - 1
  {
  }

  // ---- The seen set -------------------------------------------------------

  type Seen = seq<map<string, int>>

  /** Every shard present, and the shard of a token given by its hash. */
  ghost predicate ValidSeen(shardOf: string -> nat, seen: Seen) {
    |seen| == SHARDS && forall t :: shardOf(t) < SHARDS
  }

  function Fresh(m: map<string, int>, now: int): map<string, int> {
    map k | k in m && now - m[k] < RETENTION :: m[k]
  }

  function ConsumeShard(m: map<string, int>, token: string, now: int): (map<string, int>, bool) {
    if token in m && now - m[token] < RETENTION then (m, false)
    else
      var grown := m[token := now];
      (if |grown| > CLEANUP_THRESHOLD then Fresh(grown, now) else grown, true)
  }

  /** What consuming leaves in a shard: nothing changes on a refusal; an accepted
      token is in with its time, and the others stay as they were, without the old
      ones once the shard has outgrown the threshold. */
  lemma {:induction false} ConsumeLeaves(m: map<string, int>, token: string, now: int)
    ensures var (r, ok) := ConsumeShard(m, token, now);
      && (ok <==> (token in m ==> now - m[token] >= RETENTION))
      && (!ok ==> r == m)
      && (ok ==> token in r && r[token] == now)
      && (ok ==> forall t :: t != token && t in r ==> t in m && r[t] == m[t])
      && (ok ==> forall t :: t != token && t in m ==>
            (t !in r <==> |m.Keys + {token}| > CLEANUP_THRESHOLD && now - m[t] >= RETENTION))
  {
    assert m[token := now].Keys == m.Keys + {token};
  }

  function Consume(shardOf: string -> nat, seen: Seen, token: string, now: int): (Seen, bool)
    requires ValidSeen(shardOf, seen)
  {
    var (m, ok) := ConsumeShard(seen[shardOf(token)], token, now);
    (seen[shardOf(token) := m], ok)
  }

  function Sweep(seen: Seen, now: int): (r: Seen)
    ensures |r| == |seen|
  {
    seq(|seen|, i requires 0 <= i < |seen| => Fresh(seen[i], now))
  }

  // ---- Runs ---------------------------------------------------------------

  /** A token is presented: checked at one clock reading, consumed at a later or
      equal one.  Sweeps happen at any time. */
  datatype Event = Present(token: string, verifiedAt: nat, consumedAt: nat) | SweepAll(at: nat)

  function Time(e: Event): nat {
    if e.Present? then e.consumedAt else e.at
  }

  /** `macOf` decodes a token string, and `windowOf` gives the window a MAC was made
      for, if any.  The set of seen tokens holds strings, so two strings that decode
      alike are two tokens to it. */
  datatype World = World(shardOf: string -> nat, macOf: string -> nat, windowOf: nat -> Option<int>)

  ghost predicate ValidWorld(w: World) {
    forall t :: w.shardOf(t) < SHARDS
  }

  /** The event presents a token that passes the window check. */
  predicate Passes(w: World, e: Event) {
    e.Present? && var window := w.windowOf(w.macOf(e.token)); window.Some? && InWindow(window.value, e.verifiedAt)
  }

  function Step(w: World, seen: Seen, e: Event): (r: Seen)
    requires ValidSeen(w.shardOf, seen)
    ensures |r| == |seen|
  {
    match e
    case SweepAll(at) => Sweep(seen, at)
    case Present(token, _, c) => if Passes(w, e) then Consume(w.shardOf, seen, token, c).0 else seen
  }

  /** The events, whether each was accepted, and the set before the first and after
      each of them. */
  datatype Run = Run(events: seq<Event>, accepted: seq<bool>, states: seq<Seen>)

  ghost predicate ValidRun(w: World, r: Run) {
    && ValidWorld(w) && |r.accepted| == |r.events| && |r.states| == |r.events| + 1 && r.states[0] == Start()
    && (forall i :: 0 <= i < |r.states| ==> |r.states[i]| == SHARDS)
    && (forall i :: 0 <= i < |r.accepted| && r.accepted[i] ==> Passes(w, r.events[i]))
    && (forall i {:trigger StepOk(w, r, i)} :: 0 <= i < |r.events| ==> StepOk(w, r, i))
  }

  /** Event `i` is accepted if it passes the check and was not known yet, and the set
      after it is what the step makes of the set before. */
  ghost predicate StepOk(w: World, r: Run, i: nat)
    requires i < |r.events| == |r.accepted| && i + 1 < |r.states| && ValidSeen(w.shardOf, r.states[i])
  {
    && r.states[i + 1] == Step(w, r.states[i], r.events[i])
    && r.accepted[i] == Accepts(w, r.states[i], r.events[i])
  }

  predicate Accepts(w: World, seen: Seen, e: Event)
    requires ValidSeen(w.shardOf, seen)
  {
    Passes(w, e) && Consume(w.shardOf, seen, e.token, e.consumedAt).1
  }

  function Start(): Seen {
    seq(SHARDS, _ => map[])
  }

  /** Every sequence of events has its run. */
  lemma {:induction false} Execute(w: World, events: seq<Event>) returns (r: Run)
    requires ValidWorld(w)
    ensures ValidRun(w, r) && r.events == events
  {
    if events == [] {
      r := Run([], [], [Start()]);
    } else {
      var n := |events| - 1;
      var init := Execute(w, events[..n]);
      var seen := init.states[n];
      r := Run(events, init.accepted + [Accepts(w, seen, events[n])], init.states + [Step(w, seen, events[n])]);
      forall i | 0 <= i < |events| ensures StepOk(w, r, i) {
        if i < n { assert StepOk(w, init, i) && init.events[i] == events[i]; }
      }
    }
  }

  /** The clock never runs backwards. */
  ghost predicate InOrder(events: seq<Event>) {
    forall i, j :: 0 <= i < j < |events| ==> Time(events[i]) <= Time(events[j])
  }

  /** The same token string was accepted twice among the first `n` events. */
  ghost predicate TwiceBy(w: World, r: Run, n: nat)
    requires ValidRun(w, r) && n <= |r.events|
  {
    exists i, j :: 0 <= i < j < n && AcceptedPair(w, r, i, j)
  }

  ghost predicate AcceptedPair(w: World, r: Run, i: nat, j: nat)
    requires ValidRun(w, r) && i < j < |r.events|
  {
    r.accepted[i] && r.accepted[j] && r.events[i].token == r.events[j].token
  }

  ghost predicate Twice(w: World, r: Run)
    requires ValidRun(w, r)
  {
    TwiceBy(w, r, |r.events|)
  }

  /** Two presentations of one token string pass the check, and are consumed a whole
      retention apart. */
  ghost predicate Late(w: World, events: seq<Event>) {
    exists i, j :: 0 <= i < j < |events| && LatePair(w, events, i, j)
  }

  predicate LatePair(w: World, events: seq<Event>, i: nat, j: nat)
    requires i < j < |events|
  {
    && Passes(w, events[i]) && Passes(w, events[j]) && events[i].token == events[j].token
    && events[j].consumedAt - events[i].consumedAt >= RETENTION
  }

  // ---- What the set remembers ---------------------------------------------

  /** A token accepted at `times[t]` stays in its shard for the whole retention, and
      nothing else is in a shard. */
  ghost predicate Holds(w: World, seen: Seen, times: map<string, int>, clock: int)
    requires ValidSeen(w.shardOf, seen)
  {
    && (forall t :: t in times && clock - times[t] < RETENTION ==> Known(w, seen, t))
    && (forall t :: Known(w, seen, t) ==> t in times && seen[w.shardOf(t)][t] == times[t])
  }

  predicate Known(w: World, seen: Seen, t: string)
    requires ValidSeen(w.shardOf, seen)
  {
    t in seen[w.shardOf(t)]
  }

  lemma {:induction false} SweepHolds(w: World, seen: Seen, times: map<string, int>, clock: int, now: int)
    requires ValidSeen(w.shardOf, seen) && Holds(w, seen, times, clock) && clock <= now
    ensures Holds(w, Sweep(seen, now), times, now)
  {
    var swept := Sweep(seen, now);
    forall t ensures Known(w, swept, t) <==> Known(w, seen, t) && now - seen[w.shardOf(t)][t] < RETENTION {
      assert swept[w.shardOf(t)] == Fresh(seen[w.shardOf(t)], now);
    }
  }

  lemma {:induction false} AcceptHolds(w: World, seen: Seen, times: map<string, int>, clock: int, token: string, now: int)
    requires ValidSeen(w.shardOf, seen) && Holds(w, seen, times, clock) && clock <= now
    requires Consume(w.shardOf, seen, token, now).1
    ensures Holds(w, Consume(w.shardOf, seen, token, now).0, times[token := now], now)
    ensures token in times ==> now - times[token] >= RETENTION
  {
    var shard := w.shardOf(token);
    var seen' := Consume(w.shardOf, seen, token, now).0;
    ConsumeShardIs(seen[shard], token, now);
    forall t | t in times && t != token && now - times[t] < RETENTION ensures Known(w, seen', t) {
      assert Known(w, seen, t);
    }
    forall t | Known(w, seen', t) && t != token
      ensures t in times && seen'[w.shardOf(t)][t] == times[t]
    {
      assert Known(w, seen, t);
    }
    assert Known(w, seen, token) ==> seen[shard][token] == times[token];
  }

  lemma {:induction false} RefuseHolds(w: World, seen: Seen, times: map<string, int>, clock: int, token: string, now: int)
    requires ValidSeen(w.shardOf, seen) && Holds(w, seen, times, clock) && clock <= now
    requires !Consume(w.shardOf, seen, token, now).1
    ensures Consume(w.shardOf, seen, token, now).0 == seen
    ensures token in times && now - times[token] < RETENTION
  {
    assert Known(w, seen, token);
  }

  /** What an accepting shard holds afterwards. */
  lemma {:induction false} ConsumeShardIs(m: map<string, int>, token: string, now: int)
    requires ConsumeShard(m, token, now).1
    ensures var m' := ConsumeShard(m, token, now).0;
      && token in m' && m'[token] == now
      && (forall t :: t in m' && t != token ==> t in m && m'[t] == m[t])
      && (forall t :: t in m && t != token && now - m[t] < RETENTION ==> t in m')
  {
    var grown := m[token := now];
    assert token in grown && grown[token] == now;
  }

  // ---- The history of a run -----------------------------------------------

  /** The last acceptance of every token accepted so far: which event, and when. */
  datatype Last = Last(event: nat, time: int)

  function TimesOf(last: map<string, Last>): map<string, int> {
    map t | t in last :: last[t].time
  }

  ghost predicate LastAccepted(w: World, r: Run, last: map<string, Last>, n: nat)
    requires ValidRun(w, r) && n <= |r.events|
  {
    forall t :: t in last ==> IsLast(w, r, t, last[t], n)
  }

  ghost predicate IsLast(w: World, r: Run, t: string, l: Last, n: nat)
    requires ValidRun(w, r) && n <= |r.events|
  {
    l.event < n && r.accepted[l.event] && r.events[l.event].token == t && l.time == Time(r.events[l.event])
  }

  /** Every presentation that passed lies within the retention behind the last
      acceptance of its token; not before it, unless the token was accepted twice. */
  ghost predicate Explains(w: World, r: Run, last: map<string, Last>, n: nat)
    requires ValidRun(w, r) && n <= |r.events|
  {
    forall i :: 0 <= i < n && Passes(w, r.events[i]) ==> Explained(w, r, last, n, i)
  }

  ghost predicate Explained(w: World, r: Run, last: map<string, Last>, n: nat, i: nat)
    requires ValidRun(w, r) && i < n <= |r.events| && r.events[i].Present?
  {
    var t := r.events[i].token;
    t in last && Time(r.events[i]) - last[t].time < RETENTION && (last[t].event <= i || TwiceBy(w, r, n))
  }

  function Clock(events: seq<Event>, n: nat): nat
    requires n <= |events|
  {
    if n == 0 then 0 else Time(events[n - 1])
  }

  ghost predicate Tracks(w: World, r: Run, last: map<string, Last>, n: nat)
    requires ValidRun(w, r) && n <= |r.events|
  {
    && LastAccepted(w, r, last, n) && Explains(w, r, last, n)
    && Holds(w, r.states[n], TimesOf(last), Clock(r.events, n))
    && (TwiceBy(w, r, n) ==> Late(w, r.events))
  }

  lemma {:induction false} MoreTwice(w: World, r: Run, n: nat)
    requires ValidRun(w, r) && n < |r.events|
    ensures TwiceBy(w, r, n) ==> TwiceBy(w, r, n + 1)
    ensures !r.accepted[n] && TwiceBy(w, r, n + 1) ==> TwiceBy(w, r, n)
  {
    if TwiceBy(w, r, n) {
      var i, j :| 0 <= i < j < n && AcceptedPair(w, r, i, j);
      assert AcceptedPair(w, r, i, j);
    }
    if !r.accepted[n] && TwiceBy(w, r, n + 1) {
      var i, j :| 0 <= i < j < n + 1 && AcceptedPair(w, r, i, j);
      assert j < n && AcceptedPair(w, r, i, j);
    }
  }

  /** An event that accepts nothing. */
  lemma {:induction false} QuietStep(w: World, r: Run, last: map<string, Last>, n: nat)
    requires ValidRun(w, r) && InOrder(r.events) && n < |r.events| && Tracks(w, r, last, n) && !r.accepted[n]
    ensures Tracks(w, r, last, n + 1)
  {
    var e := r.events[n];
    assert StepOk(w, r, n);
    MoreTwice(w, r, n);
    forall t | t in last ensures IsLast(w, r, t, last[t], n + 1) {
      assert IsLast(w, r, t, last[t], n);
    }
    forall i | 0 <= i < n + 1 && Passes(w, r.events[i]) ensures Explained(w, r, last, n + 1, i) {
      if i < n {
        assert Explained(w, r, last, n, i);
      } else {
        RefuseHolds(w, r.states[n], TimesOf(last), Clock(r.events, n), e.token, e.consumedAt);
        assert IsLast(w, r, e.token, last[e.token], n);
      }
    }
    QuietHolds(w, r, last, n);
  }

  lemma {:induction false} QuietHolds(w: World, r: Run, last: map<string, Last>, n: nat)
    requires ValidRun(w, r) && InOrder(r.events) && n < |r.events| && !r.accepted[n]
    requires Holds(w, r.states[n], TimesOf(last), Clock(r.events, n))
    ensures Holds(w, r.states[n + 1], TimesOf(last), Clock(r.events, n + 1))
  {
    var e := r.events[n];
    assert StepOk(w, r, n);
    assert Clock(r.events, n) <= Time(e);
    match e
    case SweepAll(at) => SweepHolds(w, r.states[n], TimesOf(last), Clock(r.events, n), at);
    case Present(token, _, c) =>
      if Passes(w, e) {
        RefuseHolds(w, r.states[n], TimesOf(last), Clock(r.events, n), token, c);
      }
  }

  /** An accepted token becomes the last of its string. */
  lemma {:induction false} AcceptStep(w: World, r: Run, last: map<string, Last>, n: nat)
    requires ValidRun(w, r) && InOrder(r.events) && n < |r.events| && Tracks(w, r, last, n) && r.accepted[n]
    ensures Tracks(w, r, last[r.events[n].token := Last(n, Time(r.events[n]))], n + 1)
  {
    var e := r.events[n];
    var next := last[e.token := Last(n, e.consumedAt)];
    AcceptedHolds(w, r, last, n);
    MoreTwice(w, r, n);
    forall t | t in next ensures IsLast(w, r, t, next[t], n + 1) {
      assert t != e.token ==> IsLast(w, r, t, last[t], n);
    }
    if e.token in last {
      AcceptedAgain(w, r, last, n);
    } else {
      FirstAcceptance(w, r, last, n);
    }
    AcceptExplains(w, r, last, n);
  }

  lemma {:induction false} AcceptedHolds(w: World, r: Run, last: map<string, Last>, n: nat)
    requires ValidRun(w, r) && InOrder(r.events) && n < |r.events| && r.accepted[n]
    requires Holds(w, r.states[n], TimesOf(last), Clock(r.events, n))
    ensures var e := r.events[n];
      && Holds(w, r.states[n + 1], TimesOf(last[e.token := Last(n, Time(e))]), Clock(r.events, n + 1))
      && (e.token in last ==> e.consumedAt - last[e.token].time >= RETENTION)
  {
    var e := r.events[n];
    assert StepOk(w, r, n);
    assert Clock(r.events, n) <= Time(e);
    AcceptHolds(w, r.states[n], TimesOf(last), Clock(r.events, n), e.token, e.consumedAt);
    assert TimesOf(last[e.token := Last(n, Time(e))]) == TimesOf(last)[e.token := e.consumedAt];
  }

  /** A second acceptance comes at least a retention after the one before it. */
  lemma {:induction false} AcceptedAgain(w: World, r: Run, last: map<string, Last>, n: nat)
    requires ValidRun(w, r) && n < |r.events| && LastAccepted(w, r, last, n) && r.accepted[n]
    requires r.events[n].token in last && r.events[n].consumedAt - last[r.events[n].token].time >= RETENTION
    ensures TwiceBy(w, r, n + 1) && Late(w, r.events)
  {
    var k := last[r.events[n].token].event;
    assert IsLast(w, r, r.events[n].token, last[r.events[n].token], n);
    assert AcceptedPair(w, r, k, n) && LatePair(w, r.events, k, n);
  }

  /** Accepting a new string does not make a pair. */
  lemma {:induction false} FirstAcceptance(w: World, r: Run, last: map<string, Last>, n: nat)
    requires ValidRun(w, r) && n < |r.events| && Explains(w, r, last, n) && r.accepted[n]
    requires r.events[n].token !in last
    ensures TwiceBy(w, r, n + 1) ==> TwiceBy(w, r, n)
  {
    if TwiceBy(w, r, n + 1) {
      var i, j :| 0 <= i < j < n + 1 && AcceptedPair(w, r, i, j);
      assert Explained(w, r, last, n, i);
      assert j < n && AcceptedPair(w, r, i, j);
    }
  }

  lemma {:induction false} AcceptExplains(w: World, r: Run, last: map<string, Last>, n: nat)
    requires ValidRun(w, r) && InOrder(r.events) && n < |r.events| && Explains(w, r, last, n) && r.accepted[n]
    requires TwiceBy(w, r, n) || r.events[n].token in last ==> TwiceBy(w, r, n + 1)
    ensures Explains(w, r, last[r.events[n].token := Last(n, Time(r.events[n]))], n + 1)
  {
    var e := r.events[n];
    var next := last[e.token := Last(n, Time(e))];
    forall i | 0 <= i < n + 1 && Passes(w, r.events[i]) ensures Explained(w, r, next, n + 1, i) {
      if i < n {
        assert Explained(w, r, last, n, i);
        assert Time(r.events[i]) <= Time(e);
      }
    }
  }

  lemma {:induction false} Tracking(w: World, r: Run, n: nat) returns (last: map<string, Last>)
    requires ValidRun(w, r) && InOrder(r.events) && n <= |r.events|
    ensures Tracks(w, r, last, n)
  {
    last := map[];
    TracksStart(w, r);
    for k := 0 to n
      invariant Tracks(w, r, last, k)
    {
      last := TrackStep(w, r, last, k);
    }
  }

  lemma {:induction false} TracksStart(w: World, r: Run)
    requires ValidRun(w, r)
    ensures Tracks(w, r, map[], 0)
  {
    assert forall t :: !Known(w, r.states[0], t);
  }

  lemma {:induction false} TrackStep(w: World, r: Run, last: map<string, Last>, n: nat) returns (next: map<string, Last>)
    requires ValidRun(w, r) && InOrder(r.events) && n < |r.events| && Tracks(w, r, last, n)
    ensures Tracks(w, r, next, n + 1)
  {
    if r.accepted[n] {
      next := last[r.events[n].token := Last(n, Time(r.events[n]))];
      AcceptStep(w, r, last, n);
    } else {
      next := last;
      QuietStep(w, r, last, n);
    }
  }

  // ---- Replays ------------------------------------------------------------

  /** In every run, a token string is accepted twice precisely when two of its
      presentations that pass the check are consumed at least a retention apart,
      whatever sweeps and clean-ups happen in between. */
  lemma {:induction false} TwiceIffLate(w: World, r: Run)
    requires ValidRun(w, r) && InOrder(r.events)
    ensures Twice(w, r) <==> Late(w, r.events)
  {
    var n := |r.events|;
    var last := Tracking(w, r, n);
    if Late(w, r.events) {
      var i, j :| 0 <= i < j < n && LatePair(w, r.events, i, j);
      LateMeansTwice(w, r, last, i, j);
    }
  }

  lemma {:induction false} LateMeansTwice(w: World, r: Run, last: map<string, Last>, i: nat, j: nat)
    requires ValidRun(w, r) && InOrder(r.events) && i < j < |r.events| && LatePair(w, r.events, i, j)
    requires LastAccepted(w, r, last, |r.events|) && Explains(w, r, last, |r.events|)
    ensures Twice(w, r)
  {
    var l := last[r.events[i].token];
    assert Explained(w, r, last, |r.events|, i) && Explained(w, r, last, |r.events|, j);
    assert IsLast(w, r, r.events[i].token, l, |r.events|);
    OrderAt(r.events, l.event, i);
  }

  lemma {:induction false} OrderAt(events: seq<Event>, i: nat, j: nat)
    requires InOrder(events) && i < |events| && j < |events|
    ensures i <= j ==> Time(events[i]) <= Time(events[j])
  {
  }

  /** At most `lag` seconds pass between the check and the consumption of a token. */
  ghost predicate Timely(events: seq<Event>, lag: nat) {
    InOrder(events) &&
    forall i :: 0 <= i < |events| && events[i].Present? ==>
      events[i].verifiedAt <= events[i].consumedAt <= events[i].verifiedAt + lag
  }

  /** With check and consumption at one clock reading, no token string is ever
      accepted twice. */
  lemma {:induction false} NeverTwice(w: World, r: Run)
    requires ValidRun(w, r) && Timely(r.events, 0)
    ensures !Twice(w, r)
  {
    TwiceIffLate(w, r);
    var events := r.events;
    forall i, j | 0 <= i < j < |events| ensures !LatePair(w, events, i, j) {
      if Passes(w, events[i]) && Passes(w, events[j]) && events[i].token == events[j].token {
        SpanBelowRetention(w.windowOf(w.macOf(events[i].token)).value, events[i].consumedAt, events[j].consumedAt);
      }
    }
  }

  /** One second between check and consumption is enough for a replay, for the token
      of any window: first use at the start of its span, the second checked in its
      last second and consumed in the next. */
  function ReplayOf(token: string, k: nat): seq<Event>
    requires k >= 1
  {
    var first, last := 30 * (k - 1), 30 * (k + 2) - 1;
    [Present(token, first, first), Present(token, last, last + 1)]
  }

  lemma {:induction false} LateConsumptionReplays(w: World, r: Run, token: string, k: nat)
    requires k >= 1 && ValidRun(w, r) && r.events == ReplayOf(token, k) && w.windowOf(w.macOf(token)) == Some(k)
    ensures Timely(r.events, 1) && Twice(w, r)
  {
    assert InWindow(k, 30 * (k - 1)) && InWindow(k, 30 * (k + 2) - 1);
    assert LatePair(w, r.events, 0, 1);
    TwiceIffLate(w, r);
  }

  /** So the retention is exact: replays are ruled out over all runs precisely when
      nothing passes between check and consumption. */
  lemma {:induction false} RetentionIsExact(w: World, token: string, k: nat, lag: nat)
    requires ValidWorld(w) && k >= 1 && w.windowOf(w.macOf(token)) == Some(k)
    ensures (forall r :: ValidRun(w, r) && Timely(r.events, lag) ==> !Twice(w, r)) <==> lag == 0
  {
    if lag == 0 {
      forall r | ValidRun(w, r) && Timely(r.events, lag) ensures !Twice(w, r) {
        NeverTwice(w, r);
      }
    } else {
      var r := Execute(w, ReplayOf(token, k));
      LateConsumptionReplays(w, r, token, k);
      assert Timely(r.events, lag);
    }
  }

  // ---- The same MAC in two strings ----------------------------------------

  predicate SameMac(w: World, e: Event, f: Event) {
    e.Present? && f.Present? && w.macOf(e.token) == w.macOf(f.token)
  }

  /** The same MAC was accepted twice. */
  ghost predicate MacTwice(w: World, r: Run)
    requires ValidRun(w, r)
  {
    exists i, j :: 0 <= i < j < |r.events| && MacPair(w, r, i, j)
  }

  ghost predicate MacPair(w: World, r: Run, i: nat, j: nat)
    requires ValidRun(w, r) && i < j < |r.events|
  {
    r.accepted[i] && r.accepted[j] && SameMac(w, r.events[i], r.events[j])
  }

  /** Two different strings with one MAC were presented and passed. */
  ghost predicate Aliased(w: World, events: seq<Event>) {
    exists i, j :: 0 <= i < j < |events| && AliasPair(w, events, i, j)
  }

  predicate AliasPair(w: World, events: seq<Event>, i: nat, j: nat)
    requires i < j < |events|
  {
    Passes(w, events[i]) && Passes(w, events[j]) && SameMac(w, events[i], events[j]) && events[i].token != events[j].token
  }

  /** A MAC is accepted twice precisely when one of its strings comes late, or when
      two of its strings are presented and pass. */
  lemma {:induction false} MacTwiceIff(w: World, r: Run)
    requires ValidRun(w, r) && InOrder(r.events)
    ensures MacTwice(w, r) <==> Late(w, r.events) || Aliased(w, r.events)
  {
    TwiceIffLate(w, r);
    if MacTwice(w, r) {
      var i, j :| 0 <= i < j < |r.events| && MacPair(w, r, i, j);
      assert AcceptedPair(w, r, i, j) || AliasPair(w, r.events, i, j);
    }
    if Twice(w, r) {
      var i, j :| 0 <= i < j < |r.events| && AcceptedPair(w, r, i, j);
      assert MacPair(w, r, i, j);
    }
    if Aliased(w, r.events) {
      AliasReplays(w, r);
    }
  }

  lemma {:induction false} AliasReplays(w: World, r: Run)
    requires ValidRun(w, r) && InOrder(r.events) && Aliased(w, r.events)
    ensures MacTwice(w, r)
  {
    var n := |r.events|;
    var last := Tracking(w, r, n);
    var i, j :| 0 <= i < j < n && AliasPair(w, r.events, i, j);
    BothAccepted(w, r, last, i, j);
  }

  lemma {:induction false} BothAccepted(w: World, r: Run, last: map<string, Last>, i: nat, j: nat)
    requires ValidRun(w, r) && i < j < |r.events| && AliasPair(w, r.events, i, j)
    requires LastAccepted(w, r, last, |r.events|) && Explains(w, r, last, |r.events|)
    ensures MacTwice(w, r)
  {
    var a := SomeAcceptance(w, r, last, i);
    var b := SomeAcceptance(w, r, last, j);
    if a < b {
      assert MacPair(w, r, a, b);
    } else {
      assert MacPair(w, r, b, a);
    }
  }

  /** A presentation that passes has an acceptance of its string. */
  lemma {:induction false} SomeAcceptance(w: World, r: Run, last: map<string, Last>, i: nat) returns (a: nat)
    requires ValidRun(w, r) && i < |r.events| && Passes(w, r.events[i])
    requires LastAccepted(w, r, last, |r.events|) && Explains(w, r, last, |r.events|)
    ensures a < |r.events| && r.accepted[a] && r.events[a].token == r.events[i].token
  {
    var t := r.events[i].token;
    assert Explained(w, r, last, |r.events|, i);
    assert IsLast(w, r, t, last[t], |r.events|);
    a := last[t].event;
  }

  /** With check and consumption at one clock reading: no MAC is accepted twice if
      and only if no two strings that pass decode alike. */
  lemma {:induction false} MacNeverTwiceIff(w: World, r: Run)
    requires ValidRun(w, r) && Timely(r.events, 0)
    ensures MacTwice(w, r) <==> Aliased(w, r.events)
  {
    NeverTwice(w, r);
    TwiceIffLate(w, r);
    MacTwiceIff(w, r);
  }

  // ---- The set object -----------------------------------------------------

  method CleanShard(m: map<string, int>, now: int) returns (left: map<string, int>)
    ensures left == Fresh(m, now)
  {
    left := m;
    var rest := m.Keys;
    while rest != {}
      invariant rest <= left.Keys <= m.Keys
      invariant forall k :: k in left ==> left[k] == m[k]
      invariant forall k :: k in m && k !in rest ==> (k in left <==> now - m[k] < RETENTION)
    {
      var k :| k in rest;
      if now - left[k] >= RETENTION {
        left := left - {k};
      }
      rest := rest - {k};
    }
  }

  class TokenSeenSet {
    const shardOf: string -> nat
    var seen: Seen

    ghost predicate Valid()
      reads this
    {
      ValidSeen(shardOf, seen)
    }

    constructor (shardOf: string -> nat)
      requires forall t :: shardOf(t) < SHARDS
      ensures Valid() && seen == seq(SHARDS, _ => map[]) && this.shardOf == shardOf
    {
      this.shardOf := shardOf;
      seen := seq(SHARDS, _ => map[]);
    }

    method ConsumeToken(token: string, now: int) returns (ok: bool)
      requires Valid()
      modifies this
      ensures Valid() && (seen, ok) == Consume(shardOf, old(seen), token, now)
    {
      var i := shardOf(token);
      var m := seen[i];
      if token in m && now - m[token] < RETENTION {
        assert seen == seen[i := m];
        return false;
      }
      m := m[token := now];
      if |m| > CLEANUP_THRESHOLD {
        m := CleanShard(m, now);
      }
      seen := seen[i := m];
      return true;
    }

    method SweepShards(now: int)
      requires Valid()
      modifies this
      ensures Valid() && seen == Sweep(old(seen), now)
    {
      var swept: Seen := [];
      for i := 0 to SHARDS
        invariant seen == old(seen) && |swept| == i
        invariant forall j :: 0 <= j < i ==> swept[j] == Fresh(seen[j], now)
      {
        var m := CleanShard(seen[i], now);
        swept := swept + [m];
      }
      seen := swept;
    }
  }
}
