/** The per-client, per-path token buckets of `apiRateMiddleware` in
    `core/apiserver`, with time in seconds and exact arithmetic. */
module RateBucket {
  const CAPACITY: real := 60.0
  const RATE: real := 30.0
  const CLEAN_EVERY: real := 300.0
  const IDLE_LIMIT: real := 600.0

  datatype Bucket = Bucket(tokens: real, lastTime: real)
  type Buckets = map<string, Bucket>
  datatype State = State(buckets: Buckets, cleanedAt: real)
  datatype Request = Request(key: string, now: real)

  // ---- The middleware -----------------------------------------------------

  function Survivors(b: Buckets, now: real): Buckets {
    map k | k in b && b[k].lastTime >= now - IDLE_LIMIT :: b[k]
  }

  function Clean(s: State, now: real): State {
    if now - s.cleanedAt > CLEAN_EVERY then State(Survivors(s.buckets, now), now) else s
  }

  function Refilled(b: Bucket, now: real): real {
    var t := b.tokens + (now - b.lastTime) * RATE;
    if t > CAPACITY then CAPACITY else t
  }

  /** The tokens a key could draw on at this moment. */
  function Available(b: Buckets, key: string, now: real): real {
    if key in b then Refilled(b[key], now) else CAPACITY
  }

  function Draw(b: Buckets, r: Request): (Buckets, bool) {
    var t := Available(b, r.key, r.now);
    if t >= 1.0 then (b[r.key := Bucket(t - 1.0, r.now)], true) else (b[r.key := Bucket(t, r.now)], false)
  }

  function Handle(s: State, r: Request): (State, bool) {
    var s1 := Clean(s, r.now);
    var (b, ok) := Draw(s1.buckets, r);
    (State(b, s1.cleanedAt), ok)
  }

  // ---- Runs ---------------------------------------------------------------

  ghost predicate Ordered(rs: seq<Request>, from: real) {
    && (rs != [] ==> from <= rs[0].now)
    && (forall i, j :: 0 <= i < j < |rs| ==> rs[i].now <= rs[j].now)
  }

  function Decisions(s: State, rs: seq<Request>): seq<bool>
    decreases |rs|
  {
    if rs == [] then []
    else
      var (s', ok) := Handle(s, rs[0]);
      [ok] + Decisions(s', rs[1..])
  }

  ghost function After(s: State, rs: seq<Request>): State {
    if rs == [] then s else Handle(After(s, rs[..|rs| - 1]), rs[|rs| - 1]).0
  }

  /** The same requests against buckets that are never deleted. */
  function PlainDecisions(b: Buckets, rs: seq<Request>): seq<bool>
    decreases |rs|
  {
    if rs == [] then []
    else
      var (b', ok) := Draw(b, rs[0]);
      [ok] + PlainDecisions(b', rs[1..])
  }

  ghost predicate Sound(b: Buckets, clock: real) {
    forall k :: k in b ==> 0.0 <= b[k].tokens <= CAPACITY && b[k].lastTime <= clock
  }

  // ---- What is forgotten, and when ----------------------------------------

  /** No bucket was idle for the limit at the last cleaning. */
  ghost predicate Tidy(s: State) {
    forall k :: k in s.buckets ==> s.buckets[k].lastTime >= s.cleanedAt - IDLE_LIMIT
  }

  /** A request drops another key's bucket exactly if it was idle for more than ten
      minutes and the last cleaning is more than five minutes ago. */
  lemma {:induction false} ForgottenIff(s: State, r: Request, key: string)
    requires key in s.buckets && key != r.key
    ensures var s' := Handle(s, r).0;
      && (key !in s'.buckets <==> r.now - s.buckets[key].lastTime > 600.0 && r.now - s.cleanedAt > 300.0)
      && (key in s'.buckets ==> s'.buckets[key] == s.buckets[key])
  {
  }

  /** After every request of a run, every bucket kept was used in the last fifteen
      minutes. */
  lemma {:induction false} NothingOldIsKept(s: State, rs: seq<Request>)
    requires Tidy(s) && Ordered(rs, s.cleanedAt)
    ensures var s' := After(s, rs);
      && Tidy(s') && (rs != [] ==> s'.cleanedAt <= rs[|rs| - 1].now)
      && (rs != [] ==> forall k :: k in s'.buckets ==> s'.buckets[k].lastTime >= rs[|rs| - 1].now - 900.0)
  {
    if rs == [] {
    } else {
      var last := |rs| - 1;
      NothingOldIsKept(s, rs[..last]);
      OneRequestTidy(After(s, rs[..last]), rs[last]);
    }
  }

  lemma {:induction false} OneRequestTidy(s: State, r: Request)
    requires Tidy(s) && s.cleanedAt <= r.now
    ensures var s' := Handle(s, r).0;
      && Tidy(s') && s'.cleanedAt <= r.now
      && forall k :: k in s'.buckets ==> s'.buckets[k].lastTime >= r.now - 900.0
  {
  }

  // ---- Deleting idle buckets changes no decision --------------------------

  /** `kept` is `all` without some buckets that have been idle long enough to be
      full again. */
  ghost predicate Trimmed(kept: Buckets, all: Buckets, clock: real) {
    && (forall k :: k in kept ==> k in all && kept[k] == all[k])
    && (forall k :: k in all && k !in kept ==> all[k].lastTime < clock - IDLE_LIMIT)
  }

  lemma {:induction false} FullAgain(b: Bucket, now: real)
    requires 0.0 <= b.tokens && b.lastTime < now - IDLE_LIMIT
    ensures Refilled(b, now) == CAPACITY
  {
  }

  lemma {:induction false} CleanTrims(s: State, all: Buckets, now: real)
    requires Trimmed(s.buckets, all, now)
    ensures Trimmed(Clean(s, now).buckets, all, now)
  {
  }

  lemma {:induction false} SameDraw(kept: Buckets, all: Buckets, r: Request)
    requires Trimmed(kept, all, r.now) && Sound(all, r.now)
    ensures Draw(kept, r).1 == Draw(all, r).1
    ensures Trimmed(Draw(kept, r).0, Draw(all, r).0, r.now) && Sound(Draw(all, r).0, r.now)
  {
    if r.key in all && r.key !in kept {
      FullAgain(all[r.key], r.now);
    }
  }

  lemma {:induction false} CleaningIsInvisible(s: State, all: Buckets, clock: real, rs: seq<Request>)
    requires Trimmed(s.buckets, all, clock) && Sound(all, clock) && Ordered(rs, clock)
    ensures Decisions(s, rs) == PlainDecisions(all, rs)
    decreases |rs|
  {
    if rs == [] {
    } else {
      var r := rs[0];
      var s1 := Clean(s, r.now);
      assert Trimmed(s.buckets, all, r.now);
      CleanTrims(s, all, r.now);
      SameDraw(s1.buckets, all, r);
      var (s', ok) := Handle(s, r);
      TailOrdered(rs);
      CleaningIsInvisible(s', Draw(all, r).0, r.now, rs[1..]);
    }
  }

  lemma {:induction false} TailOrdered(rs: seq<Request>)
    requires rs != [] && forall i, j :: 0 <= i < j < |rs| ==> rs[i].now <= rs[j].now
    ensures Ordered(rs[1..], rs[0].now)
  {
  }

  /** From a fresh server on: every decision is the one without any clean-up. */
  lemma {:induction false} DecisionsWithoutCleaning(cleanedAt: real, start: real, rs: seq<Request>)
    requires Ordered(rs, start)
    ensures Decisions(State(map[], cleanedAt), rs) == PlainDecisions(map[], rs)
  {
    CleaningIsInvisible(State(map[], cleanedAt), map[], start, rs);
  }

  // ---- The rate -----------------------------------------------------------

  function Allowed(s: State, rs: seq<Request>, key: string): nat
    decreases |rs|
  {
    if rs == [] then 0
    else
      var (s', ok) := Handle(s, rs[0]);
      (if ok && rs[0].key == key then 1 else 0) + Allowed(s', rs[1..], key)
  }

  function LastTime(rs: seq<Request>, from: real): real {
    if rs == [] then from else rs[|rs| - 1].now
  }

  lemma {:induction false} AvailableGrows(b: Buckets, key: string, now: real, later: real)
    requires now <= later
    ensures Available(b, key, later) <= Available(b, key, now) + RATE * (later - now)
  {
    if key in b {
      assert (later - b[key].lastTime) * RATE == (now - b[key].lastTime) * RATE + RATE * (later - now);
    }
  }

  lemma {:induction false} CleanAvailable(s: State, key: string, now: real)
    requires Sound(s.buckets, now)
    ensures Available(Clean(s, now).buckets, key, now) == Available(s.buckets, key, now)
    ensures Sound(Clean(s, now).buckets, now)
  {
    if key in s.buckets && key !in Clean(s, now).buckets {
      FullAgain(s.buckets[key], now);
    }
  }

  /** One request takes a token from its own key if it is allowed, and nothing from
      any other. */
  lemma {:induction false} DrawAvailable(b: Buckets, r: Request, key: string)
    requires Sound(b, r.now)
    ensures var (b', ok) := Draw(b, r);
      && Sound(b', r.now)
      && Available(b', key, r.now) == Available(b, key, r.now) - (if ok && r.key == key then 1.0 else 0.0)
      && Available(b', key, r.now) >= 0.0
  {
    AvailableNonNegative(b, key, r.now);
    AvailableNonNegative(b, r.key, r.now);
  }

  lemma {:induction false} AvailableNonNegative(b: Buckets, key: string, now: real)
    requires Sound(b, now)
    ensures 0.0 <= Available(b, key, now) <= CAPACITY
  {
    if key in b {
      assert (now - b[key].lastTime) * RATE >= 0.0;
    }
  }

  lemma {:induction false} AllowedBudget(s: State, clock: real, rs: seq<Request>, key: string)
    requires Sound(s.buckets, clock) && Ordered(rs, clock)
    ensures Allowed(s, rs, key) as real <= Available(s.buckets, key, clock) + RATE * (LastTime(rs, clock) - clock)
    decreases |rs|
  {
    if rs == [] {
      AvailableNonNegative(s.buckets, key, clock);
    } else {
      var r := rs[0];
      assert Sound(s.buckets, r.now);
      AvailableGrows(s.buckets, key, clock, r.now);
      CleanAvailable(s, key, r.now);
      DrawAvailable(Clean(s, r.now).buckets, r, key);
      TailOrdered(rs);
      var (s', ok) := Handle(s, r);
      AllowedBudget(s', r.now, rs[1..], key);
      assert LastTime(rs, clock) == LastTime(rs[1..], r.now);
      Spread(r.now, clock, LastTime(rs, clock));
    }
  }

  lemma {:induction false} Spread(mid: real, from: real, to: real)
    ensures RATE * (mid - from) + RATE * (to - mid) == RATE * (to - from)
  {
  }

  /** In any stretch of `span` seconds, from whatever state the server is in, a key
      is allowed at most 60 + 30 * span requests. */
  lemma {:induction false} RateLimited(s: State, clock: real, rs: seq<Request>, key: string, span: real)
    requires Sound(s.buckets, clock) && Ordered(rs, clock) && LastTime(rs, clock) <= clock + span
    ensures Allowed(s, rs, key) as real <= CAPACITY + RATE * span
  {
    AllowedBudget(s, clock, rs, key);
    AvailableNonNegative(s.buckets, key, clock);
    assert RATE * (LastTime(rs, clock) - clock) <= RATE * span;
  }

  // ---- Exactly which requests are allowed ---------------------------------

  /** The buckets after the first `k` requests, when none is ever deleted. */
  function PlainAfter(rs: seq<Request>, k: nat): Buckets
    requires k <= |rs|
  {
    if k == 0 then map[] else Draw(PlainAfter(rs, k - 1), rs[k - 1]).0
  }

  function Granted(rs: seq<Request>, k: nat): bool
    requires k < |rs|
  {
    Draw(PlainAfter(rs, k), rs[k]).1
  }

  /** How many requests of the key are allowed from number `i` up to, not including,
      number `k`, by these decisions. */
  function CountAllowed(rs: seq<Request>, ds: seq<bool>, key: string, i: nat, k: nat): nat
    requires i <= k <= |rs| && k <= |ds|
    decreases k
  {
    if i == k then 0 else CountAllowed(rs, ds, key, i, k - 1) + if ds[k - 1] && rs[k - 1].key == key then 1 else 0
  }

  /** The bound that one earlier request of the same key puts on `x` further tokens. */
  predicate Bound(rs: seq<Request>, ds: seq<bool>, key: string, i: nat, k: nat, now: real, x: real)
    requires i <= k <= |rs| && k <= |ds| && i < |rs|
  {
    rs[i].key == key ==> x + CountAllowed(rs, ds, key, i, k) as real <= 60.0 + 30.0 * (now - rs[i].now)
  }

  ghost predicate AsGranted(rs: seq<Request>, ds: seq<bool>) {
    |ds| == |rs| && forall k {:trigger ds[k]} :: 0 <= k < |rs| ==> ds[k] == Granted(rs, k)
  }

  ghost predicate WithinBounds(rs: seq<Request>, ds: seq<bool>, key: string, k: nat, now: real, x: real)
    requires k <= |rs| && k <= |ds|
  {
    forall i {:trigger Bound(rs, ds, key, i, k, now, x)} :: 0 <= i < k ==> Bound(rs, ds, key, i, k, now, x)
  }

  /** What a key can draw on is bounded by sixty, and by each of its earlier requests;
      and by nothing else. */
  lemma {:induction false} AvailableIs(rs: seq<Request>, ds: seq<bool>, k: nat, key: string, now: real, x: real)
    requires k <= |rs| && AsGranted(rs, ds)
    ensures x <= Available(PlainAfter(rs, k), key, now) <==> x <= 60.0 && WithinBounds(rs, ds, key, k, now, x)
    decreases k
  {
    if k == 0 {
    } else {
      var r := rs[k - 1];
      if r.key == key {
        var y := x + (if ds[k - 1] then 1.0 else 0.0) - 30.0 * (now - r.now);
        AvailableIs(rs, ds, k - 1, key, r.now, y);
        DrawnOne(rs, ds, k, now, x);
        OneMoreBound(rs, ds, k, now, x, y);
      } else {
        AvailableIs(rs, ds, k - 1, key, now, x);
        OtherBounds(rs, ds, key, k, now, x);
        assert Available(PlainAfter(rs, k), key, now) == Available(PlainAfter(rs, k - 1), key, now);
      }
    }
  }

  lemma {:induction false} OneMoreBound(rs: seq<Request>, ds: seq<bool>, k: nat, now: real, x: real, y: real)
    requires 0 < k <= |rs| && k <= |ds| && y == x + (if ds[k - 1] then 1.0 else 0.0) - 30.0 * (now - rs[k - 1].now)
    ensures var r := rs[k - 1];
      WithinBounds(rs, ds, r.key, k, now, x) <==> y <= 60.0 && WithinBounds(rs, ds, r.key, k - 1, r.now, y)
  {
    var r, last := rs[k - 1], k - 1;
    if WithinBounds(rs, ds, r.key, k, now, x) {
      BoundStep(rs, ds, r.key, last, k, now, x, y);
      assert Bound(rs, ds, r.key, last, k, now, x);
      forall i | 0 <= i < last ensures Bound(rs, ds, r.key, i, last, r.now, y) {
        BoundStep(rs, ds, r.key, i, k, now, x, y);
        assert Bound(rs, ds, r.key, i, k, now, x);
      }
    }
    if y <= 60.0 && WithinBounds(rs, ds, r.key, last, r.now, y) {
      forall i | 0 <= i < k ensures Bound(rs, ds, r.key, i, k, now, x) {
        BoundStep(rs, ds, r.key, i, k, now, x, y);
        assert i < last ==> Bound(rs, ds, r.key, i, last, r.now, y);
      }
    }
  }

  /** Request `k - 1` moved the bounds of its key by its token and its time. */
  lemma {:induction false} BoundStep(rs: seq<Request>, ds: seq<bool>, key: string, i: nat, k: nat, now: real, x: real, y: real)
    requires i < k <= |rs| && k <= |ds| && rs[k - 1].key == key
    requires y == x + (if ds[k - 1] then 1.0 else 0.0) - 30.0 * (now - rs[k - 1].now)
    ensures i < k - 1 ==> (Bound(rs, ds, key, i, k, now, x) <==> Bound(rs, ds, key, i, k - 1, rs[k - 1].now, y))
    ensures i == k - 1 ==> (Bound(rs, ds, key, i, k, now, x) <==> y <= 60.0)
  {
    assert CountAllowed(rs, ds, key, i, k) == CountAllowed(rs, ds, key, i, k - 1) + if ds[k - 1] then 1 else 0;
  }

  lemma {:induction false} OtherBounds(rs: seq<Request>, ds: seq<bool>, key: string, k: nat, now: real, x: real)
    requires 0 < k <= |rs| && k <= |ds| && rs[k - 1].key != key
    ensures WithinBounds(rs, ds, key, k, now, x) <==> WithinBounds(rs, ds, key, k - 1, now, x)
  {
    var last := k - 1;
    if WithinBounds(rs, ds, key, k, now, x) {
      forall i | 0 <= i < last ensures Bound(rs, ds, key, i, last, now, x) {
        assert Bound(rs, ds, key, i, k, now, x);
        assert CountAllowed(rs, ds, key, i, k) == CountAllowed(rs, ds, key, i, last);
      }
    }
    if WithinBounds(rs, ds, key, last, now, x) {
      forall i | 0 <= i < k ensures Bound(rs, ds, key, i, k, now, x) {
        if i < last {
          assert Bound(rs, ds, key, i, last, now, x);
          assert CountAllowed(rs, ds, key, i, k) == CountAllowed(rs, ds, key, i, last);
        }
      }
    }
  }

  /** After a request its key has what was there, less a token if it was allowed, and
      the refill up to sixty. */
  lemma {:induction false} DrawnOne(rs: seq<Request>, ds: seq<bool>, k: nat, now: real, x: real)
    requires 0 < k <= |rs| && AsGranted(rs, ds)
    ensures var r := rs[k - 1];
      var left := Available(PlainAfter(rs, k - 1), r.key, r.now) - if ds[k - 1] then 1.0 else 0.0;
      x <= Available(PlainAfter(rs, k), r.key, now) <==> x <= 60.0 && x <= left + 30.0 * (now - r.now)
  {
  }

  lemma {:induction false} DecisionsAre(rs: seq<Request>, k: nat)
    requires k <= |rs|
    ensures var ds := PlainDecisions(PlainAfter(rs, k), rs[k..]);
      |ds| == |rs| - k && forall j {:trigger ds[j]} :: 0 <= j < |rs| - k ==> ds[j] == Granted(rs, k + j)
    decreases |rs| - k
  {
    if k == |rs| {
    } else {
      DecisionsAre(rs, k + 1);
      assert rs[k..][0] == rs[k] && rs[k..][1..] == rs[k + 1..];
    }
  }

  /** From a fresh server on, a request is allowed exactly if, counting it, the key
      has had no more than 60 + 30 per second since each of its earlier requests. */
  lemma {:induction false} AllowedIff(cleanedAt: real, start: real, rs: seq<Request>, k: nat)
    requires Ordered(rs, start) && k < |rs|
    ensures var ds := Decisions(State(map[], cleanedAt), rs);
      |ds| == |rs| && (ds[k] <==> WithinBounds(rs, ds, rs[k].key, k, rs[k].now, 1.0))
  {
    DecisionsWithoutCleaning(cleanedAt, start, rs);
    DecisionsAre(rs, 0);
    var ds := PlainDecisions(map[], rs);
    assert rs[0..] == rs;
    assert AsGranted(rs, ds);
    AvailableIs(rs, ds, k, rs[k].key, rs[k].now, 1.0);
  }

  // ---- The code -----------------------------------------------------------

  class Limiter {
    var buckets: Buckets
    var cleanedAt: real

    ghost function Value(): State
      reads this
    {
      State(buckets, cleanedAt)
    }

    constructor (start: real)
      ensures Value() == State(map[], start)
    {
      buckets, cleanedAt := map[], start;
    }

    method Allow(r: Request) returns (allowed: bool)
      modifies this
      ensures (Value(), allowed) == Handle(old(Value()), r)
    {
      if r.now - cleanedAt > CLEAN_EVERY {
        buckets := DropIdle(buckets, r.now);
        cleanedAt := r.now;
      }
      var b := if r.key in buckets then buckets[r.key] else Bucket(CAPACITY, r.now);
      var tokens := b.tokens + (r.now - b.lastTime) * RATE;
      if tokens > CAPACITY { tokens := CAPACITY; }
      allowed := tokens >= 1.0;
      if allowed { tokens := tokens - 1.0; }
      buckets := buckets[r.key := Bucket(tokens, r.now)];
    }
  }

  method DropIdle(b: Buckets, now: real) returns (left: Buckets)
    ensures left == Survivors(b, now)
  {
    left := b;
    var rest := b.Keys;
    while rest != {}
      invariant rest <= left.Keys <= b.Keys
      invariant forall k :: k in left ==> left[k] == b[k]
      invariant forall k :: k in b && k !in rest ==> (k in left <==> b[k].lastTime >= now - IDLE_LIMIT)
    {
      var k :| k in rest;
      if left[k].lastTime < now - IDLE_LIMIT {
        left := left - {k};
      }
      rest := rest - {k};
    }
  }
}
