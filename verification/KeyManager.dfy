/** The session manager of `core/keylimits`: its loops, and the object whose methods
    are the steps that `KeyLimits` interleaves. */
module KeyManager {
  import opened KeyLimits

  // ---- The manager object -------------------------------------------------

  /** `normalCount`. */
  method NormalCount(km: map<string, Session>) returns (n: nat)
    ensures n == |Normal(km)|
  {
    n := 0;
    var rest := km.Keys;
    ghost var seen: set<string> := {};
    while rest != {}
      invariant rest <= km.Keys && n == |seen|
      invariant forall s :: s in seen <==> s in km && s !in rest && !km[s].torrent
    {
      var s :| s in rest;
      if !km[s].torrent {
        n := n + 1;
        seen := seen + {s};
      }
      rest := rest - {s};
    }
    assert seen == Normal(km);
  }

  /** `countUniqueIPs`. */
  method CountUniqueIps(km: map<string, Session>, adding: string) returns (n: nat)
    ensures n == |Ips(km) + {adding}|
  {
    var seen: set<string> := {};
    var rest := km.Keys;
    while rest != {}
      invariant rest <= km.Keys
      invariant forall ip :: ip in seen <==> exists s :: s in km && s !in rest && km[s].ip == ip
    {
      var s :| s in rest;
      seen := seen + {km[s].ip};
      rest := rest - {s};
    }
    assert seen == Ips(km);
    seen := seen + {adding};
    n := |seen|;
  }

  /** The reconnect window of one key. */
  method UpdateBurst(l: Limits, burst: map<string, Burst>, key: string, now: int)
    returns (after: map<string, Burst>, ok: bool)
    ensures (after, ok) == CountBurst(l, burst, key, now)
  {
    after := burst;
    if l.burstPerMinute > 0 {
      if key !in after || now - after[key].since > MINUTE {
        after := after[key := Burst(now, 0)];
      }
      if after[key].count >= l.burstPerMinute {
        assert after == burst[key := after[key]];
        return after, false;
      }
      after := after[key := Burst(after[key].since, after[key].count + 1)];
      assert after == burst[key := after[key]];
    }
    return after, true;
  }

  method DeleteLoop(ss: Sessions, ids: seq<Id>) returns (left: Sessions, deleted: nat)
    ensures (left, deleted) == DeleteAll(ss, ids)
  {
    left, deleted := ss, 0;
    for i := 0 to |ids|
      invariant (left, deleted) == DeleteAll(ss, ids[..i])
    {
      assert ids[..i + 1][..i] == ids[..i];
      var gone;
      left, gone := DeleteSession(left, ids[i]);
      if gone {
        deleted := deleted + 1;
      }
    }
    assert ids[..|ids|] == ids;
  }

  /** `deleteSession`. */
  method DeleteSession(ss: Sessions, id: Id) returns (left: Sessions, gone: bool)
    ensures (left, gone) == Delete(ss, id)
  {
    var (key, sid) := id;
    if key !in ss || sid !in ss[key] {
      return ss, false;
    }
    var km := ss[key] - {sid};
    left := ss[key := km];
    if |km| == 0 {
      left := left - {key};
      assert left == ss - {key};
    }
    gone := true;
  }

  method CheckKey(l: Limits, km: map<string, Session>, ip: string) returns (reason: Reason)
    ensures reason == KeyCheck(l, km, ip)
  {
    var normal := NormalCount(km);
    if l.maxActive > 0 && normal >= l.maxActive {
      return ActiveCap;
    }
    if l.softIpCap > 0 {
      var unique := CountUniqueIps(km, ip);
      if unique > l.softIpCap {
        return SoftIpCap;
      }
    }
    return Admitted;
  }

  lemma {:induction false} OpenThenGrow(ss: Sessions, key: string, sid: string, s: Session)
    ensures Opened(ss, key) == if key in ss then ss else ss[key := map[]]
    ensures Opened(ss, key)[key := KeyMap(ss, key)[sid := s]] == Grown(ss, key, sid, s)
  {
  }

  class Manager {
    const config: Config
    var sessions: Sessions
    var burst: map<string, Burst>
    var total: int
    var closers: set<Id>
    ghost var pending: seq<nat>

    ghost function Value(): State
      reads this
    {
      State(sessions, burst, total, pending)
    }

    ghost predicate Valid()
      reads this
    {
      Inv(config, Value())
    }

    constructor (config: Config)
      ensures Value() == EMPTY && Valid() && closers == {} && this.config == config
    {
      this.config := config;
      sessions, burst, total := map[], map[], 0;
      pending, closers := [], {};
      assert Live(map[]) == {};
    }

    method AdmitOne(key: string, sid: string, ip: string, now: int) returns (reason: Reason)
      requires Valid()
      modifies this`sessions, this`burst, this`total
      ensures (Value(), reason) == Admit(config, old(Value()), key, sid, ip, now)
      ensures Valid()
    {
      StepKeepsInv(config, Value(), AdmitSession(key, sid, ip, now));
      reason := AdmitLocked(key, sid, ip, now);
    }

    method AdmitLocked(key: string, sid: string, ip: string, now: int) returns (reason: Reason)
      modifies this`sessions, this`burst, this`total
      ensures (Value(), reason) == Admit(config, old(Value()), key, sid, ip, now)
    {
      var l := LimitsFor(config, key);
      var ok;
      burst, ok := UpdateBurst(l, burst, key, now);
      if !ok {
        return RateLimit;
      }
      if config.defaults.globalCap > 0 && total >= config.defaults.globalCap {
        return GlobalCap;
      }
      OpenThenGrow(sessions, key, sid, Session(ip, now, now, false));
      if key !in sessions {
        sessions := sessions[key := map[]];
      }
      assert sessions == Opened(old(sessions), key);
      var km := sessions[key];
      assert km == KeyMap(old(sessions), key);
      reason := CheckKey(l, km, ip);
      if !reason.Admitted? {
        return;
      }
      sessions := sessions[key := km[sid := Session(ip, now, now, false)]];
      total := total + 1;
    }

    /** The locked part of `Release` and of the evictions; the caller still owes the
        counter the number returned. */
    method DeleteSessions(ids: seq<Id>) returns (deleted: nat)
      requires Valid()
      modifies this`sessions, this`pending
      ensures Value() == Apply(config, old(Value()), DeleteLocked(ids)) && deleted == pending[|pending| - 1]
      ensures Valid()
    {
      StepKeepsInv(config, Value(), DeleteLocked(ids));
      sessions, deleted := DeleteLoop(sessions, ids);
      pending := pending + [deleted];
    }

    /** The counter update that follows a deletion once the lock is gone. */
    method SettleDecrement(ghost i: nat, deleted: nat)
      requires Valid() && i < |pending| && pending[i] == deleted
      modifies this`total, this`pending
      ensures Value() == Apply(config, old(Value()), Decrement(i))
      ensures Valid()
    {
      StepKeepsInv(config, Value(), Decrement(i));
      total := total - deleted;
      pending := pending[..i] + pending[i + 1..];
    }

    method RegisterCloser(id: Id)
      modifies this`closers
      ensures closers == old(closers) + {id}
    {
      closers := closers + {id};
    }

    /** The closers that an eviction takes out and calls. */
    method TakeClosers(ids: seq<Id>) returns (called: set<Id>)
      modifies this`closers
      ensures called == old(closers) * Elements(ids) && closers == old(closers) - Elements(ids)
    {
      called := {};
      for i := 0 to |ids|
        invariant called == old(closers) * Elements(ids[..i]) && closers == old(closers) - Elements(ids[..i])
      {
        assert ids[..i + 1] == ids[..i] + [ids[i]];
        if ids[i] in closers {
          called, closers := called + {ids[i]}, closers - {ids[i]};
        }
      }
      assert ids[..|ids|] == ids;
    }

    /** `Release` when no other call comes in between. */
    method Release(id: Id)
      requires Valid()
      modifies this
      ensures Valid() && pending == old(pending) && burst == old(burst)
      ensures Live(sessions) == Live(old(sessions)) - {id} && closers == old(closers) - {id}
      ensures total == old(total) - if id in Live(old(sessions)) then 1 else 0
    {
      OneId(sessions, id);
      DropSessions([id]);
      closers := closers - {id};
    }

    /** `EvictOldest`, given the snapshot it took of the key's sessions: whatever has
        happened since, exactly the oldest sessions of the snapshot are gone, the
        counter follows by those that were still live, and their closers are called. */
    method EvictSnapshot(key: string, snapshot: map<string, Session>, n: int) returns (gone: seq<string>, called: set<Id>)
      requires Valid()
      modifies this
      ensures Valid() && AreOldest(snapshot, n, gone) && pending == old(pending) && burst == old(burst)
      ensures Live(sessions) == Live(old(sessions)) - Under(key, gone)
      ensures total == old(total) - |Live(old(sessions)) * Under(key, gone)|
      ensures called == old(closers) * Under(key, gone) && closers == old(closers) - Under(key, gone)
    {
      gone := OldestSessions(snapshot, n);
      DropUnder(key, gone);
      ghost var st := Value();
      TaggedElements(key, gone);
      called := TakeClosers(Tagged(key, gone));
      assert Value() == st;
    }

    method DropUnder(key: string, gone: seq<string>)
      requires Valid() && Distinct(gone)
      modifies this`sessions, this`total, this`pending
      ensures Valid() && pending == old(pending)
      ensures Live(sessions) == Live(old(sessions)) - Under(key, gone)
      ensures total == old(total) - |Live(old(sessions)) * Under(key, gone)|
    {
      EvictedExactly(sessions, key, gone);
      DropSessions(Tagged(key, gone));
    }

    /** `EvictOldest` when no other call comes in between. */
    method EvictOldest(key: string, n: int) returns (gone: seq<string>, called: set<Id>)
      requires Valid()
      modifies this
      ensures Valid() && AreOldest(KeyMap(old(sessions), key), n, gone) && pending == old(pending) && burst == old(burst)
      ensures Live(sessions) == Live(old(sessions)) - Under(key, gone) && total == old(total) - |gone|
      ensures called == old(closers) * Under(key, gone) && closers == old(closers) - Under(key, gone)
    {
      ghost var before := sessions;
      gone, called := EvictSnapshot(key, KeyMap(sessions, key), n);
      AllWereLive(before, key, gone);
    }

    /** Deletes, then settles at once. */
    method DropSessions(ids: seq<Id>)
      requires Valid()
      modifies this`sessions, this`total, this`pending
      ensures Valid() && pending == old(pending)
      ensures (sessions, old(total) - total) == DeleteAll(old(sessions), ids)
    {
      var deleted := DeleteSessions(ids);
      SettleDecrement(|pending| - 1, deleted);
    }

    /** The locked part of `gcExpired`. */
    method CollectExpired(now: int) returns (expired: nat)
      requires Valid()
      modifies this`sessions, this`burst, this`pending
      ensures Value() == Apply(config, old(Value()), CollectGarbage(closers, now)) && expired == pending[|pending| - 1]
      ensures Valid()
    {
      StepKeepsInv(config, Value(), CollectGarbage(closers, now));
      expired := CollectLocked(now);
    }

    method CollectLocked(now: int) returns (expired: nat)
      modifies this`sessions, this`burst, this`pending
      ensures Value() == Apply(config, old(Value()), CollectGarbage(closers, now)) && expired == pending[|pending| - 1]
    {
      CollectedShrinks(config, sessions, closers, now);
      sessions, expired := CollectLoop(config, sessions, closers, now);
      burst := OpenWindows(burst, now);
      pending := pending + [expired];
    }
  }

  // ---- Eviction -----------------------------------------------------------

  function Under(key: string, sids: seq<string>): set<Id> {
    set i | 0 <= i < |sids| :: (key, sids[i])
  }

  function Tagged(key: string, sids: seq<string>): seq<Id> {
    seq(|sids|, i requires 0 <= i < |sids| => (key, sids[i]))
  }

  ghost predicate Distinct(sids: seq<string>) {
    forall i, j :: 0 <= i < j < |sids| ==> sids[i] != sids[j]
  }

  /** As many sessions as asked for or there are, none younger than one left out. */
  ghost predicate AreOldest(km: map<string, Session>, n: int, sids: seq<string>) {
    && |sids| == (if n < 0 then 0 else if n > |km| then |km| else n)
    && Distinct(sids) && (forall i :: 0 <= i < |sids| ==> sids[i] in km)
    && forall i, t :: 0 <= i < |sids| && t in km && t !in sids ==> km[sids[i]].startedAt <= km[t].startedAt
  }

  ghost predicate ByAge(km: map<string, Session>, sids: seq<string>) {
    && (forall i :: 0 <= i < |sids| ==> sids[i] in km)
    && forall i, j :: 0 <= i < j < |sids| ==> km[sids[i]].startedAt <= km[sids[j]].startedAt
  }

  /** The snapshot sorted by starting time, and its first `n`. */
  method OldestSessions(km: map<string, Session>, n: int) returns (sids: seq<string>)
    ensures AreOldest(km, n, sids)
  {
    var all: seq<string>, rest := [], km.Keys;
    while rest != {}
      invariant rest <= km.Keys && ByAge(km, all) && Distinct(all) && |all| + |rest| == |km.Keys|
      invariant forall s :: s in km ==> (s in all <==> s !in rest)
    {
      var s :| s in rest;
      all := InsertByAge(km, all, s);
      rest := rest - {s};
    }
    var count := if n < 0 then 0 else if n > |all| then |all| else n;
    sids := all[..count];
  }

  method InsertByAge(km: map<string, Session>, all: seq<string>, s: string) returns (grown: seq<string>)
    requires ByAge(km, all) && Distinct(all) && s in km && s !in all
    ensures ByAge(km, grown) && Distinct(grown) && |grown| == |all| + 1
    ensures forall t :: t in grown <==> t in all || t == s
  {
    var p := |all|;
    while p > 0 && km[all[p - 1]].startedAt > km[s].startedAt
      invariant 0 <= p <= |all| && forall j :: p <= j < |all| ==> km[all[j]].startedAt > km[s].startedAt
    {
      p := p - 1;
    }
    grown := all[..p] + [s] + all[p..];
    InsertedAt(all, p, s);
    InsertedByAge(km, all, p, s);
  }

  lemma {:induction false} InsertedAt(all: seq<string>, p: nat, s: string)
    requires p <= |all| && Distinct(all) && s !in all
    ensures var grown := all[..p] + [s] + all[p..];
      Distinct(grown) && forall t :: t in grown <==> t in all || t == s
  {
    var grown := all[..p] + [s] + all[p..];
    forall i | 0 <= i < |grown| ensures grown[i] == if i < p then all[i] else if i == p then s else all[i - 1] {}
    assert all == all[..p] + all[p..];
  }

  lemma {:induction false} InsertedByAge(km: map<string, Session>, all: seq<string>, p: nat, s: string)
    requires ByAge(km, all) && p <= |all| && s in km && (p > 0 ==> km[all[p - 1]].startedAt <= km[s].startedAt)
    requires forall j :: p <= j < |all| ==> km[s].startedAt <= km[all[j]].startedAt
    ensures ByAge(km, all[..p] + [s] + all[p..])
  {
    var grown := all[..p] + [s] + all[p..];
    forall i | 0 <= i < |grown| ensures grown[i] == (if i < p then all[i] else if i == p then s else all[i - 1]) && grown[i] in km {}
    forall i, j | 0 <= i < j < |grown| ensures km[grown[i]].startedAt <= km[grown[j]].startedAt {
      if i < p && j == p {
        assert i < p - 1 ==> km[all[i]].startedAt <= km[all[p - 1]].startedAt;
      }
    }
  }

  ghost function Elements(ids: seq<Id>): set<Id> {
    set id | id in ids
  }

  lemma {:induction false} TaggedElements(key: string, sids: seq<string>)
    ensures Elements(Tagged(key, sids)) == Under(key, sids)
  {
    forall id ensures id in Elements(Tagged(key, sids)) <==> id in Under(key, sids) {
      if id in Under(key, sids) {
        var i :| 0 <= i < |sids| && (key, sids[i]) == id;
        assert Tagged(key, sids)[i] == id;
      }
    }
  }

  lemma {:induction false} OneId(ss: Sessions, id: Id)
    ensures var (ss', n) := DeleteAll(ss, [id]);
      Live(ss') == Live(ss) - {id} && n == if id in Live(ss) then 1 else 0
  {
    assert [id][..0] == [];
    DeleteLive(ss, id);
  }

  /** Deleting distinct sessions of a key takes away those that are live, and counts
      them. */
  lemma {:induction false} EvictedExactly(ss: Sessions, key: string, sids: seq<string>)
    requires Distinct(sids)
    ensures var (ss', n) := DeleteAll(ss, Tagged(key, sids));
      Live(ss') == Live(ss) - Under(key, sids) && n == |Live(ss) * Under(key, sids)|
  {
    if sids == [] {
      assert Tagged(key, sids) == [] && Under(key, sids) == {};
    } else {
      var init, last := sids[..|sids| - 1], sids[|sids| - 1];
      assert Tagged(key, sids)[..|sids| - 1] == Tagged(key, init);
      EvictedExactly(ss, key, init);
      DeleteLive(DeleteAll(ss, Tagged(key, init)).0, (key, last));
      UnderLast(key, sids);
      OneMoreIn(Live(ss), Under(key, init), (key, last));
    }
  }

  lemma {:induction false} OneMoreIn(live: set<Id>, some: set<Id>, x: Id)
    requires x !in some
    ensures live - (some + {x}) == live - some - {x}
    ensures |live * (some + {x})| == |live * some| + if x in live then 1 else 0
  {
    if x in live {
      assert live * (some + {x}) == live * some + {x};
    } else {
      assert live * (some + {x}) == live * some;
    }
  }

  /** Sessions taken from the present map of the key are all live. */
  lemma {:induction false} AllWereLive(ss: Sessions, key: string, sids: seq<string>)
    requires Distinct(sids) && forall i :: 0 <= i < |sids| ==> sids[i] in KeyMap(ss, key)
    ensures |Live(ss) * Under(key, sids)| == |sids|
  {
    forall id | id in Under(key, sids) ensures id in Live(ss) {
      var i :| 0 <= i < |sids| && (key, sids[i]) == id;
      assert Present(ss, id);
    }
    assert Live(ss) * Under(key, sids) == Under(key, sids);
    UnderSize(key, sids);
  }

  lemma {:induction false} UnderSize(key: string, sids: seq<string>)
    requires Distinct(sids)
    ensures |Under(key, sids)| == |sids|
  {
    if sids == [] {
      assert Under(key, sids) == {};
    } else {
      UnderSize(key, sids[..|sids| - 1]);
      UnderLast(key, sids);
    }
  }

  lemma {:induction false} UnderLast(key: string, sids: seq<string>)
    requires sids != [] && Distinct(sids)
    ensures var last := |sids| - 1;
      Under(key, sids) == Under(key, sids[..last]) + {(key, sids[last])} && (key, sids[last]) !in Under(key, sids[..last])
  {
    var last := |sids| - 1;
    forall id ensures id in Under(key, sids) <==> id in Under(key, sids[..last]) || id == (key, sids[last]) {
      if id in Under(key, sids[..last]) {
        var i :| 0 <= i < last && (key, sids[..last][i]) == id;
        assert sids[i] == sids[..last][i];
      }
      if id in Under(key, sids) {
        var i :| 0 <= i < |sids| && (key, sids[i]) == id;
        if i < last { assert sids[..last][i] == sids[i]; }
      }
    }
  }

  // ---- The garbage collection loops ---------------------------------------

  /** The collection with the keys of `rest` still to be looked at. */
  ghost function Partly(c: Config, ss: Sessions, held: set<Id>, now: int, rest: set<string>): Sessions {
    map k | k in ss && (k in rest || Survivors(c, k, ss[k], held, now) != map[]) ::
      if k in rest then ss[k] else Survivors(c, k, ss[k], held, now)
  }

  function Below(k: string, km: map<string, Session>): set<Id> {
    set s | s in km :: (k, s)
  }

  lemma {:induction false} BelowSize(k: string, km: map<string, Session>)
    ensures |Below(k, km)| == |km|
    decreases |km|
  {
    if km == map[] {
      assert Below(k, km) == {};
    } else {
      var s :| s in km;
      BelowSize(k, km - {s});
      assert Below(k, km) == Below(k, km - {s}) + {(k, s)};
      assert km.Keys == (km - {s}).Keys + {s};
    }
  }

  lemma {:induction false} LiveSplit(ss: Sessions, k: string)
    requires k in ss
    ensures |Live(ss)| == |Live(ss - {k})| + |ss[k]|
  {
    forall x: Id ensures x in Live(ss) <==> x in Live(ss - {k}) + Below(k, ss[k]) {
      assert x in Live(ss) <==> Present(ss, x);
      assert x in Live(ss - {k}) <==> Present(ss - {k}, x);
    }
    assert Live(ss) == Live(ss - {k}) + Below(k, ss[k]);
    assert Live(ss - {k}) !! Below(k, ss[k]);
    BelowSize(k, ss[k]);
  }

  method SurvivorsOf(c: Config, key: string, km: map<string, Session>, held: set<Id>, now: int)
    returns (left: map<string, Session>, expired: nat)
    ensures left == Survivors(c, key, km, held, now) && |left| + expired == |km|
  {
    left, expired := km, 0;
    var rest := km.Keys;
    while rest != {}
      invariant rest <= km.Keys && rest <= left.Keys <= km.Keys
      invariant forall s :: s in left ==> left[s] == km[s]
      invariant forall s :: s in km && s !in rest ==> (s in left <==> !Expired(c, key, s, km[s], held, now))
      invariant |left.Keys| + expired == |km.Keys|
    {
      var s :| s in rest;
      if Expired(c, key, s, km[s], held, now) {
        assert (left - {s}).Keys == left.Keys - {s};
        left := left - {s};
        expired := expired + 1;
      }
      rest := rest - {s};
    }
  }

  method CollectLoop(c: Config, ss: Sessions, held: set<Id>, now: int) returns (left: Sessions, expired: nat)
    ensures left == Collected(c, ss, held, now) && |Live(left)| + expired == |Live(ss)|
  {
    left, expired := ss, 0;
    var rest := ss.Keys;
    PartlyEnds(c, ss, held, now);
    while rest != {}
      invariant rest <= ss.Keys && left == Partly(c, ss, held, now, rest)
      invariant |Live(left)| + expired == |Live(ss)|
    {
      var k :| k in rest;
      CollectStep(c, ss, held, now, rest, k);
      var km, gone := SurvivorsOf(c, k, ss[k], held, now);
      left, expired := if |km| == 0 then left - {k} else left[k := km], expired + gone;
      rest := rest - {k};
    }
  }

  lemma {:induction false} PartlyEnds(c: Config, ss: Sessions, held: set<Id>, now: int)
    ensures Partly(c, ss, held, now, ss.Keys) == ss && Partly(c, ss, held, now, {}) == Collected(c, ss, held, now)
  {
  }

  lemma {:induction false} CollectStep(c: Config, ss: Sessions, held: set<Id>, now: int, rest: set<string>, k: string)
    requires k in ss && k in rest
    ensures var before, after, km := Partly(c, ss, held, now, rest), Partly(c, ss, held, now, rest - {k}),
                                     Survivors(c, k, ss[k], held, now);
      && after == (if km == map[] then before - {k} else before[k := km])
      && |Live(after)| + |ss[k]| == |Live(before)| + |km|
  {
    var before, after := Partly(c, ss, held, now, rest), Partly(c, ss, held, now, rest - {k});
    var km := Survivors(c, k, ss[k], held, now);
    assert k in before && before[k] == ss[k];
    assert after == if km == map[] then before - {k} else before[k := km];
    LiveSplit(before, k);
    LiveReplaced(before, k, km);
  }

  lemma {:induction false} LiveReplaced(ss: Sessions, k: string, km: map<string, Session>)
    requires k in ss
    ensures |Live(if km == map[] then ss - {k} else ss[k := km])| == |Live(ss - {k})| + |km|
  {
    if km != map[] {
      LiveSplit(ss[k := km], k);
      assert ss[k := km] - {k} == ss - {k};
    }
  }
}
