/** Session accounting of `core/keylimits`.  A session is deleted under the lock,
    but the global counter is decremented afterwards, so other calls can come in
    between: the steps below interleave freely. */
module KeyLimits {
  datatype Limits = Limits(maxActive: int, globalCap: int, softIpCap: int, burstPerMinute: int, ttl: int)
  datatype Session = Session(ip: string, startedAt: int, lastSeen: int, torrent: bool)
  datatype Burst = Burst(since: int, count: int)
  datatype Reason = Admitted | ActiveCap | GlobalCap | SoftIpCap | RateLimit

  type Id = (string, string)   // key and session
  type Sessions = map<string, map<string, Session>>

  datatype Config = Config(defaults: Limits, perKey: map<string, Limits>)

  /** `pending` holds the decrements that deleters still owe the counter. */
  datatype State = State(sessions: Sessions, burst: map<string, Burst>, total: int, pending: seq<nat>)

  const MINUTE: int := 60
  const DEFAULT_TTL: int := 30 * MINUTE

  function LimitsFor(c: Config, key: string): Limits {
    if key in c.perKey then c.perKey[key] else c.defaults
  }

  // ---- Counting -----------------------------------------------------------

  function Normal(km: map<string, Session>): set<string> {
    set s | s in km && !km[s].torrent
  }

  function Ips(km: map<string, Session>): set<string> {
    set s | s in km :: km[s].ip
  }

  predicate Present(ss: Sessions, id: Id) {
    id.0 in ss && id.1 in ss[id.0]
  }

  /** The live sessions. */
  function Live(ss: Sessions): set<Id> {
    set k, s | k in ss && s in ss[k] :: (k, s)
  }

  function Owed(pending: seq<nat>): nat {
    if pending == [] then 0 else pending[0] + Owed(pending[1..])
  }

  // ---- The operations -----------------------------------------------------

  /** The burst window after an attempt, and whether the attempt may go on. */
  function CountBurst(l: Limits, burst: map<string, Burst>, key: string, now: int): (map<string, Burst>, bool) {
    if l.burstPerMinute <= 0 then (burst, true)
    else
      var bw := if key in burst && now - burst[key].since <= MINUTE then burst[key] else Burst(now, 0);
      if bw.count >= l.burstPerMinute then (burst[key := bw], false)
      else (burst[key := Burst(bw.since, bw.count + 1)], true)
  }

  function KeyMap(ss: Sessions, key: string): map<string, Session> {
    if key in ss then ss[key] else map[]
  }

  /** The key's own map exists afterwards, possibly empty. */
  function Opened(ss: Sessions, key: string): Sessions {
    ss[key := KeyMap(ss, key)]
  }

  function Grown(ss: Sessions, key: string, sid: string, s: Session): Sessions {
    ss[key := KeyMap(ss, key)[sid := s]]
  }

  /** The two caps of one key. */
  function KeyCheck(l: Limits, km: map<string, Session>, ip: string): Reason {
    if l.maxActive > 0 && |Normal(km)| >= l.maxActive then ActiveCap
    else if l.softIpCap > 0 && |Ips(km) + {ip}| > l.softIpCap then SoftIpCap
    else Admitted
  }

  function Admit(c: Config, st: State, key: string, sid: string, ip: string, now: int): (State, Reason) {
    var l, km := LimitsFor(c, key), KeyMap(st.sessions, key);
    var (burst, ok) := CountBurst(l, st.burst, key, now);
    var st1 := st.(burst := burst);
    if !ok then (st1, RateLimit)
    else if c.defaults.globalCap > 0 && st.total >= c.defaults.globalCap then (st1, GlobalCap)
    else if !KeyCheck(l, km, ip).Admitted? then (st1.(sessions := Opened(st.sessions, key)), KeyCheck(l, km, ip))
    else
      (st1.(sessions := Grown(st.sessions, key, sid, Session(ip, now, now, false)), total := st.total + 1), Admitted)
  }

  /** `deleteSession`: an emptied key goes with its last session. */
  function Delete(ss: Sessions, id: Id): (Sessions, bool) {
    if !Present(ss, id) then (ss, false)
    else
      var km := ss[id.0] - {id.1};
      (if km == map[] then ss - {id.0} else ss[id.0 := km], true)
  }

  function DeleteAll(ss: Sessions, ids: seq<Id>): (Sessions, nat) {
    if ids == [] then (ss, 0)
    else
      var (ss1, n) := DeleteAll(ss, ids[..|ids| - 1]);
      var (ss2, deleted) := Delete(ss1, ids[|ids| - 1]);
      (ss2, if deleted then n + 1 else n)
  }

  predicate Expired(c: Config, key: string, sid: string, s: Session, held: set<Id>, now: int) {
    var ttl := LimitsFor(c, key).ttl;
    (key, sid) !in held && now - s.lastSeen > if ttl <= 0 then DEFAULT_TTL else ttl
  }

  function Survivors(c: Config, key: string, km: map<string, Session>, held: set<Id>, now: int): map<string, Session> {
    map s | s in km && !Expired(c, key, s, km[s], held, now) :: km[s]
  }

  /** The sessions `gcExpired` leaves; `held` are those with a registered closer. */
  function Collected(c: Config, ss: Sessions, held: set<Id>, now: int): Sessions {
    map k | k in ss && Survivors(c, k, ss[k], held, now) != map[] :: Survivors(c, k, ss[k], held, now)
  }

  /** The burst windows that `gcExpired` leaves. */
  function OpenWindows(burst: map<string, Burst>, now: int): map<string, Burst> {
    map k | k in burst && now - burst[k].since <= 5 * MINUTE :: burst[k]
  }

  function Replace(ss: Sessions, id: Id, s: Session): Sessions
    requires Present(ss, id)
  {
    ss[id.0 := ss[id.0][id.1 := s]]
  }

  function Mark(ss: Sessions, id: Id): Sessions {
    if Present(ss, id) then Replace(ss, id, ss[id.0][id.1].(torrent := true)) else ss
  }

  function Refresh(ss: Sessions, id: Id, now: int): Sessions {
    if Present(ss, id) then Replace(ss, id, ss[id.0][id.1].(lastSeen := now)) else ss
  }

  datatype Step =
    | AdmitSession(key: string, sid: string, ip: string, now: int)
    | DeleteLocked(ids: seq<Id>)            // Release, EvictOldest, EvictOldestGlobal under the lock
    | CollectGarbage(held: set<Id>, at: int)
    | MarkTorrent(id: Id)
    | Touch(id: Id, when: int)
    | Decrement(i: nat)                     // a deleter reaches its counter update

  ghost function Apply(c: Config, st: State, step: Step): State
    requires step.Decrement? ==> step.i < |st.pending|
  {
    match step
    case AdmitSession(key, sid, ip, now) => Admit(c, st, key, sid, ip, now).0
    case DeleteLocked(ids) =>
      var (ss, n) := DeleteAll(st.sessions, ids);
      st.(sessions := ss, pending := st.pending + [n])
    case CollectGarbage(held, at) =>
      var ss := Collected(c, st.sessions, held, at);
      CollectedShrinks(c, st.sessions, held, at);
      st.(sessions := ss, pending := st.pending + [|Live(st.sessions)| - |Live(ss)|],
          burst := OpenWindows(st.burst, at))
    case MarkTorrent(id) => st.(sessions := Mark(st.sessions, id))
    case Touch(id, when) => st.(sessions := Refresh(st.sessions, id, when))
    case Decrement(i) =>
      st.(total := st.total - st.pending[i], pending := st.pending[..i] + st.pending[i + 1..])
  }

  lemma {:induction false} CollectedShrinks(c: Config, ss: Sessions, held: set<Id>, now: int)
    ensures Live(Collected(c, ss, held, now)) <= Live(ss)
    ensures |Live(Collected(c, ss, held, now))| <= |Live(ss)|
  {
    SubsetSize(Live(Collected(c, ss, held, now)), Live(ss));
  }

  lemma {:induction false} SubsetSize<T>(a: set<T>, b: set<T>)
    requires a <= b
    ensures |a| <= |b|
  {
    assert b == a + (b - a);
  }

  // ---- The invariant ------------------------------------------------------

  ghost predicate WithinCaps(c: Config, key: string, km: map<string, Session>) {
    var l := LimitsFor(c, key);
    && km != map[]
    && (l.maxActive > 0 ==> |Normal(km)| <= l.maxActive)
    && (l.softIpCap > 0 ==> |Ips(km)| <= l.softIpCap)
  }

  /** How far the counter is above the live sessions and the decrements owed. */
  function Excess(st: State): int {
    st.total - |Live(st.sessions)| - Owed(st.pending)
  }

  ghost predicate Counted(c: Config, st: State) {
    && Excess(st) >= 0
    && (c.defaults.globalCap > 0 ==> st.total <= c.defaults.globalCap)
  }

  ghost predicate AllWithinCaps(c: Config, ss: Sessions) {
    forall k :: k in ss ==> WithinCaps(c, k, ss[k])
  }

  ghost predicate Inv(c: Config, st: State) {
    Counted(c, st) && AllWithinCaps(c, st.sessions)
  }

  lemma {:induction false} OwedAppend(pending: seq<nat>, n: nat)
    ensures Owed(pending + [n]) == Owed(pending) + n
  {
    if pending == [] {
      assert [] + [n] == [n] && [n][1..] == [];
    } else {
      OwedAppend(pending[1..], n);
      assert (pending + [n])[1..] == pending[1..] + [n];
    }
  }

  lemma {:induction false} OwedRemove(pending: seq<nat>, i: nat)
    requires i < |pending|
    ensures Owed(pending) == Owed(pending[..i] + pending[i + 1..]) + pending[i]
  {
    var rest := pending[..i] + pending[i + 1..];
    if i == 0 {
      assert rest == pending[1..];
    } else {
      OwedRemove(pending[1..], i - 1);
      assert rest[1..] == pending[1..][..i - 1] + pending[1..][i..];
    }
  }

  // ---- Deleting -----------------------------------------------------------

  lemma {:induction false} DeleteLive(ss: Sessions, id: Id)
    ensures var (ss', deleted) := Delete(ss, id);
      Live(ss') == Live(ss) - {id} && deleted == (id in Live(ss))
  {
    var (ss', deleted) := Delete(ss, id);
    if deleted {
      assert forall s :: s in ss[id.0] && s != id.1 ==> s in ss[id.0] - {id.1};
      forall x: Id ensures x in Live(ss') <==> x in Live(ss) && x != id {
      }
    } else {
      assert Live(ss) - {id} == Live(ss);
    }
  }

  lemma {:induction false} DeleteKeepsCaps(c: Config, ss: Sessions, id: Id)
    requires AllWithinCaps(c, ss)
    ensures AllWithinCaps(c, Delete(ss, id).0)
  {
    if id.0 in ss {
      SmallerKeepsCaps(c, id.0, ss[id.0], ss[id.0] - {id.1});
    }
  }

  lemma {:induction false} SmallerKeepsCaps(c: Config, key: string, km: map<string, Session>, less: map<string, Session>)
    requires WithinCaps(c, key, km)
    requires forall s :: s in less ==> s in km && less[s] == km[s]
    ensures less != map[] ==> WithinCaps(c, key, less)
  {
    SubsetSize(Normal(less), Normal(km));
    SubsetSize(Ips(less), Ips(km));
  }

  /** Deletions count exactly what they delete. */
  lemma {:induction false} DeleteAllCounts(ss: Sessions, ids: seq<Id>)
    ensures var (ss', n) := DeleteAll(ss, ids); |Live(ss')| + n == |Live(ss)|
  {
    if ids == [] {
    } else {
      var init, last := ids[..|ids| - 1], ids[|ids| - 1];
      DeleteAllCounts(ss, init);
      DeleteLive(DeleteAll(ss, init).0, last);
    }
  }

  lemma {:induction false} DeleteAllKeeps(c: Config, ss: Sessions, ids: seq<Id>)
    requires AllWithinCaps(c, ss)
    ensures AllWithinCaps(c, DeleteAll(ss, ids).0)
  {
    if ids == [] {
    } else {
      var init, last := ids[..|ids| - 1], ids[|ids| - 1];
      DeleteAllKeeps(c, ss, init);
      DeleteKeepsCaps(c, DeleteAll(ss, init).0, last);
    }
  }

  lemma {:induction false} CollectedKeepsCaps(c: Config, ss: Sessions, held: set<Id>, now: int)
    requires AllWithinCaps(c, ss)
    ensures AllWithinCaps(c, Collected(c, ss, held, now))
  {
    forall k | k in Collected(c, ss, held, now) ensures WithinCaps(c, k, Collected(c, ss, held, now)[k]) {
      SmallerKeepsCaps(c, k, ss[k], Survivors(c, k, ss[k], held, now));
    }
  }

  // ---- Admitting ----------------------------------------------------------

  lemma {:induction false} GrownLive(ss: Sessions, key: string, sid: string, s: Session)
    ensures Live(Grown(ss, key, sid, s)) == Live(ss) + {(key, sid)}
  {
    var grown := Grown(ss, key, sid, s);
    forall x: Id ensures x in Live(grown) <==> x in Live(ss) + {(key, sid)} {
      assert x in Live(grown) <==> Present(grown, x);
      assert x in Live(ss) <==> Present(ss, x);
    }
  }

  lemma {:induction false} GrowSize(a: set<Id>, x: Id)
    ensures |a + {x}| == |a| + if x in a then 0 else 1
  {
    if x in a { assert a + {x} == a; }
  }

  lemma {:induction false} OpenedLive(ss: Sessions, key: string)
    ensures Live(Opened(ss, key)) == Live(ss)
  {
    forall x: Id ensures x in Live(Opened(ss, key)) <==> x in Live(ss) {
      assert x in Live(Opened(ss, key)) <==> Present(Opened(ss, key), x);
      assert x in Live(ss) <==> Present(ss, x);
    }
  }

  /** The counter side of an admission: one more, for one more live session or for
      one that was live already. */
  lemma {:induction false} AdmitCounts(c: Config, st: State, key: string, sid: string, ip: string, now: int)
    ensures var (st', reason) := Admit(c, st, key, sid, ip, now);
      Excess(st') == Excess(st) + if reason.Admitted? && Present(st.sessions, (key, sid)) then 1 else 0
  {
    var (st', reason) := Admit(c, st, key, sid, ip, now);
    if reason.Admitted? {
      GrownSize(st.sessions, key, sid, Session(ip, now, now, false));
    } else {
      OpenedLive(st.sessions, key);
      assert st'.sessions == st.sessions || st'.sessions == Opened(st.sessions, key);
    }
  }

  lemma {:induction false} GrownSize(ss: Sessions, key: string, sid: string, s: Session)
    ensures |Live(Grown(ss, key, sid, s))| == |Live(ss)| + if Present(ss, (key, sid)) then 0 else 1
  {
    var id := (key, sid);
    GrownLive(ss, key, sid, s);
    GrowSize(Live(ss), id);
    assert id in Live(ss) <==> Present(ss, id);
  }

  lemma {:induction false} AdmitKeepsCount(c: Config, st: State, key: string, sid: string, ip: string, now: int)
    requires Counted(c, st)
    ensures Counted(c, Admit(c, st, key, sid, ip, now).0)
  {
    AdmitCounts(c, st, key, sid, ip, now);
  }

  lemma {:induction false} GrownCaps(c: Config, ss: Sessions, key: string, sid: string, ip: string, now: int)
    requires AllWithinCaps(c, ss)
    requires var l, km := LimitsFor(c, key), KeyMap(ss, key);
      && (l.maxActive > 0 ==> |Normal(km)| < l.maxActive)
      && (l.softIpCap > 0 ==> |Ips(km) + {ip}| <= l.softIpCap)
    ensures AllWithinCaps(c, Grown(ss, key, sid, Session(ip, now, now, false)))
  {
    var km := KeyMap(ss, key);
    var grown := km[sid := Session(ip, now, now, false)];
    assert sid in grown;
    assert Normal(grown) == Normal(km) + {sid};
    assert Ips(grown) <= Ips(km) + {ip};
    SubsetSize(Ips(grown), Ips(km) + {ip});
  }

  /** With no session under the key yet, neither cap can refuse. */
  lemma {:induction false} FirstSessionFits(key: string, ip: string, l: Limits)
    ensures l.maxActive > 0 ==> |Normal(map[])| < l.maxActive
    ensures l.softIpCap > 0 ==> |Ips(map[]) + {ip}| <= l.softIpCap
  {
    assert Normal(map[]) == {} && Ips(map[]) + {ip} == {ip};
  }

  /** A new session fits when the checks passed, and a failed check never leaves an
      empty entry for the key behind. */
  lemma {:induction false} AdmitKeepsCaps(c: Config, st: State, key: string, sid: string, ip: string, now: int)
    requires AllWithinCaps(c, st.sessions)
    ensures AllWithinCaps(c, Admit(c, st, key, sid, ip, now).0.sessions)
  {
    if KeyCheck(LimitsFor(c, key), KeyMap(st.sessions, key), ip).Admitted? {
      GrownCaps(c, st.sessions, key, sid, ip, now);
    } else {
      RefusedOpensNothing(c, st.sessions, key, ip);
    }
  }

  lemma {:induction false} RefusedOpensNothing(c: Config, ss: Sessions, key: string, ip: string)
    requires !KeyCheck(LimitsFor(c, key), KeyMap(ss, key), ip).Admitted?
    ensures key in ss && Opened(ss, key) == ss
  {
    FirstSessionFits(key, ip, LimitsFor(c, key));
  }

  // ---- What each operation does, session by session -----------------------

  datatype Entry = Nothing | Found(session: Session)

  /** What is known about one session. */
  function Lookup(ss: Sessions, id: Id): Entry {
    if Present(ss, id) then Found(ss[id.0][id.1]) else Nothing
  }

  /** The attempts the key's window has counted by now. */
  function Attempts(burst: map<string, Burst>, key: string, now: int): int {
    if key in burst && now - burst[key].since <= MINUTE then burst[key].count else 0
  }

  /** How many sessions of the key are not torrents. */
  function NormalOf(ss: Sessions, key: string): nat {
    |set sid | key in ss && sid in ss[key] && !ss[key][sid].torrent|
  }

  /** How many addresses the key has with this one. */
  function AddressesWith(ss: Sessions, key: string, ip: string): nat {
    |(set sid | key in ss && sid in ss[key] :: ss[key][sid].ip) + {ip}|
  }

  predicate RoomInWindow(l: Limits, burst: map<string, Burst>, key: string, now: int) {
    l.burstPerMinute <= 0 || Attempts(burst, key, now) < l.burstPerMinute
  }

  predicate RoomOnServer(c: Config, total: int) {
    c.defaults.globalCap <= 0 || total < c.defaults.globalCap
  }

  predicate RoomForSession(l: Limits, ss: Sessions, key: string) {
    l.maxActive <= 0 || NormalOf(ss, key) < l.maxActive
  }

  predicate RoomForAddress(l: Limits, ss: Sessions, key: string, ip: string) {
    l.softIpCap <= 0 || AddressesWith(ss, key, ip) <= l.softIpCap
  }

  /** A session is admitted exactly if there is room in the window, on the server and,
      by its own limits or else the default ones, for the key's sessions and
      addresses; a refusal names the first of these that fails. */
  lemma {:induction false} AdmitDecides(c: Config, st: State, key: string, sid: string, ip: string, now: int)
    ensures var l, reason := if key in c.perKey then c.perKey[key] else c.defaults, Admit(c, st, key, sid, ip, now).1;
      var window, server := RoomInWindow(l, st.burst, key, now), RoomOnServer(c, st.total);
      var active, address := RoomForSession(l, st.sessions, key), RoomForAddress(l, st.sessions, key, ip);
      && (reason.Admitted? <==> window && server && active && address)
      && (reason.RateLimit? <==> !window)
      && (reason.GlobalCap? <==> window && !server)
      && (reason.ActiveCap? <==> window && server && !active)
      && (reason.SoftIpCap? <==> window && server && active && !address)
  {
    KeyDecides(if key in c.perKey then c.perKey[key] else c.defaults, st.sessions, key, ip);
  }

  lemma {:induction false} KeyDecides(l: Limits, ss: Sessions, key: string, ip: string)
    ensures KeyCheck(l, KeyMap(ss, key), ip) ==
            if !RoomForSession(l, ss, key) then ActiveCap
            else if !RoomForAddress(l, ss, key, ip) then SoftIpCap else Admitted
  {
    assert Normal(KeyMap(ss, key)) == set s | key in ss && s in ss[key] && !ss[key][s].torrent;
    assert Ips(KeyMap(ss, key)) == set s | key in ss && s in ss[key] :: ss[key][s].ip;
  }

  /** An admission adds this session, counts it, and touches no other; a refusal
      touches none.  Either way a window that counts has counted the attempt, unless
      it was full. */
  lemma {:induction false} AdmitChanges(c: Config, st: State, key: string, sid: string, ip: string, now: int, id: Id)
    ensures var l := if key in c.perKey then c.perKey[key] else c.defaults;
      var (st', reason) := Admit(c, st, key, sid, ip, now);
      && Lookup(st'.sessions, id) ==
         (if reason.Admitted? && id == (key, sid) then Found(Session(ip, now, now, false)) else Lookup(st.sessions, id))
      && st'.total == st.total + (if reason.Admitted? then 1 else 0) && st'.pending == st.pending
      && (l.burstPerMinute > 0 ==> Attempts(st'.burst, key, now) - Attempts(st.burst, key, now) == if reason.RateLimit? then 0 else 1)
  {
  }

  /** A deletion takes away the sessions named and no other. */
  lemma {:induction false} DeleteChanges(ss: Sessions, ids: seq<Id>, id: Id)
    ensures Lookup(DeleteAll(ss, ids).0, id) == if id in ids then Nothing else Lookup(ss, id)
  {
    if ids == [] {
    } else {
      var init, last := ids[..|ids| - 1], ids[|ids| - 1];
      DeleteChanges(ss, init, id);
      DeleteOne(DeleteAll(ss, init).0, last, id);
      assert ids == init + [last];
    }
  }

  lemma {:induction false} DeleteOne(ss: Sessions, gone: Id, id: Id)
    ensures Lookup(Delete(ss, gone).0, id) == if id == gone then Nothing else Lookup(ss, id)
  {
    if Present(ss, gone) && id.0 == gone.0 {
      var km := ss[gone.0] - {gone.1};
      assert id.1 in km <==> id.1 in ss[gone.0] && id.1 != gone.1;
    }
  }

  /** The collection takes away exactly the sessions that have no closer and were not
      seen for longer than their key's time, half an hour by default. */
  lemma {:induction false} CollectChanges(c: Config, ss: Sessions, held: set<Id>, now: int, id: Id)
    ensures var ttl := if id.0 in c.perKey then c.perKey[id.0].ttl else c.defaults.ttl;
      var before, after := Lookup(ss, id), Lookup(Collected(c, ss, held, now), id);
      after == if before.Found? && id !in held && now - before.session.lastSeen > (if ttl > 0 then ttl else 1800)
        then Nothing else before
  {
    if id.0 in ss {
      var km, left := ss[id.0], Survivors(c, id.0, ss[id.0], held, now);
      assert id.1 in left ==> left != map[];
    }
  }

  /** Windows opened more than five minutes ago are dropped, the others stay, and
      that changes no later decision. */
  lemma {:induction false} WindowsForgotten(burst: map<string, Burst>, at: int, key: string, now: int)
    requires at <= now
    ensures Attempts(OpenWindows(burst, at), key, now) == Attempts(burst, key, now)
    ensures var left := OpenWindows(burst, at);
      && (key in left <==> key in burst && at - burst[key].since <= 300)
      && (key in left ==> left[key] == burst[key])
  {
  }

  /** Marking and touching change one field of one live session. */
  lemma {:induction false} MarkChanges(ss: Sessions, marked: Id, id: Id)
    ensures var before := Lookup(ss, id);
      Lookup(Mark(ss, marked), id) ==
      if id == marked && before.Found? then Found(before.session.(torrent := true)) else before
  {
  }

  lemma {:induction false} TouchChanges(ss: Sessions, touched: Id, now: int, id: Id)
    ensures var before := Lookup(ss, id);
      Lookup(Refresh(ss, touched, now), id) ==
      if id == touched && before.Found? then Found(before.session.(lastSeen := now)) else before
  {
  }

  // ---- The reconnect window -----------------------------------------------

  function AfterAttempts(l: Limits, burst: map<string, Burst>, key: string, times: seq<int>): map<string, Burst> {
    if times == [] then burst
    else CountBurst(l, AfterAttempts(l, burst, key, times[..|times| - 1]), key, times[|times| - 1]).0
  }

  /** Within the minute that an attempt opens, exactly the first `burstPerMinute`
      attempts get past the window. */
  lemma {:induction false} WindowIsExact(l: Limits, burst: map<string, Burst>, key: string, times: seq<int>)
    requires l.burstPerMinute > 0 && times != []
    requires key !in burst || times[0] - burst[key].since > MINUTE
    requires forall i :: 0 <= i < |times| ==> times[i] - times[0] <= MINUTE
    ensures var before, last := AfterAttempts(l, burst, key, times[..|times| - 1]), times[|times| - 1];
      CountBurst(l, before, key, last).1 == (|times| <= l.burstPerMinute)
    ensures var after := AfterAttempts(l, burst, key, times);
      key in after && after[key] == Burst(times[0], if |times| < l.burstPerMinute then |times| else l.burstPerMinute)
  {
    if |times| == 1 {
      assert times[..0] == [];
    } else {
      WindowIsExact(l, burst, key, times[..|times| - 1]);
    }
  }

  // ---- Every interleaving -------------------------------------------------

  lemma {:induction false} ReplaceLive(ss: Sessions, id: Id, s: Session)
    requires Present(ss, id)
    ensures Live(Replace(ss, id, s)) == Live(ss)
  {
    assert Replace(ss, id, s) == Grown(ss, id.0, id.1, s);
    GrownLive(ss, id.0, id.1, s);
    assert Live(ss) + {id} == Live(ss);
  }

  lemma {:induction false} ReplaceKeeps(c: Config, ss: Sessions, id: Id, s: Session)
    requires Present(ss, id) && s.ip == ss[id.0][id.1].ip && (ss[id.0][id.1].torrent ==> s.torrent)
    requires AllWithinCaps(c, ss)
    ensures AllWithinCaps(c, Replace(ss, id, s))
  {
    var km := ss[id.0];
    var km' := km[id.1 := s];
    SubsetSize(Normal(km'), Normal(km));
    assert Ips(km') <= Ips(km);
    SubsetSize(Ips(km'), Ips(km));
    assert id.1 in km';
  }

  /** The step admits a session that is live already. */
  predicate Readmits(c: Config, st: State, step: Step) {
    step.AdmitSession? && Present(st.sessions, (step.key, step.sid)) &&
    Admit(c, st, step.key, step.sid, step.ip, step.now).1.Admitted?
  }

  /** Only such an admission moves the counter away from what it counts. */
  lemma {:induction false} StepCounts(c: Config, st: State, step: Step)
    requires step.Decrement? ==> step.i < |st.pending|
    ensures Excess(Apply(c, st, step)) == Excess(st) + if Readmits(c, st, step) then 1 else 0
  {
    match step
    case AdmitSession(key, sid, ip, now) => AdmitCounts(c, st, key, sid, ip, now);
    case DeleteLocked(ids) => DeletesCount(st, ids);
    case CollectGarbage(held, at) =>
      CollectedShrinks(c, st.sessions, held, at);
      OwedAppend(st.pending, |Live(st.sessions)| - |Live(Collected(c, st.sessions, held, at))|);
    case MarkTorrent(id) => MarkLive(st.sessions, id);
    case Touch(id, when) => RefreshLive(st.sessions, id, when);
    case Decrement(i) => OwedRemove(st.pending, i);
  }

  lemma {:induction false} DeletesCount(st: State, ids: seq<Id>)
    ensures var (ss, n) := DeleteAll(st.sessions, ids);
      Excess(st.(sessions := ss, pending := st.pending + [n])) == Excess(st)
  {
    DeleteAllCounts(st.sessions, ids);
    OwedAppend(st.pending, DeleteAll(st.sessions, ids).1);
  }

  lemma {:induction false} MarkLive(ss: Sessions, id: Id)
    ensures Live(Mark(ss, id)) == Live(ss)
  {
    if Present(ss, id) {
      ReplaceLive(ss, id, ss[id.0][id.1].(torrent := true));
    }
  }

  lemma {:induction false} RefreshLive(ss: Sessions, id: Id, when: int)
    ensures Live(Refresh(ss, id, when)) == Live(ss)
  {
    if Present(ss, id) {
      ReplaceLive(ss, id, ss[id.0][id.1].(lastSeen := when));
    }
  }

  /** Every step keeps every key within its caps. */
  lemma {:induction false} StepKeepsCaps(c: Config, st: State, step: Step)
    requires AllWithinCaps(c, st.sessions) && (step.Decrement? ==> step.i < |st.pending|)
    ensures AllWithinCaps(c, Apply(c, st, step).sessions)
  {
    match step
    case AdmitSession(key, sid, ip, now) => AdmitKeepsCaps(c, st, key, sid, ip, now);
    case DeleteLocked(ids) => DeleteAllKeeps(c, st.sessions, ids);
    case CollectGarbage(held, at) => CollectedKeepsCaps(c, st.sessions, held, at);
    case MarkTorrent(id) =>
      if Present(st.sessions, id) {
        ReplaceKeeps(c, st.sessions, id, st.sessions[id.0][id.1].(torrent := true));
      }
    case Touch(id, when) =>
      if Present(st.sessions, id) {
        ReplaceKeeps(c, st.sessions, id, st.sessions[id.0][id.1].(lastSeen := when));
      }
    case Decrement(i) =>
  }

  /** Nothing but an admission raises the counter, and that checks the cap. */
  lemma {:induction false} StepKeepsTotal(c: Config, st: State, step: Step)
    requires step.Decrement? ==> step.i < |st.pending|
    requires c.defaults.globalCap > 0 ==> st.total <= c.defaults.globalCap
    ensures c.defaults.globalCap > 0 ==> Apply(c, st, step).total <= c.defaults.globalCap
  {
  }

  lemma {:induction false} StepKeepsInv(c: Config, st: State, step: Step)
    requires Inv(c, st) && (step.Decrement? ==> step.i < |st.pending|)
    ensures Inv(c, Apply(c, st, step))
  {
    StepCounts(c, st, step);
    StepKeepsCaps(c, st, step);
    StepKeepsTotal(c, st, step);
  }

  ghost predicate Reaches(c: Config, st: State, steps: seq<Step>, end: State)
    decreases |steps|
  {
    if steps == [] then st == end
    else
      (steps[0].Decrement? ==> steps[0].i < |st.pending|) &&
      Reaches(c, Apply(c, st, steps[0]), steps[1..], end)
  }

  lemma {:induction false} RunKeepsInv(c: Config, st: State, steps: seq<Step>, end: State)
    requires Inv(c, st) && Reaches(c, st, steps, end)
    ensures Inv(c, end)
    decreases |steps|
  {
    if steps == [] {
    } else {
      StepKeepsInv(c, st, steps[0]);
      RunKeepsInv(c, Apply(c, st, steps[0]), steps[1..], end);
    }
  }

  const EMPTY := State(map[], map[], 0, [])

  /** No admission of the run is of a session that is live at that moment. */
  ghost predicate NoReadmission(c: Config, st: State, steps: seq<Step>)
    decreases |steps|
  {
    steps == [] ||
    ((steps[0].Decrement? ==> steps[0].i < |st.pending|) &&
     !Readmits(c, st, steps[0]) && NoReadmission(c, Apply(c, st, steps[0]), steps[1..]))
  }

  lemma {:induction false} RunCounts(c: Config, st: State, steps: seq<Step>, end: State)
    requires Reaches(c, st, steps, end)
    ensures Excess(end) >= Excess(st)
    ensures Excess(end) == Excess(st) <==> NoReadmission(c, st, steps)
    decreases |steps|
  {
    if steps == [] {
    } else {
      StepCounts(c, st, steps[0]);
      RunCounts(c, Apply(c, st, steps[0]), steps[1..], end);
    }
  }

  /** In every interleaving the live sessions never exceed the global cap, each key
      stays within its caps, no key is left without sessions, and the counter is
      the live sessions plus the decrements still owed exactly when no admission
      of the run was of a session live at that moment. */
  lemma {:induction false} EveryRun(c: Config, steps: seq<Step>, end: State)
    requires Reaches(c, EMPTY, steps, end)
    ensures c.defaults.globalCap > 0 ==> |Live(end.sessions)| <= c.defaults.globalCap
    ensures AllWithinCaps(c, end.sessions)
    ensures end.total == |Live(end.sessions)| + Owed(end.pending) <==> NoReadmission(c, EMPTY, steps)
  {
    assert Live(map[]) == {};
    RunKeepsInv(c, EMPTY, steps, end);
    RunCounts(c, EMPTY, steps, end);
  }

  const UNLIMITED := Config(Limits(0, 0, 0, 0, 0), map[])

  /** Admitting one id twice counts it twice: two by the counter, one live session,
      nothing owed. */
  lemma {:induction false} DoubleAdmission(key: string, sid: string, ip: string, now: int, later: int)
    ensures var once := Apply(UNLIMITED, EMPTY, AdmitSession(key, sid, ip, now));
      var twice := Apply(UNLIMITED, once, AdmitSession(key, sid, ip, later));
      twice.total == 2 && Live(twice.sessions) == {(key, sid)} && twice.pending == []
  {
    var once := Apply(UNLIMITED, EMPTY, AdmitSession(key, sid, ip, now));
    var twice := Apply(UNLIMITED, once, AdmitSession(key, sid, ip, later));
    var s, t := Session(ip, now, now, false), Session(ip, later, later, false);
    assert KeyCheck(UNLIMITED.defaults, map[], ip).Admitted? && KeyCheck(UNLIMITED.defaults, map[sid := s], ip).Admitted?;
    assert once.sessions == Grown(map[], key, sid, s) == map[key := map[sid := s]];
    assert KeyMap(once.sessions, key) == map[sid := s] && map[sid := s][sid := t] == map[sid := t];
    assert twice.sessions == Grown(once.sessions, key, sid, t) == map[key := map[sid := t]];
    assert Live(twice.sessions) == {(key, sid)};
  }
}
