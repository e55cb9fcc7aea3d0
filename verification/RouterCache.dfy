/** The routing engine of `core/router`: first matching rule by priority, with a
    cache keyed by the destination address that every rule edit empties. */
module RouterCache {
  import opened Lists
  import opened Wrappers

  /** `net.TCPAddr` or `net.UDPAddr`. */
  datatype Sock = Sock(udp: bool, ip: nat, port: int)
  datatype Packet = Packet(dst: Option<Sock>, src: Option<Sock>, session: nat)

  /** A rule condition: the field it reads, and its operator and value as the test
      they stand for. */
  datatype Condition =
    | DstIp(ip: nat -> bool) | SrcIp(ip: nat -> bool)
    | DstPort(port: int -> bool) | SrcPort(port: int -> bool)
    | SessionId(id: nat -> bool) | Unsupported

  datatype Destination = Destination(kind: nat, tag: string)
  datatype Rule = Rule(id: string, priority: int, conditions: seq<Condition>, dest: Destination)

  predicate Holds(c: Condition, p: Packet) {
    match c
    case DstIp(f) => p.dst.Some? && f(p.dst.value.ip)
    case SrcIp(f) => p.src.Some? && f(p.src.value.ip)
    case DstPort(f) => p.dst.Some? && f(p.dst.value.port)
    case SrcPort(f) => p.src.Some? && f(p.src.value.port)
    case SessionId(f) => f(p.session)
    case Unsupported => false
  }

  /** What each condition reads: an address or a port of its own end, whichever the
      transport, or the session; an end with no such address fails its conditions. */
  lemma {:induction false} ConditionReads(ip: nat -> bool, port: int -> bool, here: Sock, other: Option<Sock>, session: nat)
    ensures var to, from := Packet(Some(here), other, session), Packet(other, Some(here), session);
      && Holds(DstIp(ip), to) == Holds(SrcIp(ip), from) == ip(here.ip)
      && Holds(DstPort(port), to) == Holds(SrcPort(port), from) == port(here.port)
      && Holds(SessionId(ip), to) == Holds(SessionId(ip), from) == ip(session)
      && !Holds(Unsupported, to) && !Holds(Unsupported, from)
    ensures var to, from := Packet(None, other, session), Packet(other, None, session);
      && !Holds(DstIp(ip), to) && !Holds(DstPort(port), to)
      && !Holds(SrcIp(ip), from) && !Holds(SrcPort(port), from)
  {
  }

  predicate Matches(r: Rule, p: Packet) {
    forall i :: 0 <= i < |r.conditions| ==> Holds(r.conditions[i], p)
  }

  /** The uncached scan. */
  function Scan(rules: seq<Rule>, otherwise: Destination, p: Packet): Destination {
    if rules == [] then otherwise
    else if Matches(rules[0], p) then rules[0].dest
    else Scan(rules[1..], otherwise, p)
  }

  // ---- The cache ----------------------------------------------------------

  /** The printed form of the destination address: it does not tell TCP from UDP. */
  type CacheKey = (nat, int)

  function KeyOf(a: Sock): CacheKey {
    (a.ip, a.port)
  }

  predicate SameKey(p: Packet, q: Packet) {
    p.dst.Some? && q.dst.Some? && KeyOf(p.dst.value) == KeyOf(q.dst.value)
  }

  datatype Engine = Engine(rules: seq<Rule>, otherwise: Destination, cache: map<CacheKey, Destination>)

  datatype Op =
    | Route(p: Packet)
    | Edit(rules: seq<Rule>)       // AddRule, RemoveRule and UpdateRules that succeed
    | Evict(key: CacheKey)         // the LRU drops an entry

  function RouteCached(e: Engine, p: Packet): (Engine, Destination) {
    if p.dst.None? then (e, Scan(e.rules, e.otherwise, p))
    else
      var k := KeyOf(p.dst.value);
      if k in e.cache then (e, e.cache[k])
      else
        var d := Scan(e.rules, e.otherwise, p);
        (e.(cache := e.cache[k := d]), d)
  }

  ghost function Apply(e: Engine, op: Op): Engine {
    match op
    case Route(p) => RouteCached(e, p).0
    case Edit(rules) => Engine(rules, e.otherwise, map[])
    case Evict(key) => e.(cache := e.cache - {key})
  }

  ghost function After(e: Engine, ops: seq<Op>): Engine {
    if ops == [] then e else Apply(After(e, ops[..|ops| - 1]), ops[|ops| - 1])
  }

  /** The scan gives packets with the same cache key the same destination. */
  ghost predicate KeyDecides(rules: seq<Rule>, otherwise: Destination) {
    forall p, q :: SameKey(p, q) ==> Scan(rules, otherwise, p) == Scan(rules, otherwise, q)
  }

  // ---- Reading the condition off the fields --------------------------------

  /** What a condition looks at. */
  datatype Field = OnDstIp | OnSrcIp | OnDstPort | OnSrcPort | OnSession | OnOther

  function FieldOf(c: Condition): Field {
    match c
    case DstIp(_) => OnDstIp
    case SrcIp(_) => OnSrcIp
    case DstPort(_) => OnDstPort
    case SrcPort(_) => OnSrcPort
    case SessionId(_) => OnSession
    case Unsupported => OnOther
  }

  predicate InCacheKey(f: Field) {
    f.OnDstIp? || f.OnDstPort?
  }

  /** No condition of the rule is unsupported, so it can match. */
  predicate CanMatch(r: Rule) {
    forall j :: 0 <= j < |r.conditions| ==> !FieldOf(r.conditions[j]).OnOther?
  }

  predicate ReadsDestination(r: Rule) {
    forall j :: 0 <= j < |r.conditions| ==> InCacheKey(FieldOf(r.conditions[j]))
  }

  /** No rule before `i` matches everything. */
  predicate Reachable(rules: seq<Rule>, i: nat)
    requires i <= |rules|
  {
    forall h :: 0 <= h < i ==> rules[h].conditions != []
  }

  /** Every rule that can match, and is not behind an unconditional one, looks at
      the destination only. */
  predicate Safe(rules: seq<Rule>) {
    forall i :: 0 <= i < |rules| && CanMatch(rules[i]) && Reachable(rules, i) ==> ReadsDestination(rules[i])
  }

  lemma {:induction false} SafeTail(rules: seq<Rule>)
    requires Safe(rules) && rules != [] && rules[0].conditions != []
    ensures Safe(rules[1..])
  {
    var rest := rules[1..];
    forall i | 0 <= i < |rest| && CanMatch(rest[i]) && Reachable(rest, i) ensures ReadsDestination(rest[i]) {
      forall h | 0 <= h < i + 1 ensures rules[h].conditions != [] {
        assert h > 0 ==> rules[h] == rest[h - 1];
      }
      assert rest[i] == rules[i + 1] && Reachable(rules, i + 1);
    }
  }

  /** A rule that looks at the destination only, or cannot match, does not tell
      packets of one key apart. */
  lemma {:induction false} SameKeySameMatch(r: Rule, p: Packet, q: Packet)
    requires SameKey(p, q) && (CanMatch(r) ==> ReadsDestination(r))
    ensures Matches(r, p) == Matches(r, q)
  {
    if CanMatch(r) {
      forall j | 0 <= j < |r.conditions| ensures Holds(r.conditions[j], p) == Holds(r.conditions[j], q) {
        assert InCacheKey(FieldOf(r.conditions[j]));
      }
    } else {
      var j :| 0 <= j < |r.conditions| && FieldOf(r.conditions[j]).OnOther?;
      assert !Holds(r.conditions[j], p) && !Holds(r.conditions[j], q);
    }
  }

  lemma {:induction false} SameKeySameScan(rules: seq<Rule>, otherwise: Destination, p: Packet, q: Packet)
    requires Safe(rules) && SameKey(p, q)
    ensures Scan(rules, otherwise, p) == Scan(rules, otherwise, q)
  {
    if rules == [] {
    } else {
      assert Reachable(rules, 0);
      SameKeySameMatch(rules[0], p, q);
      if rules[0].conditions != [] {
        SafeTail(rules);
        SameKeySameScan(rules[1..], otherwise, p, q);
      }
    }
  }

  lemma {:induction false} SafeDecides(rules: seq<Rule>, otherwise: Destination)
    requires Safe(rules)
    ensures KeyDecides(rules, otherwise)
  {
    forall p, q | SameKey(p, q)
      ensures Scan(rules, otherwise, p) == Scan(rules, otherwise, q)
    {
      SameKeySameScan(rules, otherwise, p, q);
    }
  }

  // ---- The cache tells the truth ------------------------------------------

  ghost predicate Truthful(e: Engine) {
    forall p: Packet {:trigger Scan(e.rules, e.otherwise, p)} ::
      p.dst.Some? && KeyOf(p.dst.value) in e.cache ==>
      e.cache[KeyOf(p.dst.value)] == Scan(e.rules, e.otherwise, p)
  }

  /** Every rule list of the run lets the key decide. */
  ghost predicate Decided(e: Engine, ops: seq<Op>) {
    KeyDecides(e.rules, e.otherwise) &&
    forall i :: 0 <= i < |ops| && ops[i].Edit? ==> KeyDecides(ops[i].rules, e.otherwise)
  }

  lemma {:induction false} RunTruthful(e: Engine, ops: seq<Op>)
    requires Truthful(e) && Decided(e, ops)
    ensures Truthful(After(e, ops)) && KeyDecides(After(e, ops).rules, e.otherwise) && After(e, ops).otherwise == e.otherwise
  {
    if ops == [] {
    } else {
      var init, last := ops[..|ops| - 1], ops[|ops| - 1];
      assert Decided(e, init);
      RunTruthful(e, init);
      ApplyTruthful(After(e, init), last);
    }
  }

  lemma {:induction false} ApplyTruthful(e: Engine, op: Op)
    requires Truthful(e) && KeyDecides(e.rules, e.otherwise)
    ensures Truthful(Apply(e, op))
  {
    if op.Route? && op.p.dst.Some? {
      var k := KeyOf(op.p.dst.value);
      var e' := Apply(e, op);
      forall q: Packet | q.dst.Some? && KeyOf(q.dst.value) in e'.cache
        ensures e'.cache[KeyOf(q.dst.value)] == Scan(e.rules, e.otherwise, q)
      {
        assert SameKey(op.p, q) || KeyOf(q.dst.value) != k;
      }
    }
  }

  /** In every run of routings, rule edits and evictions, with safe rule lists, a
      cached answer is what the scan of the current rules would say, default answers
      included. */
  lemma {:induction false} CachedIsUncached(otherwise: Destination, ops: seq<Op>, p: Packet)
    requires forall i :: 0 <= i < |ops| && ops[i].Edit? ==> Safe(ops[i].rules)
    ensures var e := After(Engine([], otherwise, map[]), ops);
      RouteCached(e, p).1 == Scan(e.rules, otherwise, p)
  {
    RunIsRight([], otherwise, ops, p);
  }

  lemma {:induction false} RunIsRight(rules: seq<Rule>, otherwise: Destination, ops: seq<Op>, p: Packet)
    requires Safe(rules) && forall i :: 0 <= i < |ops| && ops[i].Edit? ==> Safe(ops[i].rules)
    ensures var e := After(Engine(rules, otherwise, map[]), ops);
      RouteCached(e, p).1 == Scan(e.rules, otherwise, p)
  {
    var start := Engine(rules, otherwise, map[]);
    SafeDecides(rules, otherwise);
    forall i | 0 <= i < |ops| && ops[i].Edit? ensures KeyDecides(ops[i].rules, otherwise) {
      SafeDecides(ops[i].rules, otherwise);
    }
    RunTruthful(start, ops);
    var e := After(start, ops);
    assert p.dst.Some? && KeyOf(p.dst.value) in e.cache ==> e.cache[KeyOf(p.dst.value)] == Scan(e.rules, e.otherwise, p);
  }

  // ---- The condition is exact ---------------------------------------------

  /** The same rules up to operators, values and destinations: same ids, priorities
      and fields. */
  predicate Variant(rules: seq<Rule>, other: seq<Rule>) {
    |rules| == |other| && forall i :: 0 <= i < |rules| ==> SameFields(rules[i], other[i])
  }

  predicate SameFields(r: Rule, s: Rule) {
    && r.id == s.id && r.priority == s.priority && |r.conditions| == |s.conditions|
    && forall j :: 0 <= j < |r.conditions| ==> FieldOf(r.conditions[j]) == FieldOf(s.conditions[j])
  }

  /** Whatever is routed and evicted first, every packet is routed as the scan would. */
  ghost predicate AlwaysRight(rules: seq<Rule>, otherwise: Destination) {
    forall ops, p :: NoEdits(ops) ==> RightAfter(rules, otherwise, ops, p)
  }

  predicate NoEdits(ops: seq<Op>) {
    forall i :: 0 <= i < |ops| ==> !ops[i].Edit?
  }

  ghost predicate RightAfter(rules: seq<Rule>, otherwise: Destination, ops: seq<Op>, p: Packet) {
    RouteCached(After(Engine(rules, otherwise, map[]), ops), p).1 == Scan(rules, otherwise, p)
  }

  /** The fields alone decide: the cache is right for every choice of operators,
      values and destinations precisely when the rules are safe. */
  lemma {:induction false} CacheRightIffSafe(rules: seq<Rule>)
    ensures Safe(rules) <==> forall other, otherwise :: Variant(rules, other) ==> AlwaysRight(other, otherwise)
  {
    if Safe(rules) {
      forall other, otherwise | Variant(rules, other) ensures AlwaysRight(other, otherwise) {
        VariantSafe(rules, other);
        SafeIsRight(other, otherwise);
      }
    } else {
      var i :| 0 <= i < |rules| && CanMatch(rules[i]) && Reachable(rules, i) && !ReadsDestination(rules[i]);
      UnsafeGoesStale(rules, i);
    }
  }

  lemma {:induction false} VariantSafe(rules: seq<Rule>, other: seq<Rule>)
    requires Safe(rules) && Variant(rules, other)
    ensures Safe(other)
  {
    forall i | 0 <= i < |other| && CanMatch(other[i]) && Reachable(other, i) ensures ReadsDestination(other[i]) {
      assert SameFields(rules[i], other[i]);
      forall h | 0 <= h < i ensures rules[h].conditions != [] {
        assert SameFields(rules[h], other[h]);
      }
      assert CanMatch(rules[i]) && Reachable(rules, i);
    }
  }

  lemma {:induction false} SafeIsRight(rules: seq<Rule>, otherwise: Destination)
    requires Safe(rules)
    ensures AlwaysRight(rules, otherwise)
  {
    forall ops, p | NoEdits(ops) ensures RightAfter(rules, otherwise, ops, p) {
      RunIsRight(rules, otherwise, ops, p);
      RulesStay(Engine(rules, otherwise, map[]), ops);
    }
  }

  lemma {:induction false} RulesStay(e: Engine, ops: seq<Op>)
    requires NoEdits(ops)
    ensures After(e, ops).rules == e.rules && After(e, ops).otherwise == e.otherwise
  {
    if ops == [] {
    } else {
      RulesStay(e, ops[..|ops| - 1]);
    }
  }

  const HERE := Destination(0, "a")
  const THERE := Destination(1, "b")

  /** Two packets to one destination that differ in everything else. */
  function Probe(n: nat): Packet {
    Packet(Some(Sock(false, 9, 80)), Some(Sock(false, n, n + 100)), n + 200)
  }

  /** A condition on the field that holds for `Probe(1)`, and for `Probe(2)` only
      where both have the same. */
  function Telling(f: Field): Condition {
    match f
    case OnDstIp => DstIp(_ => true)
    case OnSrcIp => SrcIp(ip => ip == 1)
    case OnDstPort => DstPort(_ => true)
    case OnSrcPort => SrcPort(port => port == 101)
    case OnSession => SessionId(id => id == 201)
    case OnOther => Unsupported
  }

  /** A condition on the field that never holds. */
  function Refusing(f: Field): Condition {
    match f
    case OnDstIp => DstIp(_ => false)
    case OnSrcIp => SrcIp(_ => false)
    case OnDstPort => DstPort(_ => false)
    case OnSrcPort => SrcPort(_ => false)
    case OnSession => SessionId(_ => false)
    case OnOther => Unsupported
  }

  function Test(f: Field, telling: bool): Condition {
    if telling then Telling(f) else Refusing(f)
  }

  lemma {:induction false} TestFacts(f: Field, telling: bool)
    ensures FieldOf(Test(f, telling)) == f
    ensures Holds(Test(f, telling), Probe(1)) <==> telling && !f.OnOther?
    ensures Holds(Test(f, telling), Probe(2)) <==> telling && InCacheKey(f)
  {
  }

  function Retested(r: Rule, telling: bool, dest: Destination): Rule {
    r.(conditions := seq(|r.conditions|, j requires 0 <= j < |r.conditions| => Test(FieldOf(r.conditions[j]), telling)),
       dest := dest)
  }

  lemma {:induction false} RetestedFields(r: Rule, telling: bool, dest: Destination)
    ensures SameFields(r, Retested(r, telling, dest))
  {
    var s := Retested(r, telling, dest);
    forall j | 0 <= j < |r.conditions| ensures FieldOf(r.conditions[j]) == FieldOf(s.conditions[j]) {
      TestFacts(FieldOf(r.conditions[j]), telling);
    }
  }

  lemma {:induction false} RefusingRule(r: Rule, dest: Destination)
    requires r.conditions != []
    ensures !Matches(Retested(r, false, dest), Probe(1))
  {
    TestFacts(FieldOf(r.conditions[0]), false);
    assert !Holds(Retested(r, false, dest).conditions[0], Probe(1));
  }

  lemma {:induction false} TellingRule(r: Rule, dest: Destination)
    requires CanMatch(r) && !ReadsDestination(r)
    ensures Matches(Retested(r, true, dest), Probe(1)) && !Matches(Retested(r, true, dest), Probe(2))
  {
    var s := Retested(r, true, dest);
    forall j | 0 <= j < |s.conditions| ensures Holds(s.conditions[j], Probe(1)) {
      TestFacts(FieldOf(r.conditions[j]), true);
    }
    var j :| 0 <= j < |r.conditions| && !InCacheKey(FieldOf(r.conditions[j]));
    TestFacts(FieldOf(r.conditions[j]), true);
    assert !Holds(s.conditions[j], Probe(2));
  }

  /** Rule `i` tells the probes apart, and no rule before it matches. */
  function Spoiled(rules: seq<Rule>, i: nat): seq<Rule>
    requires i < |rules|
  {
    seq(|rules|, k requires 0 <= k < |rules| =>
      if k == i then Retested(rules[k], true, THERE) else Retested(rules[k], false, HERE))
  }

  /** A reachable rule that looks past the destination makes the cache wrong for
      some choice of tests: after one routed packet, the next gets its answer. */
  lemma {:induction false} UnsafeGoesStale(rules: seq<Rule>, i: nat)
    requires i < |rules| && CanMatch(rules[i]) && Reachable(rules, i) && !ReadsDestination(rules[i])
    ensures Variant(rules, Spoiled(rules, i))
    ensures !RightAfter(Spoiled(rules, i), HERE, [Route(Probe(1))], Probe(2))
    ensures !AlwaysRight(Spoiled(rules, i), HERE)
  {
    var other := Spoiled(rules, i);
    forall k | 0 <= k < |rules| ensures SameFields(rules[k], other[k]) {
      RetestedFields(rules[k], k == i, if k == i then THERE else HERE);
    }
    SpoiledMatches(rules, i);
    ScanAt(other, HERE, Probe(1), i);
    ScanDefault(other, HERE, Probe(2));
    OneRoute(Engine(other, HERE, map[]), Probe(1));
    assert NoEdits([Route(Probe(1))]);
  }

  lemma {:induction false} OneRoute(e: Engine, p: Packet)
    ensures After(e, [Route(p)]) == RouteCached(e, p).0
  {
    assert [Route(p)][..0] == [] && After(e, []) == e;
  }

  lemma {:induction false} SpoiledMatches(rules: seq<Rule>, i: nat)
    requires i < |rules| && CanMatch(rules[i]) && Reachable(rules, i) && !ReadsDestination(rules[i])
    ensures var other := Spoiled(rules, i);
      && Matches(other[i], Probe(1)) && (forall h :: 0 <= h < i ==> !Matches(other[h], Probe(1)))
      && forall k :: 0 <= k < |other| ==> Matches(other[k], Probe(2)) ==> other[k].dest == HERE
  {
    var other := Spoiled(rules, i);
    TellingRule(rules[i], THERE);
    forall h | 0 <= h < i ensures !Matches(other[h], Probe(1)) {
      RefusingRule(rules[h], HERE);
    }
  }

  lemma {:induction false} ScanAt(rules: seq<Rule>, otherwise: Destination, p: Packet, i: nat)
    requires i < |rules| && Matches(rules[i], p) && forall h :: 0 <= h < i ==> !Matches(rules[h], p)
    ensures Scan(rules, otherwise, p) == rules[i].dest
  {
    if i == 0 {
    } else {
      assert !Matches(rules[0], p);
      forall h | 0 <= h < i - 1 ensures !Matches(rules[1..][h], p) {
        assert rules[1..][h] == rules[h + 1];
      }
      ScanAt(rules[1..], otherwise, p, i - 1);
    }
  }

  lemma {:induction false} ScanDefault(rules: seq<Rule>, otherwise: Destination, p: Packet)
    requires forall k :: 0 <= k < |rules| ==> Matches(rules[k], p) ==> rules[k].dest == otherwise
    ensures Scan(rules, otherwise, p) == otherwise
  {
    if rules == [] {
    } else {
      forall k | 0 <= k < |rules[1..]| ensures Matches(rules[1..][k], p) ==> rules[1..][k].dest == otherwise {
        assert rules[1..][k] == rules[k + 1];
      }
      ScanDefault(rules[1..], otherwise, p);
    }
  }

  /** One rule on the source address is enough: having routed a packet from 1, the
      engine sends a packet from 2 the same way, against its own rules. */
  lemma {:induction false} SourceRuleGoesStale(id: string, priority: int)
    ensures var rules := [Rule(id, priority, [SrcIp(ip => ip == 1)], THERE)];
      var e := RouteCached(Engine(rules, HERE, map[]), Probe(1)).0;
      RouteCached(e, Probe(2)).1 == THERE && Scan(rules, HERE, Probe(2)) == HERE
  {
    var rules := [Rule(id, priority, [SrcIp(ip => ip == 1)], THERE)];
    assert Holds(rules[0].conditions[0], Probe(1)) && !Holds(rules[0].conditions[0], Probe(2));
    ScanAt(rules, HERE, Probe(1), 0);
    ScanDefault(rules, HERE, Probe(2));
  }

  // ---- The engine object --------------------------------------------------

  ghost predicate ByPriority(rules: seq<Rule>) {
    forall i, j :: 0 <= i < j < |rules| ==> rules[i].priority >= rules[j].priority
  }

  /** `sort.Slice` by descending priority; rules of equal priority may end up in
      any order, and here they keep theirs. */
  method SortRules(rules: seq<Rule>) returns (sorted: seq<Rule>)
    ensures ByPriority(sorted) && multiset(sorted) == multiset(rules)
  {
    sorted := [];
    for i := 0 to |rules|
      invariant ByPriority(sorted) && multiset(sorted) == multiset(rules[..i])
    {
      assert rules[..i + 1] == rules[..i] + [rules[i]];
      sorted := InsertRule(sorted, rules[i]);
    }
    assert rules[..|rules|] == rules;
  }

  method InsertRule(sorted: seq<Rule>, r: Rule) returns (grown: seq<Rule>)
    requires ByPriority(sorted)
    ensures ByPriority(grown) && multiset(grown) == multiset(sorted) + multiset{r}
  {
    var p := |sorted|;
    while p > 0 && sorted[p - 1].priority < r.priority
      invariant 0 <= p <= |sorted|
      invariant forall j :: p <= j < |sorted| ==> sorted[j].priority < r.priority
    {
      p := p - 1;
    }
    InsertedCounts(sorted, p, r);
    grown := sorted[..p] + [r] + sorted[p..];
  }

  function Ids(rules: seq<Rule>): set<string> {
    set i | 0 <= i < |rules| :: rules[i].id
  }

  class Router {
    const otherwise: Destination
    const maxRules: nat
    var rules: seq<Rule>
    var cache: map<CacheKey, Destination>

    ghost function Value(): Engine
      reads this
    {
      Engine(rules, otherwise, cache)
    }

    constructor (otherwise: Destination, maxRules: nat)
      ensures Value() == Engine([], otherwise, map[]) && this.maxRules == maxRules
    {
      this.otherwise, this.maxRules := otherwise, maxRules;
      rules, cache := [], map[];
    }

    method RoutePacket(p: Packet) returns (d: Destination)
      modifies this`cache
      ensures (Value(), d) == RouteCached(old(Value()), p)
    {
      if p.dst.Some? && KeyOf(p.dst.value) in cache {
        return cache[KeyOf(p.dst.value)];
      }
      d := FirstMatch(rules, otherwise, p);
      if p.dst.Some? {
        cache := cache[KeyOf(p.dst.value) := d];
      }
    }

    method AddRule(rule: Rule) returns (ok: bool)
      modifies this`rules, this`cache
      ensures ok == (rule.id != "" && rule.id !in Ids(old(rules)) && |old(rules)| < maxRules)
      ensures !ok ==> Value() == old(Value())
      ensures ok ==> Value() == Apply(old(Value()), Edit(rules)) && ByPriority(rules)
      ensures ok ==> multiset(rules) == multiset(old(rules)) + multiset{rule}
    {
      if rule.id == "" || rule.id in Ids(rules) || |rules| >= maxRules {
        return false;
      }
      rules := SortRules(rules + [rule]);
      cache := map[];
      return true;
    }

    method RemoveRule(id: string) returns (ok: bool)
      modifies this`rules, this`cache
      ensures ok == (id in Ids(old(rules)))
      ensures !ok ==> Value() == old(Value())
      ensures ok ==> Value() == Apply(old(Value()), Edit(Without(old(rules), id)))
      ensures ByPriority(old(rules)) ==> ByPriority(rules)
    {
      if id !in Ids(rules) {
        return false;
      }
      if ByPriority(rules) {
        WithoutKeepsOrder(rules, id);
      }
      rules := DropRule(rules, id);
      cache := map[];
      return true;
    }

    method UpdateRules(incoming: seq<Rule>) returns (ok: bool)
      modifies this`rules, this`cache
      ensures ok == ("" !in Ids(incoming) && |Ids(incoming)| == |incoming|)
      ensures !ok ==> Value() == old(Value())
      ensures ok ==> Value() == Apply(old(Value()), Edit(rules)) && ByPriority(rules) && multiset(rules) == multiset(incoming)
    {
      ok := CheckIds(incoming);
      if ok {
        rules := SortRules(incoming);
        cache := map[];
      }
    }
  }

  method FirstMatch(rules: seq<Rule>, otherwise: Destination, p: Packet) returns (d: Destination)
    ensures d == Scan(rules, otherwise, p)
  {
    assert rules[0..] == rules;
    for i := 0 to |rules|
      invariant Scan(rules[i..], otherwise, p) == Scan(rules, otherwise, p)
    {
      assert rules[i..][0] == rules[i] && rules[i..][1..] == rules[i + 1..];
      if Matches(rules[i], p) {
        return rules[i].dest;
      }
    }
    return otherwise;
  }

  function Without(rules: seq<Rule>, id: string): seq<Rule> {
    if rules == [] then []
    else Without(rules[..|rules| - 1], id) + if rules[|rules| - 1].id == id then [] else [rules[|rules| - 1]]
  }

  /** `left` is the rules at these places, in order. */
  ghost predicate Picked(left: seq<Rule>, rules: seq<Rule>, at: seq<nat>) {
    && |left| == |at| && (forall k :: 0 <= k < |at| ==> at[k] < |rules| && left[k] == rules[at[k]])
    && (forall j, k :: 0 <= j < k < |at| ==> at[j] < at[k])
  }

  ghost predicate OtherIds(rules: seq<Rule>, id: string, at: seq<nat>) {
    forall i: nat :: i < |rules| ==> (i in at <==> rules[i].id != id)
  }

  /** What is left, and where it stood: exactly the rules with another id, in order. */
  lemma {:induction false} WithoutIs(rules: seq<Rule>, id: string) returns (at: seq<nat>)
    ensures Picked(Without(rules, id), rules, at) && OtherIds(rules, id, at)
  {
    if rules == [] {
      at := [];
    } else {
      var last := |rules| - 1;
      var front := WithoutIs(rules[..last], id);
      at := front + if rules[last].id == id then [] else [last];
      PickedMore(Without(rules[..last], id), rules, front);
      OneMoreId(rules, id, front);
    }
  }

  lemma {:induction false} PickedMore(left: seq<Rule>, rules: seq<Rule>, front: seq<nat>)
    requires rules != [] && Picked(left, rules[..|rules| - 1], front)
    ensures Picked(left, rules, front) && Picked(left + [rules[|rules| - 1]], rules, front + [|rules| - 1])
  {
  }

  lemma {:induction false} OneMoreId(rules: seq<Rule>, id: string, front: seq<nat>)
    requires rules != [] && OtherIds(rules[..|rules| - 1], id, front) && forall i :: i in front ==> i < |rules| - 1
    ensures OtherIds(rules, id, front + if rules[|rules| - 1].id == id then [] else [|rules| - 1])
  {
    var last := |rules| - 1;
    var at := front + if rules[last].id == id then [] else [last];
    forall i: nat | i < |rules| ensures i in at <==> rules[i].id != id {
      if i < last {
        assert rules[..last][i] == rules[i];
      }
    }
  }

  lemma {:induction false} WithoutKeepsOrder(rules: seq<Rule>, id: string)
    requires ByPriority(rules)
    ensures ByPriority(Without(rules, id))
  {
    var at := WithoutIs(rules, id);
  }

  /** Of the rules with another id, rule `i` is the first to match. */
  ghost predicate FirstLeft(rules: seq<Rule>, id: string, p: Packet, i: nat) {
    && i < |rules| && rules[i].id != id && Matches(rules[i], p)
    && forall h: nat :: h < i && rules[h].id != id ==> !Matches(rules[h], p)
  }

  /** After a removal a packet goes where the first matching rule with another id
      sends it, or to the default. */
  lemma {:induction false} RemovedRoutes(rules: seq<Rule>, id: string, otherwise: Destination, p: Packet)
    ensures forall i: nat :: FirstLeft(rules, id, p, i) ==> Scan(Without(rules, id), otherwise, p) == rules[i].dest
    ensures (forall h: nat :: h < |rules| && rules[h].id != id ==> !Matches(rules[h], p)) ==>
      Scan(Without(rules, id), otherwise, p) == otherwise
  {
    var left := Without(rules, id);
    var at := WithoutIs(rules, id);
    forall i: nat | FirstLeft(rules, id, p, i) ensures Scan(left, otherwise, p) == rules[i].dest {
      assert i in at;
      var k :| 0 <= k < |at| && at[k] == i;
      forall j | 0 <= j < k ensures !Matches(left[j], p) {
        assert at[j] < i && at[j] in at;
      }
      ScanAt(left, otherwise, p, k);
    }
    if forall h: nat :: h < |rules| && rules[h].id != id ==> !Matches(rules[h], p) {
      forall j | 0 <= j < |left| ensures !Matches(left[j], p) {
        assert at[j] in at;
      }
      ScanDefault(left, otherwise, p);
    }
  }

  method DropRule(rules: seq<Rule>, id: string) returns (left: seq<Rule>)
    ensures left == Without(rules, id)
  {
    left := [];
    for i := 0 to |rules|
      invariant left == Without(rules[..i], id)
    {
      assert rules[..i + 1][..i] == rules[..i];
      if rules[i].id != id {
        left := left + [rules[i]];
      }
    }
    assert rules[..|rules|] == rules;
  }

  /** Every rule has an id and no id is used twice. */
  method CheckIds(rules: seq<Rule>) returns (ok: bool)
    ensures ok == ("" !in Ids(rules) && |Ids(rules)| == |rules|)
  {
    var seen: set<string> := {};
    for i := 0 to |rules|
      invariant seen == Ids(rules[..i]) && |seen| == i && "" !in seen
    {
      IdsGrow(rules, i);
      IdsBound(rules, i + 1);
      if rules[i].id == "" || rules[i].id in seen {
        assert rules[i].id in Ids(rules);
        assert rules[i].id in seen ==> Ids(rules[..i + 1]) == seen;
        return false;
      }
      seen := seen + {rules[i].id};
    }
    assert rules[..|rules|] == rules;
    return true;
  }

  lemma {:induction false} IdsGrow(rules: seq<Rule>, i: nat)
    requires i < |rules|
    ensures Ids(rules[..i + 1]) == Ids(rules[..i]) + {rules[i].id}
  {
    var a, b := rules[..i + 1], rules[..i];
    forall x ensures x in Ids(a) <==> x in Ids(b) + {rules[i].id} {
      if x in Ids(b) {
        var j :| 0 <= j < i && b[j].id == x;
        assert a[j].id == x;
      }
      if x == rules[i].id { assert a[i].id == x; }
    }
  }

  /** The rest of the list adds at most one id per rule. */
  lemma {:induction false} IdsBound(rules: seq<Rule>, i: nat)
    requires i <= |rules|
    ensures |Ids(rules)| <= |Ids(rules[..i])| + (|rules| - i)
    decreases |rules| - i
  {
    if i == |rules| {
      assert rules[..i] == rules;
    } else {
      IdsBound(rules, i + 1);
      IdsGrow(rules, i);
    }
  }
}
