/** The manager of `common/split_tunnel`: rule edits, publication of the lookup
    tables, and the lookups by host name and by address. */
module SplitTunnel {
  import opened Addresses
  import opened Bytes
  import opened FlattenRanges
  import opened Networks
  import opened RangeEvents
  import opened SplitRules
  import opened Wrappers

  datatype Snapshot = Snapshot(
    suffix: map<string, nat>, exact: map<string, nat>, keyword: seq<(string, nat)>,
    ranges: seq<IdxRange>, direct: seq<bool>)

  // ---- What the tables must hold ------------------------------------------

  /** For each value, the first enabled rule of that kind and value. */
  ghost predicate FirstOfEach(m: map<string, nat>, kind: Kind, rules: seq<Rule>, n: nat)
    requires n <= |rules|
  {
    && (forall v {:trigger EntryIs(m, v, kind, rules, n)} :: v in m ==> EntryIs(m, v, kind, rules, n))
    && (forall i {:trigger EnteredBy(m, kind, rules[i], i)} :: 0 <= i < n ==> EnteredBy(m, kind, rules[i], i))
  }

  /** An entry is an enabled rule of that kind and value. */
  predicate EntryIs(m: map<string, nat>, v: string, kind: Kind, rules: seq<Rule>, n: nat)
    requires n <= |rules| && v in m
  {
    m[v] < n && rules[m[v]].enabled && KeyOf(rules[m[v]]) == Key(kind, v)
  }

  /** Rule `i`, if it is of that kind, or an earlier one has the entry. */
  predicate EnteredBy(m: map<string, nat>, kind: Kind, r: Rule, i: nat) {
    r.enabled && r.kind == kind ==> KeyOf(r).value in m && m[KeyOf(r).value] <= i
  }

  /** What happens to such a table at rule `i`. */
  function AddFirst(m: map<string, nat>, kind: Kind, r: Rule, i: nat): map<string, nat> {
    if r.enabled && r.kind == kind && KeyOf(r).value !in m then m[KeyOf(r).value := i] else m
  }

  function Table(kind: Kind, rules: seq<Rule>, n: nat): map<string, nat>
    requires n <= |rules|
  {
    if n == 0 then map[] else AddFirst(Table(kind, rules, n - 1), kind, rules[n - 1], n - 1)
  }

  lemma {:induction false} TableIs(kind: Kind, rules: seq<Rule>, n: nat)
    requires n <= |rules|
    ensures FirstOfEach(Table(kind, rules, n), kind, rules, n)
  {
    if n == 0 {
    } else {
      TableIs(kind, rules, n - 1);
      AddFirstKeeps(Table(kind, rules, n - 1), kind, rules, n - 1);
    }
  }

  lemma {:induction false} AddFirstKeeps(m: map<string, nat>, kind: Kind, rules: seq<Rule>, i: nat)
    requires i < |rules| && FirstOfEach(m, kind, rules, i)
    ensures FirstOfEach(AddFirst(m, kind, rules[i], i), kind, rules, i + 1)
  {
    var grown := AddFirst(m, kind, rules[i], i);
    forall v | v in grown ensures EntryIs(grown, v, kind, rules, i + 1) {
      if v in m {
        assert EntryIs(m, v, kind, rules, i);
      }
    }
    forall j | 0 <= j <= i ensures EnteredBy(grown, kind, rules[j], j) {
      if j < i {
        assert EnteredBy(m, kind, rules[j], j);
      } else if KeyOf(rules[i]).value in m {
        assert EntryIs(m, KeyOf(rules[i]).value, kind, rules, i);
      }
    }
  }

  function Keywords(rules: seq<Rule>, n: nat): seq<(string, nat)>
    requires n <= |rules|
  {
    if n == 0 then []
    else Keywords(rules, n - 1) + KeywordOf(rules[n - 1], n - 1)
  }

  predicate HasKeyword(r: Rule) {
    r.enabled && r.kind.DomainKeyword?
  }

  function KeywordOf(r: Rule, i: nat): seq<(string, nat)> {
    if HasKeyword(r) then [(Lower(r.value), i)] else []
  }

  predicate HasRange(parse: Parser, r: Rule) {
    r.enabled && r.kind.Ip? && Interval(parse(r.value)).Some?
  }

  function Ranges(parse: Parser, rules: seq<Rule>, n: nat): seq<IdxRange>
    requires n <= |rules|
  {
    if n == 0 then []
    else Ranges(parse, rules, n - 1) + RuleRange(parse, rules[n - 1], n - 1)
  }

  function RuleRange(parse: Parser, r: Rule, i: nat): seq<IdxRange> {
    if HasRange(parse, r)
    then var (lo, hi) := Interval(parse(r.value)).value; [IdxRange(lo, hi, i)]
    else []
  }

  lemma {:induction false} KeywordsAre(rules: seq<Rule>, n: nat)
    requires n <= |rules|
    ensures KeywordsFor(Keywords(rules, n), rules, n)
  {
    if n == 0 {
    } else {
      KeywordsAre(rules, n - 1);
      KeywordKeeps(Keywords(rules, n - 1), rules, n - 1);
    }
  }

  lemma {:induction false} KeywordKeeps(ks: seq<(string, nat)>, rules: seq<Rule>, i: nat)
    requires i < |rules| && KeywordsFor(ks, rules, i)
    ensures KeywordsFor(ks + KeywordOf(rules[i], i), rules, i + 1)
  {
    var grown := ks + KeywordOf(rules[i], i);
    forall k | 0 <= k < |grown| ensures FromKeyword(grown[k], rules, i + 1) {
      if k < |ks| {
        assert FromKeyword(ks[k], rules, i);
      }
    }
    forall j | 0 <= j <= i && HasKeyword(rules[j]) ensures Listed(grown, rules[j], j) {
      if j < i {
        assert Listed(ks, rules[j], j);
      } else {
        assert grown[|ks|] == (Lower(rules[i].value), i);
      }
    }
  }

  /** The enabled keyword rules, each with its place. */
  ghost predicate KeywordsFor(ks: seq<(string, nat)>, rules: seq<Rule>, n: nat)
    requires n <= |rules|
  {
    && (forall k {:trigger FromKeyword(ks[k], rules, n)} :: 0 <= k < |ks| ==> FromKeyword(ks[k], rules, n))
    && (forall i {:trigger Listed(ks, rules[i], i)} :: 0 <= i < n && HasKeyword(rules[i]) ==> Listed(ks, rules[i], i))
  }

  predicate FromKeyword(entry: (string, nat), rules: seq<Rule>, n: nat)
    requires n <= |rules|
  {
    entry.1 < n && HasKeyword(rules[entry.1]) && entry.0 == Lower(rules[entry.1].value)
  }

  predicate Listed(ks: seq<(string, nat)>, r: Rule, i: nat) {
    (Lower(r.value), i) in ks
  }

  lemma {:induction false} RangesAre(parse: Parser, rules: seq<Rule>, n: nat)
    requires n <= |rules|
    ensures RangesFor(Ranges(parse, rules, n), parse, rules, n)
  {
    if n == 0 {
    } else {
      RangesAre(parse, rules, n - 1);
      RangeKeeps(Ranges(parse, rules, n - 1), Ranges(parse, rules, n), parse, rules, n - 1);
    }
  }

  /** The intervals of the enabled address rules, in rule order. */
  ghost predicate RangesFor(raw: seq<IdxRange>, parse: Parser, rules: seq<Rule>, n: nat)
    requires n <= |rules|
  {
    && (forall k {:trigger FromRule(raw[k], parse, rules)} :: 0 <= k < |raw| ==> FromRule(raw[k], parse, rules))
    && RisingBelow(raw, n)
    && (forall i {:trigger Represented(raw, i)} :: 0 <= i < n && HasRange(parse, rules[i]) ==> Represented(raw, i))
  }

  ghost predicate RisingBelow(raw: seq<IdxRange>, n: nat) {
    && (forall k :: 0 <= k < |raw| ==> raw[k].idx < n)
    && (forall j, k :: 0 <= j < k < |raw| ==> raw[j].idx < raw[k].idx)
  }

  ghost predicate Represented(raw: seq<IdxRange>, i: nat) {
    exists k :: 0 <= k < |raw| && raw[k].idx == i
  }

  predicate FromRule(r: IdxRange, parse: Parser, rules: seq<Rule>) {
    r.idx < |rules| && [r] == RuleRange(parse, rules[r.idx], r.idx)
  }

  lemma {:induction false} RangeKeeps(raw: seq<IdxRange>, grown: seq<IdxRange>, parse: Parser, rules: seq<Rule>, i: nat)
    requires i < |rules| && RangesFor(raw, parse, rules, i) && grown == raw + RuleRange(parse, rules[i], i)
    ensures RangesFor(grown, parse, rules, i + 1)
  {
    if HasRange(parse, rules[i]) {
      OneMoreRange(raw, grown[|raw|], parse, rules, i);
      assert grown == raw + [grown[|raw|]];
    } else {
      assert grown == raw;
    }
  }

  lemma {:induction false} OneMoreRange(raw: seq<IdxRange>, r: IdxRange, parse: Parser, rules: seq<Rule>, i: nat)
    requires i < |rules| && RangesFor(raw, parse, rules, i) && r.idx == i && FromRule(r, parse, rules)
    ensures RangesFor(raw + [r], parse, rules, i + 1)
  {
    var grown := raw + [r];
    forall k | 0 <= k < |grown| ensures FromRule(grown[k], parse, rules) {
      if k < |raw| {
        assert FromRule(raw[k], parse, rules);
      }
    }
    forall x | 0 <= x <= i && HasRange(parse, rules[x]) ensures Represented(grown, x) {
      StillRepresented(raw, r, x);
    }
  }

  lemma {:induction false} StillRepresented(raw: seq<IdxRange>, r: IdxRange, x: nat)
    ensures Represented(raw, x) || r.idx == x ==> Represented(raw + [r], x)
  {
    if r.idx == x {
      assert (raw + [r])[|raw|].idx == x;
    } else if Represented(raw, x) {
      var k :| 0 <= k < |raw| && raw[k].idx == x;
      assert (raw + [r])[k] == raw[k];
    }
  }

  lemma {:induction false} RangesAreValid(raw: seq<IdxRange>, parse: Parser, rules: seq<Rule>, n: nat)
    requires n <= |rules| && ValidParser(parse) && RangesFor(raw, parse, rules, n)
    ensures ValidRaw(raw, n)
  {
    forall k | 0 <= k < |raw| ensures raw[k].lo <= raw[k].hi < SPACE {
      assert FromRule(raw[k], parse, rules);
      IntervalInSpace(parse(rules[raw[k].idx].value));
    }
  }

  ghost predicate Published(snap: Snapshot, parse: Parser, rules: seq<Rule>) {
    && FirstOfEach(snap.suffix, Domain, rules, |rules|)
    && FirstOfEach(snap.exact, DomainExact, rules, |rules|)
    && snap.keyword == Keywords(rules, |rules|)
    && Answers(snap.ranges, Ranges(parse, rules, |rules|), SPACE)
    && |snap.direct| == |rules|
    && (forall i :: 0 <= i < |rules| ==> (snap.direct[i] <==> rules[i].action == "direct"))
  }

  /** One rule's entries in the tables. */
  method PublishRule(parse: Parser, r: Rule, i: nat, suffix0: map<string, nat>, exact0: map<string, nat>,
                     keyword0: seq<(string, nat)>, raw0: seq<IdxRange>)
    returns (suffix: map<string, nat>, exact: map<string, nat>, keyword: seq<(string, nat)>, raw: seq<IdxRange>)
    ensures suffix == AddFirst(suffix0, Domain, r, i) && exact == AddFirst(exact0, DomainExact, r, i)
    ensures keyword == keyword0 + KeywordOf(r, i) && raw == raw0 + RuleRange(parse, r, i)
  {
    suffix, exact, keyword, raw := suffix0, exact0, keyword0, raw0;
    TrimStarLower(r.value);
    if r.enabled {
      match r.kind
      case Domain =>
        var v := Lower(TrimStar(r.value));
        if v !in suffix { suffix := suffix[v := i]; }
      case DomainExact =>
        var v := Lower(r.value);
        if v !in exact { exact := exact[v := i]; }
      case DomainKeyword =>
        keyword := keyword + [(Lower(r.value), i)];
      case Ip =>
        var interval := FindInterval(parse(r.value));
        if interval.Some? { raw := raw + [IdxRange(interval.value.0, interval.value.1, i)]; }
      case OtherKind(_) =>
    }
  }

  method BuildTables(parse: Parser, rules: seq<Rule>)
    returns (suffix: map<string, nat>, exact: map<string, nat>, keyword: seq<(string, nat)>, raw: seq<IdxRange>,
             direct: seq<bool>)
    ensures suffix == Table(Domain, rules, |rules|) && exact == Table(DomainExact, rules, |rules|)
    ensures keyword == Keywords(rules, |rules|) && raw == Ranges(parse, rules, |rules|)
    ensures |direct| == |rules| && forall j :: 0 <= j < |rules| ==> (direct[j] <==> rules[j].action == "direct")
  {
    suffix, exact, keyword, raw, direct := map[], map[], [], [], [];
    for i := 0 to |rules|
      invariant suffix == Table(Domain, rules, i) && exact == Table(DomainExact, rules, i)
      invariant keyword == Keywords(rules, i) && raw == Ranges(parse, rules, i)
      invariant |direct| == i && forall j :: 0 <= j < i ==> (direct[j] <==> rules[j].action == "direct")
    {
      direct := direct + [rules[i].action == "direct"];
      suffix, exact, keyword, raw := PublishRule(parse, rules[i], i, suffix, exact, keyword, raw);
    }
  }

  /** `publishLocked`. */
  method Publish(parse: Parser, rules: seq<Rule>) returns (snap: Snapshot)
    requires ValidParser(parse)
    ensures Published(snap, parse, rules)
  {
    var suffix, exact, keyword, raw, direct := BuildTables(parse, rules);
    TableIs(Domain, rules, |rules|);
    TableIs(DomainExact, rules, |rules|);
    RangesAre(parse, rules, |rules|);
    RangesAreValid(raw, parse, rules, |rules|);
    var ranges := Flatten(raw, |rules|);
    snap := Snapshot(suffix, exact, keyword, ranges, direct);
  }

  // ---- Lookup by address --------------------------------------------------

  /** The number of the address that `bypassIP` copies into sixteen zero bytes. */
  function AddrValue(ip: seq<byte>): nat {
    if To16(ip).Some? then Value(To16(ip).value) else 0
  }

  /** The number is that of sixteen bytes: the address, with the IPv4 prefix if it has
      four, and all zero if it is neither IPv4 nor IPv6. */
  lemma {:induction false} AddrValueIs(ip: seq<byte>)
    ensures AddrValue(ip) ==
            Value(if |ip| == 16 then ip else if |ip| == 4 then V4_PREFIX + ip else Zeros(16))
  {
    ValueOfRepeat(16);
    assert Zeros(16) == seq(16, _ => 0);
  }

  /** An enabled address rule whose prefix contains the address. */
  predicate PrefixHit(parse: Parser, r: Rule, a: nat) {
    r.enabled && r.kind.Ip? && InNetwork(parse(r.value), a)
  }

  /** What the rules take, in the address's own bytes: an IPv4 network the IPv4
      addresses that agree on its leading bits, an IPv6 network likewise, and a
      single address itself. */
  lemma {:induction false} RuleTakes(parse: Parser, r: Rule, ip: seq<byte>)
    requires ValidParser(parse) && r.enabled && r.kind.Ip? && (|ip| == 4 || |ip| == 16)
    ensures var n := parse(r.value);
      && (n.Cidr? && |n.net.ip| == |ip| == 4 && n.net.bits == 32 && n.net.ones <= 32 ==>
            (PrefixHit(parse, r, AddrValue(ip)) <==> Agree(Value(ip), Value(n.net.ip), 32 - n.net.ones)))
      && (n.Cidr? && |n.net.ip| == |ip| == 16 && n.net.bits == 128 && n.net.ones <= 128 ==>
            (PrefixHit(parse, r, AddrValue(ip)) <==> Agree(Value(ip), Value(n.net.ip), 128 - n.net.ones)))
      && (n.Single? ==> (PrefixHit(parse, r, AddrValue(ip)) <==> n.ip == if |ip| == 4 then V4_PREFIX + ip else ip))
      && (n.NotAnAddress? ==> !PrefixHit(parse, r, AddrValue(ip)))
  {
    var n := parse(r.value);
    match n
    case Cidr(net) =>
      if |net.ip| == |ip| == 4 && net.bits == 32 && net.ones <= 32 {
        V4Value(ip);
        V4Network(net, ip);
      } else if |net.ip| == |ip| == 16 && net.bits == 128 && net.ones <= 128 {
        V6Network(net, Value(ip));
      }
    case Single(x) => ValueInjective(x, To16(ip).value);
    case NotAnAddress =>
  }

  /** `bypassIP`: the rule part finds the first enabled rule whose prefix contains
      the address. */
  method RuleForAddr(snap: Snapshot, ip: seq<byte>, ghost parse: Parser, ghost rules: seq<Rule>)
    returns (rule: Option<nat>)
    requires Published(snap, parse, rules) && ValidParser(parse)
    ensures rule == FirstFiring(parse, rules, Addr(AddrValue(ip)))
    ensures rule.Some? ==> rule.value < |rules| && PrefixHit(parse, rules[rule.value], AddrValue(ip))
    ensures forall i :: 0 <= i < |rules| && PrefixHit(parse, rules[i], AddrValue(ip)) ==> rule.Some? && rule.value <= i
  {
    var a := AddrValue(ip);
    if To16(ip).Some? {
      AddressInSpace(To16(ip).value);
    }
    FirstFiringIs(parse, rules, Addr(a));
    rule := Lookup(snap.ranges, a, Ranges(parse, rules, |rules|));
    AddrFiring(parse, rules, a, rule);
  }

  lemma {:induction false} AddrFiring(parse: Parser, rules: seq<Rule>, a: nat, rule: Option<nat>)
    requires ValidParser(parse)
    requires rule.None? <==> !Matched(Ranges(parse, rules, |rules|), a)
    requires rule.Some? ==> Winner(Ranges(parse, rules, |rules|), a, rule.value)
    ensures rule == FirstFiring(parse, rules, Addr(a))
  {
    var raw := Ranges(parse, rules, |rules|);
    RangesAre(parse, rules, |rules|);
    match rule
    case None => NoneFires(raw, parse, rules, a);
    case Some(w) => WinnerIsFirst(raw, parse, rules, a, w);
  }

  lemma {:induction false} NoneFires(raw: seq<IdxRange>, parse: Parser, rules: seq<Rule>, a: nat)
    requires ValidParser(parse) && RangesFor(raw, parse, rules, |rules|) && !Matched(raw, a)
    ensures FirstFiring(parse, rules, Addr(a)) == None
  {
    FirstFiringIs(parse, rules, Addr(a));
    if FirstFiring(parse, rules, Addr(a)).Some? {
      var k := FiringIsCovered(raw, parse, rules, a, FirstFiring(parse, rules, Addr(a)).value);
    }
  }

  lemma {:induction false} WinnerIsFirst(raw: seq<IdxRange>, parse: Parser, rules: seq<Rule>, a: nat, w: nat)
    requires ValidParser(parse) && RangesFor(raw, parse, rules, |rules|) && Winner(raw, a, w)
    ensures FirstFiring(parse, rules, Addr(a)) == Some(w)
  {
    var k :| 0 <= k < |raw| && Covers(raw[k], a) && raw[k].idx == w;
    CoveredFires(raw, parse, rules, a, k);
    FirstAtMost(parse, rules, Addr(a), w);
    var j := FiringIsCovered(raw, parse, rules, a, FirstFiring(parse, rules, Addr(a)).value);
  }

  lemma {:induction false} CoveredFires(raw: seq<IdxRange>, parse: Parser, rules: seq<Rule>, a: nat, k: nat)
    requires ValidParser(parse) && RangesFor(raw, parse, rules, |rules|) && k < |raw| && Covers(raw[k], a)
    ensures raw[k].idx < |rules| && Fires(parse, rules[raw[k].idx], Addr(a))
  {
    assert FromRule(raw[k], parse, rules);
    IntervalIsNetwork(parse(rules[raw[k].idx].value), a);
  }

  lemma {:induction false} FiringIsCovered(raw: seq<IdxRange>, parse: Parser, rules: seq<Rule>, a: nat, i: nat)
    returns (k: nat)
    requires ValidParser(parse) && RangesFor(raw, parse, rules, |rules|)
    requires i < |rules| && Fires(parse, rules[i], Addr(a))
    ensures k < |raw| && Covers(raw[k], a) && raw[k].idx == i
  {
    IntervalIsNetwork(parse(rules[i].value), a);
    assert HasRange(parse, rules[i]);
    assert Represented(raw, i);
    k :| 0 <= k < |raw| && raw[k].idx == i;
    assert FromRule(raw[k], parse, rules);
  }

  // ---- Lookup by host name ------------------------------------------------

  predicate IsFirstDot(h: string, dot: int) {
    if dot < 0 then dot == -1 && '.' !in h else dot < |h| && h[dot] == '.' && '.' !in h[..dot]
  }

  /** `strings.IndexByte(h, '.')`. */
  method FirstDot(h: string) returns (dot: int)
    ensures IsFirstDot(h, dot)
  {
    for i := 0 to |h|
      invariant '.' !in h[..i]
    {
      if h[i] == '.' { return i; }
    }
    return -1;
  }

  /** A label-boundary suffix is the name itself or one of the name without its
      first label. */
  lemma {:induction false} StripLabel(h: string, dot: int, p: string)
    requires IsFirstDot(h, dot)
    ensures OnLabelBoundary(h, p) <==> p == h || (dot >= 0 && OnLabelBoundary(h[dot + 1..], p))
  {
    var q := "." + p;
    assert q[1..] == p;
    if HasSuffix(h, q) {
      var at := |h| - |q|;
      assert h[at..][0] == '.';
      assert dot >= 0 && dot <= at;
      if at == dot {
        assert h[at..][1..] == h[dot + 1..];
      } else {
        assert h[dot + 1..][at - dot - 1..] == h[at..];
      }
    }
    if dot >= 0 && OnLabelBoundary(h[dot + 1..], p) {
      var rest := h[dot + 1..];
      if rest == p {
        assert h[dot..] == q;
      } else {
        assert h[|h| - |q|..] == rest[|rest| - |q|..];
      }
    }
  }

  /** The lookup by name of `bypassHostReason`, up to the country list: exact
      table, label by label through the suffix table, then the keywords. */
  method RuleForHost(snap: Snapshot, hostname: string, ghost parse: Parser, ghost rules: seq<Rule>)
    returns (rule: Option<nat>)
    requires Published(snap, parse, rules)
    ensures rule == FirstFiring(parse, rules, Host(NormalHost(hostname)))
  {
    var host := NormalHost(hostname);
    var best: int := -1;
    if host in snap.exact {
      best := snap.exact[host];
    }
    best := BestSuffix(snap, host, best, parse, rules);
    best := BestKeyword(snap, host, best, parse, rules);
    FirstFiringIs(parse, rules, Host(host));
    if best >= 0 {
      FirstFiringUnique(parse, rules, Host(host), best);
      return Some(best);
    }
    return None;
  }

  method BestKeyword(snap: Snapshot, host: string, best0: int, ghost parse: Parser, ghost rules: seq<Rule>)
    returns (best: int)
    requires Published(snap, parse, rules)
    requires -1 <= best0 < |rules| && (best0 >= 0 ==> Fires(parse, rules[best0], Host(host)))
    requires forall i :: 0 <= i < |rules| && Fires(parse, rules[i], Host(host)) && !rules[i].kind.DomainKeyword? ==>
               0 <= best0 <= i
    ensures -1 <= best < |rules| && (best >= 0 ==> Fires(parse, rules[best], Host(host)))
    ensures forall i :: 0 <= i < |rules| && Fires(parse, rules[i], Host(host)) ==> 0 <= best <= i
  {
    KeywordsAre(rules, |rules|);
    best := ScanKeywords(snap.keyword, host, best0);
    if best != best0 {
      ghost var k :| 0 <= k < |snap.keyword| && Contains(host, snap.keyword[k].0) && snap.keyword[k].1 == best;
      assert FromKeyword(snap.keyword[k], rules, |rules|);
      assert HasKeyword(rules[best]) && snap.keyword[k].0 == Lower(rules[best].value);
    }
    forall i | 0 <= i < |rules| && Fires(parse, rules[i], Host(host))
      ensures 0 <= best <= i
    {
      if rules[i].kind.DomainKeyword? {
        assert Listed(snap.keyword, rules[i], i);
      }
    }
  }

  method ScanKeywords(keyword: seq<(string, nat)>, host: string, best0: int) returns (best: int)
    requires -1 <= best0
    ensures best == best0 || exists k :: 0 <= k < |keyword| && Contains(host, keyword[k].0) && keyword[k].1 == best
    ensures best0 >= 0 ==> 0 <= best <= best0
    ensures forall j :: 0 <= j < |keyword| && Contains(host, keyword[j].0) ==> 0 <= best <= keyword[j].1
  {
    best := best0;
    for k := 0 to |keyword|
      invariant best == best0 || exists j :: 0 <= j < k && Contains(host, keyword[j].0) && keyword[j].1 == best
      invariant -1 <= best && (best0 >= 0 ==> 0 <= best <= best0)
      invariant forall j :: 0 <= j < k && Contains(host, keyword[j].0) ==> 0 <= best <= keyword[j].1
    {
      var (value, idx) := keyword[k];
      if best >= 0 && idx > best {
        continue;
      }
      if Contains(host, value) {
        best := idx;
      }
    }
  }

  method BestSuffix(snap: Snapshot, host: string, best0: int, ghost parse: Parser, ghost rules: seq<Rule>)
    returns (best: int)
    requires Published(snap, parse, rules)
    requires best0 == if host in snap.exact then snap.exact[host] else -1
    ensures -1 <= best < |rules| && (best >= 0 ==> Fires(parse, rules[best], Host(host)))
    ensures forall i :: 0 <= i < |rules| && Fires(parse, rules[i], Host(host)) && !rules[i].kind.DomainKeyword? ==>
              0 <= best <= i
  {
    best := best0;
    var h := host;
    ExactFound(snap, host, best0, parse, rules);
    while true
      invariant SuffixSoFar(best, host, h, parse, rules)
      decreases |h|
    {
      ghost var before := best;
      if h in snap.suffix && (best < 0 || snap.suffix[h] < best) {
        best := snap.suffix[h];
      }
      SuffixStep(snap, before, best, host, h, parse, rules);
      var dot := FirstDot(h);
      LabelStripped(best, host, h, dot, parse, rules);
      if dot < 0 {
        return;
      }
      h := h[dot + 1..];
    }
  }

  /** The search has reached the suffix `h`: whatever else it could still find is
      a rule for `h` or a shorter suffix. */
  ghost predicate SuffixSoFar(best: int, host: string, h: string, parse: Parser, rules: seq<Rule>) {
    && OnLabelBoundary(host, h)
    && -1 <= best < |rules|
    && (best >= 0 ==> Fires(parse, rules[best], Host(host)))
    && forall i {:trigger HostFires(rules[i], host)} :: 0 <= i < |rules| && HostFires(rules[i], host) ==>
         0 <= best <= i || Pending(h, rules[i])
  }

  /** An enabled rule on the name itself or on one of its suffixes. */
  predicate HostFires(r: Rule, host: string) {
    r.enabled && (r.kind.Domain? || r.kind.DomainExact?) && HostHit(KeyOf(r), host)
  }

  predicate Pending(h: string, r: Rule) {
    r.kind.Domain? && OnLabelBoundary(h, KeyOf(r).value)
  }

  /** The suffix `h` itself has been looked up. */
  ghost predicate LookedUp(best: int, host: string, h: string, rules: seq<Rule>) {
    forall i {:trigger HostFires(rules[i], host)} :: 0 <= i < |rules| && HostFires(rules[i], host) ==>
      rules[i].kind.Domain? && KeyOf(rules[i]).value == h ==> 0 <= best <= i
  }

  lemma {:induction false} ExactFound(snap: Snapshot, host: string, best: int, parse: Parser, rules: seq<Rule>)
    requires FirstOfEach(snap.exact, DomainExact, rules, |rules|)
    requires best == if host in snap.exact then snap.exact[host] else -1
    ensures SuffixSoFar(best, host, host, parse, rules)
  {
    if host in snap.exact {
      assert EntryIs(snap.exact, host, DomainExact, rules, |rules|);
    }
    forall i | 0 <= i < |rules| && HostFires(rules[i], host) ensures 0 <= best <= i || Pending(host, rules[i]) {
      assert EnteredBy(snap.exact, DomainExact, rules[i], i);
    }
  }

  lemma {:induction false} SuffixStep(snap: Snapshot, before: int, best: int, host: string, h: string,
                                      parse: Parser, rules: seq<Rule>)
    requires FirstOfEach(snap.suffix, Domain, rules, |rules|) && SuffixSoFar(before, host, h, parse, rules)
    requires best == if h in snap.suffix && (before < 0 || snap.suffix[h] < before) then snap.suffix[h] else before
    ensures SuffixSoFar(best, host, h, parse, rules) && LookedUp(best, host, h, rules)
  {
    if h in snap.suffix {
      assert EntryIs(snap.suffix, h, Domain, rules, |rules|);
    }
    forall i | 0 <= i < |rules| && HostFires(rules[i], host) && rules[i].kind.Domain? && KeyOf(rules[i]).value == h
      ensures 0 <= best <= i
    {
      assert EnteredBy(snap.suffix, Domain, rules[i], i);
    }
  }

  lemma {:induction false} LabelStripped(best: int, host: string, h: string, dot: int, parse: Parser, rules: seq<Rule>)
    requires SuffixSoFar(best, host, h, parse, rules) && LookedUp(best, host, h, rules)
    requires IsFirstDot(h, dot)
    ensures dot < 0 ==> forall i :: 0 <= i < |rules| && HostFires(rules[i], host) ==> 0 <= best <= i
    ensures dot >= 0 ==> SuffixSoFar(best, host, h[dot + 1..], parse, rules)
  {
    forall i | 0 <= i < |rules| && HostFires(rules[i], host)
      ensures 0 <= best <= i || (dot >= 0 && Pending(h[dot + 1..], rules[i]))
    {
      StripLabel(h, dot, KeyOf(rules[i]).value);
    }
    if dot >= 0 {
      StripLabel(h, dot, h[dot + 1..]);
      BoundaryOfBoundary(host, h, h[dot + 1..]);
    }
  }

  lemma {:induction false} BoundaryOfBoundary(a: string, b: string, c: string)
    requires OnLabelBoundary(a, b) && OnLabelBoundary(b, c)
    ensures OnLabelBoundary(a, c)
  {
    if a != b && b != c {
      var q := "." + c;
      assert ("." + b)[|b| + 1 - |q|..] == b[|b| - |q|..];
      assert a[|a| - |q|..] == a[|a| - |b| - 1..][|b| + 1 - |q|..];
    }
  }

  // ---- Verdicts -----------------------------------------------------------

  /** Whether the first matching rule says direct. */
  function Verdict(parse: Parser, rules: seq<Rule>, t: Target): Option<bool> {
    match FiringRule(parse, rules, t)
    case None => None
    case Some(r) => Some(r.action == "direct")
  }

  ghost predicate AllEnabled(rules: seq<Rule>) {
    forall r :: r in rules ==> r.enabled
  }

  lemma {:induction false} VerdictOfFirst(parse: Parser, rules: seq<Rule>, t: Target)
    ensures match FirstFiring(parse, rules, t)
      case None => Verdict(parse, rules, t) == None
      case Some(i) => i < |rules| && Verdict(parse, rules, t) == Some(rules[i].action == "direct")
  {
    FirstFiringIs(parse, rules, t);
    FiringRuleIs(parse, rules, t);
  }

  /** Enabled rules decide after sorting and removal of repeats as they do after
      sorting alone. */
  lemma {:induction false} PublishedVerdict(parse: Parser, history: seq<Rule>, t: Target)
    ensures AllEnabled(history) ==> Verdict(parse, Compile(history), t) == Verdict(parse, Sorted(history), t)
  {
    if AllEnabled(history) {
      var sorted := Sorted(history);
      SortedRearranges(history);
      forall i | 0 <= i < |sorted| ensures sorted[i].enabled {
        assert sorted[i] in multiset(sorted);
      }
      DedupKeepsVerdict(parse, sorted, t);
    }
  }

  // ---- The manager --------------------------------------------------------

  class Manager {
    const parse: Parser
    var rules: seq<Rule>
    var snap: Snapshot

    ghost predicate Valid()
      reads this
    {
      ValidParser(parse) && Published(snap, parse, rules) && Compile(rules) == rules
    }

    constructor (parse: Parser)
      requires ValidParser(parse)
      ensures Valid() && rules == [] && this.parse == parse
    {
      this.parse := parse;
      rules := [];
      new;
      snap := Publish(parse, []);
    }

    /** `AddRule` with a single rule, `LoadConfig` and `LoadAppRules` with several. */
    method AddRules(more: seq<Rule>)
      requires Valid()
      modifies this
      ensures Valid()
      ensures rules == Compile(old(rules) + more)
      ensures forall history :: old(rules) == Compile(history) ==> rules == Compile(history + more)
    {
      CompileInPortions(rules + more, []);
      forall history | rules == Compile(history)
        ensures Compile(rules + more) == Compile(history + more)
      {
        CompileInPortions(history, more);
      }
      assert Compile(rules + more) + [] == Compile(rules + more) && rules + more + [] == rules + more;
      rules := StableSort(rules + more);
      Recompile();
    }

    /** The rule part of `ShouldBypassByHostname`: the action of the first published
        rule that matches.  For a manager that was given the rules of `history`, all
        enabled, that is the action of the first of them in priority order. */
    method DirectHost(hostname: string, ghost history: seq<Rule>) returns (direct: Option<bool>)
      requires Valid() && rules == Compile(history)
      ensures direct == Verdict(parse, rules, Host(NormalHost(hostname)))
      ensures AllEnabled(history) ==> direct == Verdict(parse, Sorted(history), Host(NormalHost(hostname)))
    {
      var rule := RuleForHost(snap, hostname, parse, rules);
      VerdictOfFirst(parse, rules, Host(NormalHost(hostname)));
      PublishedVerdict(parse, history, Host(NormalHost(hostname)));
      return if rule.None? then None else Some(snap.direct[rule.value]);
    }

    /** The rule part of `bypassIP`, likewise. */
    method DirectAddr(ip: seq<byte>, ghost history: seq<Rule>) returns (direct: Option<bool>)
      requires Valid() && rules == Compile(history)
      ensures direct == Verdict(parse, rules, Addr(AddrValue(ip)))
      ensures AllEnabled(history) ==> direct == Verdict(parse, Sorted(history), Addr(AddrValue(ip)))
    {
      var rule := RuleForAddr(snap, ip, parse, rules);
      VerdictOfFirst(parse, rules, Addr(AddrValue(ip)));
      PublishedVerdict(parse, history, Addr(AddrValue(ip)));
      return if rule.None? then None else Some(snap.direct[rule.value]);
    }

    /** `recompileLocked`: keeps the first rule of each key and publishes. */
    method Recompile()
      requires ValidParser(parse)
      modifies this
      ensures rules == Dedup(old(rules), {}) && Published(snap, parse, rules)
    {
      rules := RemoveRepeats(rules);
      snap := Publish(parse, rules);
    }
  }

  /** The first rule of each key. */
  method RemoveRepeats(rules: seq<Rule>) returns (unique: seq<Rule>)
    ensures unique == Dedup(rules, {})
  {
    unique := [];
    var seen: set<Key> := {};
    assert rules[0..] == rules;
    for i := 0 to |rules|
      invariant unique + Dedup(rules[i..], seen) == Dedup(rules, {})
    {
      RepeatStep(unique, rules, i, seen);
      if KeyOf(rules[i]) !in seen {
        seen := seen + {KeyOf(rules[i])};
        unique := unique + [rules[i]];
      }
    }
  }

  lemma {:induction false} RepeatStep(unique: seq<Rule>, rules: seq<Rule>, i: nat, seen: set<Key>)
    requires i < |rules|
    ensures var k := KeyOf(rules[i]);
      unique + Dedup(rules[i..], seen) ==
      if k in seen then unique + Dedup(rules[i + 1..], seen)
      else unique + [rules[i]] + Dedup(rules[i + 1..], seen + {k})
  {
    assert rules[i..][1..] == rules[i + 1..];
  }

  /** `sort.SliceStable` by descending priority. */
  method StableSort(rules: seq<Rule>) returns (sorted: seq<Rule>)
    ensures sorted == Sorted(rules)
  {
    sorted := [];
    for i := 0 to |rules|
      invariant sorted == Sorted(rules[..i])
    {
      assert rules[..i + 1][..i] == rules[..i];
      sorted := InsertRule(sorted, rules[i]);
    }
    assert rules[..|rules|] == rules;
  }

  method InsertRule(sorted: seq<Rule>, r: Rule) returns (grown: seq<Rule>)
    ensures grown == Insert(sorted, r)
  {
    var at := 0;
    assert sorted[0..] == sorted;
    while at < |sorted| && sorted[at].priority >= r.priority
      invariant 0 <= at <= |sorted|
      invariant Insert(sorted, r) == sorted[..at] + Insert(sorted[at..], r)
    {
      InsertLater(sorted, r, at);
      at := at + 1;
    }
    grown := sorted[..at] + ([r] + sorted[at..]);
  }

  lemma {:induction false} InsertLater(sorted: seq<Rule>, r: Rule, at: nat)
    requires at < |sorted| && sorted[at].priority >= r.priority
    ensures sorted[..at] + Insert(sorted[at..], r) == sorted[..at + 1] + Insert(sorted[at + 1..], r)
  {
    assert sorted[at..][1..] == sorted[at + 1..];
    assert sorted[..at + 1] == sorted[..at] + [sorted[at]];
  }
}
