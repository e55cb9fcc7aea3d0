/** The rule list of `common/split_tunnel`: stable sort by priority, removal of
    repeated keys, compilation into lookup tables, and the two lookups. */
module SplitRules {
  import opened Networks
  import opened Wrappers

  datatype Kind = Domain | DomainExact | DomainKeyword | Ip | OtherKind(name: string)
  datatype Rule = Rule(kind: Kind, value: string, action: string, enabled: bool, priority: int)
  datatype Key = Key(kind: Kind, value: string)

  // ---- Strings ------------------------------------------------------------

  function LowerChar(c: char): char {
    if 'A' <= c <= 'Z' then c + (('a' as int - 'A' as int) as char) else c
  }

  function Lower(s: string): (r: string)
    ensures |r| == |s|
    ensures forall i :: 0 <= i < |s| ==> r[i] == LowerChar(s[i])
  {
    if s == [] then [] else [LowerChar(s[0])] + Lower(s[1..])
  }

  /** `strings.TrimPrefix(s, "*.")`. */
  function TrimStar(s: string): string {
    if |s| >= 2 && s[0] == '*' && s[1] == '.' then s[2..] else s
  }

  /** The 26 capital letters become the small ones, and nothing else changes. */
  lemma {:induction false} LowerLetters(c: char, i: nat)
    ensures i < 26 ==> LowerChar(('A' as int + i) as char) == ('a' as int + i) as char
    ensures c as int < 'A' as int || 'A' as int + 26 <= c as int ==> LowerChar(c) == c
  {
  }

  lemma {:induction false} TrimStarLower(s: string)
    ensures TrimStar(Lower(s)) == Lower(TrimStar(s))
  {
    if |s| >= 2 {
      assert Lower(s)[2..] == Lower(s[2..]);
    }
  }

  /** `strings.TrimSuffix(h, ".")` and lower case, as every lookup begins. */
  function NormalHost(h: string): string {
    Lower(if h != [] && h[|h| - 1] == '.' then h[..|h| - 1] else h)
  }

  /** One dot at the end of a name does not matter, nor does letter case. */
  lemma {:induction false} NormalHostIs(h: string)
    ensures NormalHost(h + ".") == Lower(h)
    ensures h == [] || h[|h| - 1] != '.' ==> NormalHost(h) == Lower(h)
  {
    assert (h + ".")[..|h|] == h;
  }

  predicate HasSuffix(s: string, t: string) {
    |t| <= |s| && s[|s| - |t|..] == t
  }

  predicate At(s: string, t: string, i: nat) {
    i + |t| <= |s| && s[i..i + |t|] == t
  }

  predicate Contains(s: string, t: string) {
    exists i: nat | i <= |s| :: At(s, t, i)
  }

  /** The host is the pattern or ends in a dot and the pattern. */
  predicate OnLabelBoundary(host: string, pattern: string) {
    host == pattern || HasSuffix(host, "." + pattern)
  }

  // ---- What a rule means --------------------------------------------------

  function KeyOf(r: Rule): Key {
    Key(r.kind, if r.kind.Domain? then TrimStar(Lower(r.value)) else Lower(r.value))
  }

  /** The matcher the tables stand for, one rule at a time. */
  predicate HostHit(k: Key, host: string) {
    match k.kind
    case Domain => OnLabelBoundary(host, k.value)
    case DomainExact => host == k.value
    case DomainKeyword => Contains(host, k.value)
    case _ => false
  }

  /** `net.ParseCIDR` and `net.ParseIP` on the text of a rule. */
  type Parser = string -> Network

  ghost predicate ValidParser(parse: Parser) {
    forall v :: ValidNetwork(parse(v)) && parse(Lower(v)) == parse(v)
  }

  predicate AddrHit(parse: Parser, k: Key, a: nat) {
    k.kind.Ip? && InNetwork(parse(k.value), a)
  }

  datatype Target = Host(host: string) | Addr(a: nat)

  predicate Hit(parse: Parser, k: Key, t: Target) {
    match t
    case Host(h) => HostHit(k, h)
    case Addr(a) => AddrHit(parse, k, a)
  }

  predicate Fires(parse: Parser, r: Rule, t: Target) {
    r.enabled && Hit(parse, KeyOf(r), t)
  }

  /** First enabled rule that matches, in list order. */
  function FirstFiring(parse: Parser, rules: seq<Rule>, t: Target): Option<nat> {
    if rules == [] then None
    else if Fires(parse, rules[0], t) then Some(0)
    else match FirstFiring(parse, rules[1..], t)
      case None => None
      case Some(i) => Some(i + 1)
  }

  lemma {:induction false} FirstFiringIs(parse: Parser, rules: seq<Rule>, t: Target)
    ensures var f := FirstFiring(parse, rules, t);
      match f
      case None => forall i :: 0 <= i < |rules| ==> !Fires(parse, rules[i], t)
      case Some(w) => w < |rules| && Fires(parse, rules[w], t) && forall i :: 0 <= i < w ==> !Fires(parse, rules[i], t)
  {
    if rules == [] || Fires(parse, rules[0], t) {
    } else {
      FirstFiringIs(parse, rules[1..], t);
      forall i | 1 <= i < |rules| ensures rules[i] == rules[1..][i - 1] {}
    }
  }

  lemma {:induction false} FirstAtMost(parse: Parser, rules: seq<Rule>, t: Target, w: nat)
    requires w < |rules| && Fires(parse, rules[w], t)
    ensures var f := FirstFiring(parse, rules, t); f.Some? && f.value <= w && Fires(parse, rules[f.value], t)
  {
    FirstFiringIs(parse, rules, t);
  }

  /** The characterisation is exact: whatever satisfies it is the first firing rule. */
  lemma {:induction false} FirstFiringUnique(parse: Parser, rules: seq<Rule>, t: Target, w: nat)
    requires w < |rules| && Fires(parse, rules[w], t)
    requires forall i :: 0 <= i < w ==> !Fires(parse, rules[i], t)
    ensures FirstFiring(parse, rules, t) == Some(w)
  {
    FirstFiringIs(parse, rules, t);
    assert FirstFiring(parse, rules, t).Some?;
    var v := FirstFiring(parse, rules, t).value;
    assert v == w;
  }

  // ---- What a rule on names takes, in the user's words --------------------

  predicate Joined(host: string, a: string, middle: string, b: string) {
    host == a + middle + b
  }

  /** A domain rule, with or without a leading star, takes the domain and every name
      that ends in a dot and the domain; an exact rule the name itself; a keyword
      rule every name with the keyword in it; in small letters each.  An address rule
      takes no name, and a disabled rule nothing. */
  lemma {:induction false} RuleTakesHost(parse: Parser, r: Rule, v: string, host: string)
    requires !("*." <= v)
    ensures !r.enabled ==> !Fires(parse, r, Host(host))
    ensures r.enabled && r.kind.Domain? && (r.value == v || r.value == "*." + v) ==>
      (Fires(parse, r, Host(host)) <==> host == Lower(v) || exists a :: Joined(host, a, ".", Lower(v)))
    ensures r.enabled && r.kind.DomainExact? ==> (Fires(parse, r, Host(host)) <==> host == Lower(r.value))
    ensures r.enabled && r.kind.DomainKeyword? ==>
      (Fires(parse, r, Host(host)) <==> exists a, b :: Joined(host, a, Lower(r.value), b))
    ensures r.kind.Ip? || r.kind.OtherKind? ==> !Fires(parse, r, Host(host))
  {
    if r.kind.Domain? && (r.value == v || r.value == "*." + v) {
      StarTrimmed(v);
      SuffixIsJoin(host, Lower(v));
    }
    if r.enabled && r.kind.DomainKeyword? {
      assert Fires(parse, r, Host(host)) == Contains(host, Lower(r.value));
      ContainsIsJoin(host, Lower(r.value));
    }
  }

  lemma {:induction false} StarTrimmed(v: string)
    requires !("*." <= v)
    ensures TrimStar(Lower(v)) == TrimStar(Lower("*." + v)) == Lower(v)
  {
    TrimStarLower(v);
    TrimStarLower("*." + v);
    assert ("*." + v)[2..] == v;
  }

  lemma {:induction false} SuffixIsJoin(host: string, v: string)
    ensures HasSuffix(host, "." + v) <==> exists a :: Joined(host, a, ".", v)
  {
    var t := "." + v;
    if HasSuffix(host, t) {
      var a := host[..|host| - |t|];
      assert host == a + t == a + "." + v;
      assert Joined(host, a, ".", v);
    }
    if a :| Joined(host, a, ".", v) {
      assert host == a + t;
      assert host[|host| - |t|..] == t;
    }
  }

  lemma {:induction false} ContainsIsJoin(host: string, v: string)
    ensures Contains(host, v) <==> exists a, b :: Joined(host, a, v, b)
  {
    if Contains(host, v) {
      var i: nat :| i <= |host| && At(host, v, i);
      assert host == host[..i] + v + host[i + |v|..];
      assert Joined(host, host[..i], v, host[i + |v|..]);
    }
    if a, b :| Joined(host, a, v, b) {
      assert host[|a|..|a| + |v|] == v;
      assert At(host, v, |a|);
    }
  }

  // ---- Sorting and removing repeats ---------------------------------------

  ghost predicate ByPriority(rules: seq<Rule>) {
    forall i, j :: 0 <= i < j < |rules| ==> rules[i].priority >= rules[j].priority
  }

  /** Puts `r` behind every rule of at least its priority. */
  function Insert(rules: seq<Rule>, r: Rule): seq<Rule> {
    if rules == [] || rules[0].priority < r.priority then [r] + rules
    else [rules[0]] + Insert(rules[1..], r)
  }

  /** `sort.SliceStable` by descending priority. */
  function Sorted(rules: seq<Rule>): seq<Rule> {
    if rules == [] then [] else Insert(Sorted(rules[..|rules| - 1]), rules[|rules| - 1])
  }

  function Dedup(rules: seq<Rule>, seen: set<Key>): seq<Rule> {
    if rules == [] then []
    else if KeyOf(rules[0]) in seen then Dedup(rules[1..], seen)
    else [rules[0]] + Dedup(rules[1..], seen + {KeyOf(rules[0])})
  }

  function Compile(rules: seq<Rule>): seq<Rule> {
    Dedup(Sorted(rules), {})
  }

  function OfPriority(rules: seq<Rule>, p: int): seq<Rule> {
    if rules == [] then []
    else if rules[0].priority == p then [rules[0]] + OfPriority(rules[1..], p)
    else OfPriority(rules[1..], p)
  }

  lemma {:induction false} InsertRearranges(rules: seq<Rule>, r: Rule)
    ensures multiset(Insert(rules, r)) == multiset(rules) + multiset{r}
  {
    if rules == [] || rules[0].priority < r.priority {
    } else {
      InsertRearranges(rules[1..], r);
      assert rules == [rules[0]] + rules[1..];
    }
  }

  ghost predicate AtMost(rules: seq<Rule>, p: int) {
    forall i :: 0 <= i < |rules| ==> rules[i].priority <= p
  }

  lemma {:induction false} ConsOrdered(first: Rule, rest: seq<Rule>)
    requires ByPriority(rest) && AtMost(rest, first.priority)
    ensures ByPriority([first] + rest)
  {
  }

  lemma {:induction false} TailOrdered(rules: seq<Rule>)
    requires rules != [] && ByPriority(rules)
    ensures ByPriority(rules[1..]) && AtMost(rules[1..], rules[0].priority)
  {
  }

  lemma {:induction false} InsertAtMost(rules: seq<Rule>, r: Rule, p: int)
    requires AtMost(rules, p) && r.priority <= p
    ensures AtMost(Insert(rules, r), p)
  {
    if rules == [] || rules[0].priority < r.priority {
    } else {
      InsertAtMost(rules[1..], r, p);
    }
  }

  lemma {:induction false} InsertOrdered(rules: seq<Rule>, r: Rule)
    requires ByPriority(rules)
    ensures ByPriority(Insert(rules, r))
  {
    if rules == [] {
    } else if rules[0].priority < r.priority {
      ConsOrdered(r, rules);
    } else {
      TailOrdered(rules);
      InsertOrdered(rules[1..], r);
      InsertAtMost(rules[1..], r, rules[0].priority);
      ConsOrdered(rules[0], Insert(rules[1..], r));
    }
  }

  lemma {:induction false} InsertStable(rules: seq<Rule>, r: Rule, p: int)
    requires ByPriority(rules)
    ensures OfPriority(Insert(rules, r), p) == OfPriority(rules, p) + if r.priority == p then [r] else []
  {
    if rules == [] || rules[0].priority < r.priority {
      assert ([r] + rules)[1..] == rules;
      if r.priority == p { NoneOfPriority(rules, p); }
    } else {
      InsertStable(rules[1..], r, p);
      assert ([rules[0]] + Insert(rules[1..], r))[1..] == Insert(rules[1..], r);
    }
  }

  lemma {:induction false} NoneOfPriority(rules: seq<Rule>, p: int)
    requires forall i :: 0 <= i < |rules| ==> rules[i].priority < p
    ensures OfPriority(rules, p) == []
  {
    if rules == [] {
    } else {
      NoneOfPriority(rules[1..], p);
    }
  }

  /** `Sorted` is the stable sort: ordered, a rearrangement, and rules of one
      priority keep their order of insertion. */
  lemma {:induction false} SortedIsStable(rules: seq<Rule>)
    ensures ByPriority(Sorted(rules)) && multiset(Sorted(rules)) == multiset(rules)
    ensures forall p :: OfPriority(Sorted(rules), p) == OfPriority(rules, p)
  {
    SortedOrdered(rules);
    SortedRearranges(rules);
    forall p ensures OfPriority(Sorted(rules), p) == OfPriority(rules, p) {
      SortedKeepsOrder(rules, p);
    }
  }

  lemma {:induction false} SortedOrdered(rules: seq<Rule>)
    ensures ByPriority(Sorted(rules))
  {
    if rules == [] {
    } else {
      var init, last := rules[..|rules| - 1], rules[|rules| - 1];
      SortedOrdered(init);
      InsertOrdered(Sorted(init), last);
    }
  }

  lemma {:induction false} SortedRearranges(rules: seq<Rule>)
    ensures multiset(Sorted(rules)) == multiset(rules)
  {
    if rules == [] {
    } else {
      var init, last := rules[..|rules| - 1], rules[|rules| - 1];
      SortedRearranges(init);
      InsertRearranges(Sorted(init), last);
      assert rules == init + [last];
    }
  }

  lemma {:induction false} SortedKeepsOrder(rules: seq<Rule>, p: int)
    ensures OfPriority(Sorted(rules), p) == OfPriority(rules, p)
  {
    if rules == [] {
    } else {
      var init, last := rules[..|rules| - 1], rules[|rules| - 1];
      SortedOrdered(init);
      SortedKeepsOrder(init, p);
      InsertStable(Sorted(init), last, p);
      OfPriorityAppend(init, last, p);
      assert rules == init + [last];
    }
  }

  lemma {:induction false} OfPriorityAppend(rules: seq<Rule>, r: Rule, p: int)
    ensures OfPriority(rules + [r], p) == OfPriority(rules, p) + if r.priority == p then [r] else []
  {
    if rules == [] {
      assert [] + [r] == [r] && [r][1..] == [];
    } else {
      OfPriorityAppend(rules[1..], r, p);
      assert (rules + [r])[1..] == rules[1..] + [r];
    }
  }

  // ---- Removing repeats commutes with adding rules ------------------------

  lemma {:induction false} DedupMembers(rules: seq<Rule>, seen: set<Key>)
    ensures forall r :: r in Dedup(rules, seen) ==> r in rules && KeyOf(r) !in seen
  {
    if rules == [] {
    } else {
      DedupMembers(rules[1..], seen);
      DedupMembers(rules[1..], seen + {KeyOf(rules[0])});
    }
  }

  lemma {:induction false} DedupAtMost(rules: seq<Rule>, seen: set<Key>, p: int)
    requires AtMost(rules, p)
    ensures AtMost(Dedup(rules, seen), p)
  {
    var d := Dedup(rules, seen);
    DedupMembers(rules, seen);
    forall i | 0 <= i < |d| ensures d[i].priority <= p {
      assert d[i] in d;
    }
  }

  lemma {:induction false} DedupOrdered(rules: seq<Rule>, seen: set<Key>)
    requires ByPriority(rules)
    ensures ByPriority(Dedup(rules, seen))
  {
    if rules == [] {
    } else {
      var with := seen + {KeyOf(rules[0])};
      TailOrdered(rules);
      DedupOrdered(rules[1..], seen);
      DedupOrdered(rules[1..], with);
      DedupAtMost(rules[1..], with, rules[0].priority);
      ConsOrdered(rules[0], Dedup(rules[1..], with));
    }
  }

  lemma {:induction false} DedupTwice(rules: seq<Rule>, seen: set<Key>, more: set<Key>)
    requires seen <= more
    ensures Dedup(Dedup(rules, seen), more) == Dedup(rules, more)
  {
    if rules == [] {
    } else {
      var k := KeyOf(rules[0]);
      if k in seen {
        DedupTwice(rules[1..], seen, more);
      } else {
        var rest := Dedup(rules[1..], seen + {k});
        assert ([rules[0]] + rest)[1..] == rest;
        DedupTwice(rules[1..], seen + {k}, more + {k});
        if k in more {
          assert more + {k} == more;
        }
      }
    }
  }

  lemma {:induction false} DedupInsert(rules: seq<Rule>, r: Rule, seen: set<Key>)
    requires ByPriority(rules)
    ensures Dedup(Insert(Dedup(rules, seen), r), seen) == Dedup(Insert(rules, r), seen)
  {
    if rules == [] {
    } else if rules[0].priority < r.priority {
      var d := Dedup(rules, seen);
      DedupMembers(rules, seen);
      assert d != [] ==> d[0] in d && d[0].priority < r.priority;
      assert ([r] + d)[1..] == d && ([r] + rules)[1..] == rules;
      DedupTwice(rules, seen, seen);
      DedupTwice(rules, seen, seen + {KeyOf(r)});
    } else {
      var k, tail := KeyOf(rules[0]), rules[1..];
      assert ([rules[0]] + Insert(tail, r))[1..] == Insert(tail, r);
      if k in seen {
        DedupInsert(tail, r, seen);
      } else {
        DedupInsert(tail, r, seen + {k});
        var d := Dedup(tail, seen + {k});
        assert ([rules[0]] + d)[1..] == d;
        assert ([rules[0]] + Insert(d, r))[1..] == Insert(d, r);
      }
    }
  }

  lemma {:induction false} InsertLast(rules: seq<Rule>, r: Rule)
    requires ByPriority(rules + [r])
    ensures Insert(rules, r) == rules + [r]
  {
    if rules == [] {
    } else {
      var all := rules + [r];
      assert all[0].priority >= all[|rules|].priority;
      assert all[1..] == rules[1..] + [r];
      TailOrdered(all);
      InsertLast(rules[1..], r);
    }
  }

  lemma {:induction false} SortedFixed(rules: seq<Rule>)
    requires ByPriority(rules)
    ensures Sorted(rules) == rules
  {
    if rules == [] {
    } else {
      var init, last := rules[..|rules| - 1], rules[|rules| - 1];
      assert rules == init + [last];
      SortedFixed(init);
      InsertLast(init, last);
    }
  }

  /** However the rules arrive, in one batch, one at a time or in any other
      portions, with a sort and a clean-up after each, the list that remains
      is the same. */
  lemma {:induction false} CompileInPortions(a: seq<Rule>, b: seq<Rule>)
    ensures Compile(Compile(a) + b) == Compile(a + b)
  {
    if b == [] {
      assert Compile(a) + b == Compile(a) && a + b == a;
      SortedOrdered(a);
      DedupOrdered(Sorted(a), {});
      SortedFixed(Compile(a));
      DedupTwice(Sorted(a), {}, {});
    } else {
      var init, last := b[..|b| - 1], b[|b| - 1];
      assert b == init + [last];
      CompileInPortions(a, init);
      CompileSnoc(Compile(a), init, last);
      CompileSnoc(a, init, last);
    }
  }

  lemma {:induction false} CompileSnoc(a: seq<Rule>, init: seq<Rule>, last: Rule)
    ensures Compile(a + (init + [last])) == Dedup(Insert(Compile(a + init), last), {})
  {
    SortedSnoc(a, init, last);
    SortedOrdered(a + init);
    DedupInsert(Sorted(a + init), last, {});
  }

  lemma {:induction false} SortedSnoc(a: seq<Rule>, init: seq<Rule>, last: Rule)
    ensures Sorted(a + (init + [last])) == Insert(Sorted(a + init), last)
  {
    var all := a + (init + [last]);
    assert all[..|all| - 1] == a + init && all[|all| - 1] == last;
  }

  // ---- Removing repeats and the verdict -----------------------------------

  function FiringRule(parse: Parser, rules: seq<Rule>, t: Target): Option<Rule> {
    if rules == [] then None
    else if Fires(parse, rules[0], t) then Some(rules[0])
    else FiringRule(parse, rules[1..], t)
  }

  lemma {:induction false} FiringRuleIs(parse: Parser, rules: seq<Rule>, t: Target)
    ensures FiringRule(parse, rules, t) ==
            match FirstFiring(parse, rules, t) case None => None case Some(i) =>
              (FirstFiringIs(parse, rules, t); Some(rules[i]))
  {
    FirstFiringIs(parse, rules, t);
    if rules == [] || Fires(parse, rules[0], t) {
    } else {
      FiringRuleIs(parse, rules[1..], t);
      FirstFiringIs(parse, rules[1..], t);
    }
  }

  /** No earlier rule has the key of rule `w`, nor has it been seen before. */
  ghost predicate FreshKey(rules: seq<Rule>, seen: set<Key>, w: nat)
    requires w < |rules|
  {
    KeyOf(rules[w]) !in seen && forall i :: 0 <= i < w ==> KeyOf(rules[i]) != KeyOf(rules[w])
  }

  /** Removing repeats keeps the winning rule exactly when no earlier rule has
      its key.  (Such an earlier rule is necessarily a disabled one: an enabled
      one would have fired first.) */
  lemma {:induction false} DedupKeepsWinner(parse: Parser, rules: seq<Rule>, seen: set<Key>, t: Target, w: nat)
    requires FirstFiring(parse, rules, t) == Some(w) && w < |rules|
    ensures FiringRule(parse, Dedup(rules, seen), t) == Some(rules[w]) <==> FreshKey(rules, seen, w)
  {
    if w == 0 {
      WinnerAtHead(parse, rules, seen, t);
    } else {
      var k, tail := KeyOf(rules[0]), rules[1..];
      var with := seen + {k};
      FirstFiringIs(parse, rules, t);
      assert FirstFiring(parse, tail, t) == Some(w - 1) && tail[w - 1] == rules[w];
      DedupKeepsWinner(parse, tail, with, t, w - 1);
      HeadSilent(parse, rules, seen, t);
      KeysBefore(rules, seen, w);
    }
  }

  lemma {:induction false} WinnerAtHead(parse: Parser, rules: seq<Rule>, seen: set<Key>, t: Target)
    requires rules != [] && Fires(parse, rules[0], t)
    ensures FiringRule(parse, Dedup(rules, seen), t) == Some(rules[0]) <==> KeyOf(rules[0]) !in seen
  {
    if KeyOf(rules[0]) in seen {
      DedupDropsKeys(parse, rules[1..], seen, t);
    }
  }

  lemma {:induction false} HeadSilent(parse: Parser, rules: seq<Rule>, seen: set<Key>, t: Target)
    requires rules != [] && !Fires(parse, rules[0], t)
    ensures FiringRule(parse, Dedup(rules, seen), t) ==
            FiringRule(parse, Dedup(rules[1..], seen + {KeyOf(rules[0])}), t)
  {
    var k := KeyOf(rules[0]);
    var d := Dedup(rules[1..], seen + {k});
    if k in seen {
      assert seen + {k} == seen;
    } else {
      assert ([rules[0]] + d)[1..] == d;
    }
  }

  lemma {:induction false} KeysBefore(rules: seq<Rule>, seen: set<Key>, w: nat)
    requires 0 < w < |rules|
    ensures FreshKey(rules, seen, w) <==> FreshKey(rules[1..], seen + {KeyOf(rules[0])}, w - 1)
  {
    var tail := rules[1..];
    assert tail[w - 1] == rules[w];
    assert forall i :: 1 <= i < w ==> tail[i - 1] == rules[i];
    if FreshKey(tail, seen + {KeyOf(rules[0])}, w - 1) {
      forall i | 0 <= i < w ensures KeyOf(rules[i]) != KeyOf(rules[w]) {
        if i > 0 {
          assert KeyOf(tail[i - 1]) != KeyOf(tail[w - 1]);
        }
      }
    }
  }

  lemma {:induction false} DedupDropsKeys(parse: Parser, rules: seq<Rule>, seen: set<Key>, t: Target)
    ensures forall r :: FiringRule(parse, Dedup(rules, seen), t) == Some(r) ==> KeyOf(r) !in seen
  {
    FiringRuleIs(parse, Dedup(rules, seen), t);
    FirstFiringIs(parse, Dedup(rules, seen), t);
    DedupMembers(rules, seen);
  }

  lemma {:induction false} DedupAddsNothing(parse: Parser, rules: seq<Rule>, seen: set<Key>, t: Target)
    requires FirstFiring(parse, rules, t).None?
    ensures FiringRule(parse, Dedup(rules, seen), t).None?
  {
    FirstFiringIs(parse, rules, t);
    DedupMembers(rules, seen);
    FiringRuleIs(parse, Dedup(rules, seen), t);
    FirstFiringIs(parse, Dedup(rules, seen), t);
  }

  /** Some host or address is decided by rule `w`. */
  ghost predicate CanWin(parse: Parser, rules: seq<Rule>, w: nat) {
    exists t :: FirstFiring(parse, rules, t) == Some(w)
  }

  /** A disabled rule with the same key stands before rule `w`. */
  predicate Hidden(rules: seq<Rule>, w: nat)
    requires w < |rules|
  {
    exists i :: 0 <= i < w && !rules[i].enabled && KeyOf(rules[i]) == KeyOf(rules[w])
  }

  /** An enabled rule with the winner's key would have fired before it. */
  lemma {:induction false} FreshUnlessHidden(parse: Parser, rules: seq<Rule>, t: Target, w: nat)
    requires FirstFiring(parse, rules, t) == Some(w) && w < |rules|
    ensures FreshKey(rules, {}, w) <==> !Hidden(rules, w)
  {
    FirstFiringIs(parse, rules, t);
    forall i | 0 <= i < w && KeyOf(rules[i]) == KeyOf(rules[w]) ensures !rules[i].enabled {
      assert !Fires(parse, rules[i], t);
    }
  }

  /** For one target: the winner stays unless it is hidden. */
  lemma {:induction false} DedupKeepsOne(parse: Parser, rules: seq<Rule>, t: Target)
    ensures match FirstFiring(parse, rules, t)
      case None => SameWinner(parse, rules, t)
      case Some(w) => w < |rules| && (SameWinner(parse, rules, t) <==> !Hidden(rules, w))
  {
    FirstFiringIs(parse, rules, t);
    FiringRuleIs(parse, rules, t);
    match FirstFiring(parse, rules, t)
    case None => DedupAddsNothing(parse, rules, {}, t);
    case Some(w) =>
      FreshUnlessHidden(parse, rules, t, w);
      DedupKeepsWinner(parse, rules, {}, t, w);
  }

  /** Removing repeats changes the winning rule for no host or address if and only if
      no rule that can win is hidden by a disabled one. */
  lemma {:induction false} DedupKeepsAllIff(parse: Parser, rules: seq<Rule>)
    ensures DedupKeepsAll(parse, rules) <==>
            (forall w {:trigger CanWin(parse, rules, w)} :: 0 <= w < |rules| && CanWin(parse, rules, w) ==> !Hidden(rules, w))
  {
    if DedupKeepsAll(parse, rules) {
      forall w | 0 <= w < |rules| && CanWin(parse, rules, w) ensures !Hidden(rules, w) {
        var t :| FirstFiring(parse, rules, t) == Some(w);
        DedupKeepsOne(parse, rules, t);
        assert SameWinner(parse, rules, t);
      }
    } else {
      var t :| !SameWinner(parse, rules, t);
      DedupKeepsOne(parse, rules, t);
      assert CanWin(parse, rules, FirstFiring(parse, rules, t).value);
    }
  }

  predicate SameWinner(parse: Parser, rules: seq<Rule>, t: Target) {
    FiringRule(parse, Dedup(rules, {}), t) == FiringRule(parse, rules, t)
  }

  ghost predicate DedupKeepsAll(parse: Parser, rules: seq<Rule>) {
    forall t :: SameWinner(parse, rules, t)
  }

  /** With every rule enabled the verdict never changes. */
  lemma {:induction false} DedupKeepsVerdict(parse: Parser, rules: seq<Rule>, t: Target)
    requires forall i :: 0 <= i < |rules| ==> rules[i].enabled
    ensures FiringRule(parse, Dedup(rules, {}), t) == FiringRule(parse, rules, t)
  {
    FiringRuleIs(parse, rules, t);
    FirstFiringIs(parse, rules, t);
    match FirstFiring(parse, rules, t)
    case None => DedupAddsNothing(parse, rules, {}, t);
    case Some(w) =>
      assert forall i :: 0 <= i < w ==> !Fires(parse, rules[i], t);
      DedupKeepsWinner(parse, rules, {}, t, w);
  }

  /** A disabled rule can hide a later enabled one with the same key. */
  lemma {:induction false} DisabledRuleHidesEnabledOne(parse: Parser)
    ensures var off, on := Rule(Domain, "a", "tunnel", false, 0), Rule(Domain, "a", "direct", true, 0);
      && FiringRule(parse, [off, on], Host("a")) == Some(on)
      && FiringRule(parse, Compile([off, on]), Host("a")) == None
  {
    var off, on := Rule(Domain, "a", "tunnel", false, 0), Rule(Domain, "a", "direct", true, 0);
    assert KeyOf(off) == KeyOf(on) == Key(Domain, "a");
    assert OnLabelBoundary("a", "a");
    assert [off, on][1..] == [on];
    assert FiringRule(parse, [on], Host("a")) == Some(on);
    SortedFixed([off, on]);
    assert Dedup([on], {} + {KeyOf(off)}) == [] by { assert [on][1..] == []; }
    assert Dedup([off, on], {}) == [off];
    assert [off][1..] == [];
  }
}
