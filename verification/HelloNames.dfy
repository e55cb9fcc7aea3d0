/** Where `sniSplitOffset` of `core/asn_bypass` splits a ClientHello: exactly in the
    middle of the first server name, read off the hello as it was put together. */
module HelloNames {
  import opened Bytes
  import opened HelloFragments

  datatype Extension = Extension(typ: nat, data: seq<byte>)

  ghost predicate ValidExtension(e: Extension) {
    e.typ < U16_LIMIT && |e.data| < U16_LIMIT
  }

  function EncodeExtension(e: Extension): seq<byte> {
    BE16(e.typ) + BE16(|e.data|) + e.data
  }

  function EncodeExtensions(es: seq<Extension>): seq<byte> {
    if es == [] then [] else EncodeExtension(es[0]) + EncodeExtensions(es[1..])
  }

  /** The server name extension (section 3 of RFC 6066) for one host name. */
  function ServerName(name: seq<byte>): Extension {
    Extension(0, BE16((|name| + 3) % U16_LIMIT) + [0] + BE16(|name|) + name)
  }

  /** What stands in front of the extensions: `head` is the message header, version
      and random, followed by session id, cipher suites and compression methods, and
      the length of the list of extensions. */
  function HelloFront(head: seq<byte>, id: seq<byte>, suites: seq<byte>, methods: seq<byte>, size: nat): seq<byte>
    requires |id| < 256 && |methods| < 256
  {
    WithMethods(WithSuites(WithId(head, id), suites), methods) + BE16(size)
  }

  function WithId(head: seq<byte>, id: seq<byte>): seq<byte>
    requires |id| < 256
  {
    head + [|id|] + id
  }

  function WithSuites(front: seq<byte>, suites: seq<byte>): seq<byte> {
    front + BE16(|suites|) + suites
  }

  function WithMethods(front: seq<byte>, methods: seq<byte>): seq<byte>
    requires |methods| < 256
  {
    front + [|methods|] + methods
  }

  /** A hello with a server name extension: everything up to it, its body, and any
      bytes behind.  The list of extensions may announce more than is there. */
  datatype Named = Named(head: seq<byte>, id: seq<byte>, suites: seq<byte>, methods: seq<byte>, size: nat,
                         before: seq<Extension>, data: seq<byte>, rest: seq<byte>)

  ghost predicate ValidNamed(h: Named) {
    && |h.head| == 38 && h.head[0] == 0x01
    && |h.id| < 256 && |h.suites| < U16_LIMIT && |h.methods| < 256 && h.size < U16_LIMIT && |h.data| < U16_LIMIT
    && (forall i :: 0 <= i < |h.before| ==> ValidExtension(h.before[i]) && h.before[i].typ != 0)
    && |EncodeExtensions(h.before)| + 4 + |h.data| <= h.size
  }

  ghost function FrontOf(h: Named): seq<byte>
    requires ValidNamed(h)
  {
    HelloFront(h.head, h.id, h.suites, h.methods, h.size)
  }

  ghost function Text(h: Named): seq<byte>
    requires ValidNamed(h)
  {
    FrontOf(h) + EncodeExtensions(h.before) + EncodeExtension(Extension(0, h.data)) + h.rest
  }

  /** Where the bytes of the name begin, behind the extension's type and length, the
      length of the list of names, the name's type and its length. */
  ghost function NameAt(h: Named): nat
    requires ValidNamed(h)
  {
    |FrontOf(h)| + |EncodeExtensions(h.before)| + 9
  }

  /** The extension holds the length of a name, of two bytes or more, and those bytes
      are there. */
  ghost predicate HasName(h: Named)
    requires ValidNamed(h)
  {
    |h.data| >= 5 && 2 <= U16(h.data[3..5]) <= |Text(h)| - NameAt(h)
  }

  // ---- From the hello to the split ----------------------------------------

  lemma {:induction false} U16At(a: seq<byte>, n: nat, b: seq<byte>)
    requires n < U16_LIMIT
    ensures U16((a + BE16(n) + b)[|a|..]) == n
  {
    U16RoundTrip(n);
    var s := (a + BE16(n) + b)[|a|..];
    assert s[0] == BE16(n)[0] && s[1] == BE16(n)[1];
  }

  /** The two length fields of an extension, wherever it stands. */
  lemma {:induction false} ExtensionFields(front: seq<byte>, e: Extension, rest: seq<byte>)
    requires ValidExtension(e)
    ensures var payload := front + EncodeExtension(e) + rest;
      U16(payload[|front|..]) == e.typ && U16(payload[|front| + 2..]) == |e.data|
  {
    var payload := front + EncodeExtension(e) + rest;
    U16At(front, e.typ, BE16(|e.data|) + e.data + rest);
    assert payload == front + BE16(e.typ) + (BE16(|e.data|) + e.data + rest);
    U16At(front + BE16(e.typ), |e.data|, e.data + rest);
    assert payload == front + BE16(e.typ) + BE16(|e.data|) + (e.data + rest);
  }

  /** The extension stands at this place: its type and its length can be read there. */
  ghost predicate Stands(payload: seq<byte>, p: nat, e: Extension) {
    p + 4 + |e.data| <= |payload| && U16(payload[p..]) == e.typ && U16(payload[p + 2..]) == |e.data|
  }

  ghost predicate AllStand(payload: seq<byte>, p: nat, es: seq<Extension>)
    decreases |es|
  {
    es == [] || (Stands(payload, p, es[0]) && AllStand(payload, p + 4 + |es[0].data|, es[1..]))
  }

  lemma {:induction false} EncodedStand(front: seq<byte>, es: seq<Extension>, rest: seq<byte>)
    requires forall i :: 0 <= i < |es| ==> ValidExtension(es[i])
    ensures AllStand(front + EncodeExtensions(es) + rest, |front|, es)
    decreases |es|
  {
    if es == [] {
    } else {
      var first, others := EncodeExtension(es[0]), EncodeExtensions(es[1..]);
      ExtensionFields(front, es[0], others + rest);
      EncodedStand(front + first, es[1..], rest);
      Associate(front, first, others);
      Associate(front + first, others, rest);
    }
  }

  /** The extensions in front of the server name are stepped over. */
  lemma {:induction false} WalkToName(payload: seq<byte>, p: nat, before: seq<Extension>, data: seq<byte>, end: nat)
    requires AllStand(payload, p, before) && forall i :: 0 <= i < |before| ==> before[i].typ != 0
    requires var q := p + |EncodeExtensions(before)|;
      Stands(payload, q, Extension(0, data)) && q + 4 + |data| <= end <= |payload|
    ensures ExtensionSplit(payload, p, end) == NameSplit(payload, p + |EncodeExtensions(before)| + 4, |data|)
    decreases |before|
  {
    if before == [] {
    } else {
      WalkToName(payload, p + 4 + |before[0].data|, before[1..], data, end);
    }
  }

  /** The fields in front of the extensions, and the announced length of the list. */
  predicate FrontEnds(payload: seq<byte>, suites: nat, methods: nat, list: nat, size: nat) {
    && |payload| >= 39 && payload[0] == 0x01 && suites == 39 + payload[38] as int && suites + 2 <= |payload|
    && methods == suites + 2 + U16(payload[suites..]) && methods + 1 <= |payload|
    && list == methods + 1 + payload[methods] as int && list + 2 <= |payload|
    && U16(payload[list..]) == size
  }

  lemma {:induction false} SplitBehind(payload: seq<byte>, suites: nat, methods: nat, start: nat, size: nat)
    requires start >= 2 && FrontEnds(payload, suites, methods, start - 2, size)
    ensures SplitOffset(payload) ==
            ExtensionSplit(payload, start, if start + size > |payload| then |payload| else start + size)
  {
  }

  lemma {:induction false} FrontParsed(head: seq<byte>, id: seq<byte>, suites: seq<byte>, methods: seq<byte>,
                                       size: nat, extensions: seq<byte>, front: seq<byte>, payload: seq<byte>)
    returns (s: nat, m: nat)
    requires |head| == 38 && head[0] == 0x01 && |id| < 256 && |suites| < U16_LIMIT && |methods| < 256
    requires size < U16_LIMIT
    requires front == HelloFront(head, id, suites, methods, size) && payload == front + extensions
    ensures |front| >= 2 && FrontEnds(payload, s, m, |front| - 2, size)
  {
    var a := WithId(head, id);
    var b := WithSuites(a, suites);
    var c := WithMethods(b, methods);
    var tail := BE16(size) + extensions;
    Associate(c, BE16(size), extensions);
    U16At(c, size, extensions);
    MethodsAt(b, methods, tail);
    s, m := |a|, |b|;
    SuitesAt(head, id, suites, [|methods|] + methods + tail, payload);
  }

  lemma {:induction false} SuitesAt(head: seq<byte>, id: seq<byte>, suites: seq<byte>, tail: seq<byte>, payload: seq<byte>)
    requires |head| == 38 && |id| < 256 && |suites| < U16_LIMIT && payload == WithSuites(WithId(head, id), suites) + tail
    ensures payload[38] == |id| && payload[0] == head[0]
    ensures U16(payload[|WithId(head, id)|..]) == |suites|
  {
    var a := WithId(head, id);
    U16At(a, |suites|, suites + tail);
    assert payload == a + BE16(|suites|) + (suites + tail);
  }

  lemma {:induction false} MethodsAt(front: seq<byte>, methods: seq<byte>, tail: seq<byte>)
    requires |methods| < 256
    ensures (WithMethods(front, methods) + tail)[|front|] == |methods|
    ensures WithMethods(front, methods) + tail == front + ([|methods|] + methods + tail)
  {
    Associate(front + [|methods|], methods, tail);
    Associate([|methods|], methods, tail);
    Associate(front, [|methods|], methods + tail);
  }

  /** All that the search reads in a text: the fields in front of the extensions, the
      extensions up to the server name, and the length of the name. */
  ghost predicate Reads(text: seq<byte>, start: nat, size: nat, before: seq<Extension>, data: seq<byte>, s: nat, m: nat) {
    && start >= 2 && FrontEnds(text, s, m, start - 2, size)
    && AllStand(text, start, before) && Stands(text, start + |EncodeExtensions(before)|, Extension(0, data))
    && (|data| >= 5 ==> U16(text[start + |EncodeExtensions(before)| + 7..]) == U16(data[3..5]))
  }

  lemma {:induction false} SplitOfRead(text: seq<byte>, start: nat, size: nat, before: seq<Extension>, data: seq<byte>,
                                       s: nat, m: nat)
    requires Reads(text, start, size, before, data, s, m) && |EncodeExtensions(before)| + 4 + |data| <= size
    requires forall i :: 0 <= i < |before| ==> before[i].typ != 0
    ensures var at := start + |EncodeExtensions(before)| + 9;
      SplitOffset(text) ==
      if |data| >= 5 && 2 <= U16(data[3..5]) <= |text| - at then at + U16(data[3..5]) / 2 else -1
  {
    SplitBehind(text, s, m, start, size);
    WalkToName(text, start, before, data, if start + size > |text| then |text| else start + size);
  }

  lemma {:induction false} ListRead(h: Named)
    requires ValidNamed(h)
    ensures AllStand(Text(h), |FrontOf(h)|, h.before)
    ensures Stands(Text(h), |FrontOf(h)| + |EncodeExtensions(h.before)|, Extension(0, h.data))
  {
    var front, others, last := FrontOf(h), EncodeExtensions(h.before), EncodeExtension(Extension(0, h.data));
    Associate(front + others, last, h.rest);
    EncodedStand(front, h.before, last + h.rest);
    ExtensionFields(front + others, Extension(0, h.data), h.rest);
  }

  lemma {:induction false} FrontRead(h: Named) returns (s: nat, m: nat)
    requires ValidNamed(h)
    ensures |FrontOf(h)| >= 2 && FrontEnds(Text(h), s, m, |FrontOf(h)| - 2, h.size)
  {
    var front, others, last := FrontOf(h), EncodeExtensions(h.before), EncodeExtension(Extension(0, h.data));
    Regrouped(front, others, last, h.rest);
    s, m := FrontParsed(h.head, h.id, h.suites, h.methods, h.size, others + last + h.rest, front, Text(h));
  }

  lemma {:induction false} LengthRead(h: Named)
    requires ValidNamed(h) && |h.data| >= 5
    ensures |Text(h)| >= |FrontOf(h)| + |EncodeExtensions(h.before)| + 9
    ensures U16(Text(h)[|FrontOf(h)| + |EncodeExtensions(h.before)| + 7..]) == U16(h.data[3..5])
  {
    var front := FrontOf(h) + EncodeExtensions(h.before);
    LengthInside(front, h.data, h.rest);
  }

  lemma {:induction false} LengthInside(front: seq<byte>, data: seq<byte>, rest: seq<byte>)
    requires |data| >= 5
    ensures var text := front + EncodeExtension(Extension(0, data)) + rest;
      U16(text[|front| + 7..]) == U16(data[3..5])
  {
    var t := (front + EncodeExtension(Extension(0, data)) + rest)[|front| + 7..];
    assert t[0] == data[3] == data[3..5][0] && t[1] == data[4] == data[3..5][1];
  }

  lemma {:induction false} TextReads(h: Named) returns (s: nat, m: nat)
    requires ValidNamed(h)
    ensures Reads(Text(h), |FrontOf(h)|, h.size, h.before, h.data, s, m)
  {
    s, m := FrontRead(h);
    ListRead(h);
    if |h.data| >= 5 {
      LengthRead(h);
    }
  }

  /** The split of a hello with a server name extension: the middle of the name, or
      none if there is no such name. */
  lemma {:induction false} SplitOfNamed(h: Named)
    requires ValidNamed(h)
    ensures SplitOffset(Text(h)) == if HasName(h) then NameAt(h) + U16(h.data[3..5]) / 2 else -1
  {
    var s, m := TextReads(h);
    SplitOfRead(Text(h), |FrontOf(h)|, h.size, h.before, h.data, s, m);
  }

  /** In every well-formed hello the first server name, when it has two bytes or
      more, is where the split goes, at the middle of the name. */
  lemma {:induction false} HelloSplitInName(head: seq<byte>, id: seq<byte>, suites: seq<byte>, methods: seq<byte>,
                                            before: seq<Extension>, name: seq<byte>, rest: seq<byte>)
    requires |head| == 38 && head[0] == 0x01 && |id| < 256 && |suites| < U16_LIMIT && |methods| < 256
    requires forall i :: 0 <= i < |before| ==> ValidExtension(before[i]) && before[i].typ != 0
    requires 2 <= |name|
    requires |EncodeExtensions(before) + EncodeExtension(ServerName(name)) + rest| < U16_LIMIT
    ensures var extensions := EncodeExtensions(before) + EncodeExtension(ServerName(name)) + rest;
      var front := HelloFront(head, id, suites, methods, |extensions|);
      SplitOffset(front + extensions) == |front| + |EncodeExtensions(before)| + 9 + |name| / 2
  {
    var extensions := EncodeExtensions(before) + EncodeExtension(ServerName(name)) + rest;
    var front := HelloFront(head, id, suites, methods, |extensions|);
    var data := ServerName(name).data;
    var h := Named(head, id, suites, methods, |extensions|, before, data, rest);
    assert Text(h) == front + extensions;
    U16RoundTrip(|name|);
    assert data[3..5] == BE16(|name|);
    SplitOfNamed(h);
  }

  // ---- From the split to the hello ----------------------------------------

  lemma {:induction false} NumberAt(s: seq<byte>, k: nat)
    requires k + 2 <= |s|
    ensures BE16(U16(s[k..])) == s[k..k + 2]
  {
    var hi, lo := s[k..][0], s[k..][1];
    assert (hi as int * 256 + lo as int) / 256 == hi as int;
  }

  /** A walk that finds a name has passed whole extensions. */
  lemma {:induction false} WalkedExtensions(payload: seq<byte>, p: nat, end: nat)
    returns (before: seq<Extension>, data: seq<byte>)
    requires p <= end <= |payload| && ExtensionSplit(payload, p, end) != -1
    ensures forall i :: 0 <= i < |before| ==> ValidExtension(before[i]) && before[i].typ != 0
    ensures |data| < U16_LIMIT && |EncodeExtensions(before)| + 4 + |data| <= end - p
    ensures payload[p..] == EncodeExtensions(before) + EncodeExtension(Extension(0, data)) +
                            payload[p + |EncodeExtensions(before)| + 4 + |data|..]
    decreases end - p
  {
    var typ, size := U16(payload[p..]), U16(payload[p + 2..]);
    var e, next := Extension(typ, payload[p + 4..p + 4 + size]), p + 4 + size;
    NumberAt(payload, p);
    NumberAt(payload, p + 2);
    assert EncodeExtension(e) == payload[p..next];
    assert payload[p..] == payload[p..next] + payload[next..];
    if typ == 0 {
      before, data := [], e.data;
      assert payload[p..] == [] + EncodeExtension(e) + payload[next..];
    } else {
      var others, found := WalkedExtensions(payload, next, end);
      before, data := [e] + others, found;
      assert EncodeExtensions(before) == EncodeExtension(e) + EncodeExtensions(others);
      Regrouped(EncodeExtension(e), EncodeExtensions(others), EncodeExtension(Extension(0, data)),
                payload[next + |EncodeExtensions(others)| + 4 + |data|..]);
    }
  }

  lemma {:induction false} Regrouped(a: seq<byte>, b: seq<byte>, c: seq<byte>, d: seq<byte>)
    ensures a + (b + c + d) == a + b + c + d
  {
  }

  lemma {:induction false} FrontBack(payload: seq<byte>, suites: nat, methods: nat, list: nat, size: nat)
    requires FrontEnds(payload, suites, methods, list, size)
    ensures payload[..list + 2] ==
            HelloFront(payload[..38], payload[39..suites], payload[suites + 2..methods], payload[methods + 1..list], size)
  {
    NumberAt(payload, suites);
    NumberAt(payload, list);
    var a := WithId(payload[..38], payload[39..suites]);
    assert a == payload[..suites];
    var b := WithSuites(a, payload[suites + 2..methods]);
    assert b == payload[..methods];
    var c := WithMethods(b, payload[methods + 1..list]);
    assert c == payload[..list];
  }

  /** Where the walk began, if there is a split. */
  lemma {:induction false} WalkBegins(payload: seq<byte>) returns (suites: nat, methods: nat, list: nat, end: nat)
    requires SplitOffset(payload) != -1
    ensures |payload| >= list + 2 && FrontEnds(payload, suites, methods, list, U16(payload[list..]))
    ensures list + 2 <= end <= |payload| && end <= list + 2 + U16(payload[list..])
    ensures ExtensionSplit(payload, list + 2, end) != -1
  {
    suites := 39 + payload[38] as int;
    methods := suites + 2 + U16(payload[suites..]);
    list := methods + 1 + payload[methods] as int;
    var size := U16(payload[list..]);
    end := if list + 2 + size > |payload| then |payload| else list + 2 + size;
  }

  lemma {:induction false} AsNamed(payload: seq<byte>, suites: nat, methods: nat, list: nat, size: nat,
                                   before: seq<Extension>, data: seq<byte>, rest: seq<byte>) returns (h: Named)
    requires FrontEnds(payload, suites, methods, list, size) && |data| < U16_LIMIT
    requires forall i :: 0 <= i < |before| ==> ValidExtension(before[i]) && before[i].typ != 0
    requires |EncodeExtensions(before)| + 4 + |data| <= size
    requires payload[list + 2..] == EncodeExtensions(before) + EncodeExtension(Extension(0, data)) + rest
    ensures ValidNamed(h) && Text(h) == payload
  {
    FrontBack(payload, suites, methods, list, size);
    h := Named(payload[..38], payload[39..suites], payload[suites + 2..methods], payload[methods + 1..list], size,
               before, data, rest);
    assert payload == payload[..list + 2] + payload[list + 2..];
    Regrouped(payload[..list + 2], EncodeExtensions(before), EncodeExtension(Extension(0, data)), rest);
  }

  lemma {:induction false} FromWalk(payload: seq<byte>, suites: nat, methods: nat, list: nat, end: nat) returns (h: Named)
    requires |payload| >= list + 2 && FrontEnds(payload, suites, methods, list, U16(payload[list..]))
    requires list + 2 <= end <= |payload| && end <= list + 2 + U16(payload[list..])
    requires ExtensionSplit(payload, list + 2, end) != -1
    ensures ValidNamed(h) && Text(h) == payload
  {
    var before, data := WalkedExtensions(payload, list + 2, end);
    h := AsNamed(payload, suites, methods, list, U16(payload[list..]), before, data,
                 payload[list + 2 + |EncodeExtensions(before)| + 4 + |data|..]);
  }

  /** A split is found in no other payload: it is such a hello, with such a name. */
  lemma {:induction false} SplitMeansNamed(payload: seq<byte>) returns (h: Named)
    requires SplitOffset(payload) != -1
    ensures ValidNamed(h) && Text(h) == payload && HasName(h)
  {
    var suites, methods, list, end := WalkBegins(payload);
    h := FromWalk(payload, suites, methods, list, end);
    SplitOfNamed(h);
  }
}
