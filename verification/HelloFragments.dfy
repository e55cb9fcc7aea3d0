/** The ClientHello cut into several TLS records (`core/asn_bypass`), put together
    again while peeking (`peekClientHello` in `core/protocol`), and replayed from
    the first byte afterwards (`prefixConn`). */
module HelloFragments {
  import opened Bytes
  import opened Powers

  const HANDSHAKE: byte := 0x16
  const DEFAULT_MAX_RECORDS: nat := 8
  const MAX_RECORD: nat := 16384
  const MAX_HANDSHAKE: nat := 8192

  function Concat(parts: seq<seq<byte>>): seq<byte> {
    if parts == [] then [] else parts[0] + Concat(parts[1..])
  }

  lemma {:induction false} ConcatSnoc(parts: seq<seq<byte>>, p: seq<byte>)
    ensures Concat(parts + [p]) == Concat(parts) + p
  {
    if parts == [] {
      assert parts + [p] == [p] && [p][1..] == [];
    } else {
      ConcatSnoc(parts[1..], p);
      assert (parts + [p])[1..] == parts[1..] + [p];
      assert parts[0] + (Concat(parts[1..]) + p) == parts[0] + Concat(parts[1..]) + p;
    }
  }

  /** A TLS record with the given type and version bytes. */
  function Record(head: seq<byte>, chunk: seq<byte>): seq<byte>
    requires |head| == 3
  {
    head + BE16(|chunk|) + chunk
  }

  function Records(head: seq<byte>, chunks: seq<seq<byte>>): seq<seq<byte>>
    requires |head| == 3
  {
    seq(|chunks|, i requires 0 <= i < |chunks| => Record(head, chunks[i]))
  }

  // ---- Where the server name can be split ---------------------------------

  /** `r` splits the name of `len` bytes at `name`, whose length stands in front. */
  predicate SplitsName(payload: seq<byte>, name: nat, len: nat, r: int) {
    2 <= name && 2 <= len && name + len <= |payload| && name < r < name + len && U16(payload[name - 2..name]) == len
  }

  /** The middle of the name in a server name extension at `body`, or -1. */
  function NameSplit(payload: seq<byte>, body: nat, size: nat): int
    requires body + size <= |payload|
  {
    if size < 5 then -1
    else
      var len := U16(payload[body + 3..]);
      if len < 2 || body + 5 + len > |payload| then -1 else body + 5 + len / 2
  }

  /** Walks the extensions between `p` and `end` up to the first server name. */
  function ExtensionSplit(payload: seq<byte>, p: nat, end: nat): int
    requires end <= |payload|
    decreases end - p
  {
    if p + 4 > end then -1
    else
      var size := U16(payload[p + 2..]);
      if p + 4 + size > end then -1
      else if U16(payload[p..]) == 0 then NameSplit(payload, p + 4, size)
      else ExtensionSplit(payload, p + 4 + size, end)
  }

  function SplitOffset(payload: seq<byte>): int {
    if |payload| < 39 || payload[0] != 0x01 then -1
    else
      var suites := 39 + payload[38] as int;
      if suites + 2 > |payload| then -1
      else
        var methods := suites + 2 + U16(payload[suites..]);
        if methods + 1 > |payload| then -1
        else
          var list := methods + 1 + payload[methods] as int;
          if list + 2 > |payload| then -1
          else
            var end := list + 2 + U16(payload[list..]);
            ExtensionSplit(payload, list + 2, if end > |payload| then |payload| else end)
  }

  method SniSplitOffset(payload: seq<byte>) returns (r: int)
    ensures r == SplitOffset(payload)
  {
    if |payload| < 39 || payload[0] != 0x01 { return -1; }
    var p: int := 38;
    p := p + 1 + payload[p];
    if p + 2 > |payload| { return -1; }
    p := p + 2 + U16(payload[p..]);
    if p + 1 > |payload| { return -1; }
    p := p + 1 + payload[p];
    if p + 2 > |payload| { return -1; }
    var end := p + 2 + U16(payload[p..]);
    p := p + 2;
    if end > |payload| { end := |payload|; }
    r := ScanExtensions(payload, p, end);
  }

  method ScanExtensions(payload: seq<byte>, start: nat, end: nat) returns (r: int)
    requires end <= |payload|
    ensures r == ExtensionSplit(payload, start, end)
  {
    var p := start;
    while p + 4 <= end
      invariant start <= p && ExtensionSplit(payload, p, end) == ExtensionSplit(payload, start, end)
      decreases end - p
    {
      var typ := U16(payload[p..]);
      var size := U16(payload[p + 2..]);
      var body := p + 4;
      if body + size > end { return -1; }
      if typ == 0 {
        if size < 5 { return -1; }
        var nameLen := U16(payload[body + 3..]);
        var name := body + 5;
        if nameLen < 2 || name + nameLen > |payload| { return -1; }
        return name + nameLen / 2;
      }
      p := body + size;
    }
    return -1;
  }

  // ---- The split goes through a server name -------------------------------

  /** An answer other than -1 is strictly inside a name whose length stands right in
      front of it. */
  lemma {:induction false} SplitInsideName(payload: seq<byte>)
    ensures SplitOffset(payload) == -1 || exists name, len :: SplitsName(payload, name, len, SplitOffset(payload))
  {
    if SplitOffset(payload) != -1 {
      var suites := 39 + payload[38] as int;
      var methods := suites + 2 + U16(payload[suites..]);
      var list := methods + 1 + payload[methods] as int;
      var end := list + 2 + U16(payload[list..]);
      ExtensionSplitInside(payload, list + 2, if end > |payload| then |payload| else end);
    }
  }

  lemma {:induction false} ExtensionSplitInside(payload: seq<byte>, p: nat, end: nat)
    requires end <= |payload|
    ensures var r := ExtensionSplit(payload, p, end);
      r == -1 || exists name, len :: SplitsName(payload, name, len, r)
    decreases end - p
  {
    if p + 4 > end {
    } else {
      var size := U16(payload[p + 2..]);
      if p + 4 + size <= end {
        if U16(payload[p..]) == 0 {
          NameSplitInside(payload, p + 4, size);
        } else {
          ExtensionSplitInside(payload, p + 4 + size, end);
        }
      }
    }
  }

  lemma {:induction false} NameSplitInside(payload: seq<byte>, body: nat, size: nat)
    requires body + size <= |payload|
    ensures var r := NameSplit(payload, body, size);
      r == -1 || exists name, len :: SplitsName(payload, name, len, r)
  {
    if NameSplit(payload, body, size) != -1 {
      var name, len := body + 5, U16(payload[body + 3..]);
      assert payload[name - 2..name][0] == payload[body + 3..][0] && payload[name - 2..name][1] == payload[body + 3..][1];
      assert SplitsName(payload, name, len, NameSplit(payload, body, size));
    }
  }

  // ---- Fragmenting --------------------------------------------------------

  datatype Plan = Plan(size: int, maxRecords: int)

  function RecordBudget(plan: Plan): nat {
    if plan.maxRecords < 1 then DEFAULT_MAX_RECORDS else plan.maxRecords
  }

  /** One of the record boundaries is at `n`. */
  ghost predicate CutAt(chunks: seq<seq<byte>>, n: int) {
    exists k :: 0 <= k <= |chunks| && |Concat(chunks[..k])| == n
  }

  lemma {:induction false} CutGrows(chunks: seq<seq<byte>>, piece: seq<byte>, n: int)
    ensures CutAt(chunks, n) || |Concat(chunks + [piece])| == n ==> CutAt(chunks + [piece], n)
  {
    var grown := chunks + [piece];
    if CutAt(chunks, n) {
      var k :| 0 <= k <= |chunks| && |Concat(chunks[..k])| == n;
      assert grown[..k] == chunks[..k];
    } else {
      assert grown[..|grown|] == grown;
    }
  }

  ghost predicate Fragments(chunks: seq<seq<byte>>, payload: seq<byte>) {
    Concat(chunks) == payload && NoneEmpty(chunks)
  }

  /** The size that records are drawn around: what is asked for, at least 8, and more
      if the budget would not do. */
  function BaseSize(plan: Plan, length: nat): (base: nat)
    ensures base >= 8
  {
    var least := (length + RecordBudget(plan) - 1) / RecordBudget(plan);
    var base := if plan.size < 8 then 8 else plan.size;
    if base < least then least else base
  }

  /** It is the least size that is at least 8, at least the one asked for, and enough
      for the payload to fit the budget. */
  lemma {:induction false} BaseSizeIs(plan: Plan, length: nat)
    ensures var base, budget := BaseSize(plan, length), RecordBudget(plan);
      && base >= 8 && base >= plan.size && base * budget >= length
      && (base == 8 || base == plan.size || (base - 1) * budget < length)
  {
    var budget := RecordBudget(plan);
    var least, r := Divide(length + budget - 1, budget);
    var base := BaseSize(plan, length);
    Scale(least, base, budget);
    assert (least - 1) * budget == least * budget - budget;
  }

  /** No record but the last of the budget is longer than `hi`, and of the first `n`
      none is shorter than `lo` but one that ends at the split. */
  ghost predicate Sized(chunks: seq<seq<byte>>, n: int, lo: nat, hi: nat, budget: nat, split: int)
    requires n <= |chunks|
  {
    && (forall k :: 0 <= k < |chunks| && k + 1 < budget ==> |chunks[k]| <= hi)
    && (forall k :: 0 <= k < n ==> |chunks[k]| >= lo || EndsAt(chunks, k, split))
  }

  ghost predicate EndsAt(chunks: seq<seq<byte>>, k: nat, n: int)
    requires k < |chunks|
  {
    |Concat(chunks[..k + 1])| == n
  }

  lemma {:induction false} SizedGrows(chunks: seq<seq<byte>>, piece: seq<byte>, lo: nat, hi: nat, budget: nat, split: int)
    requires Sized(chunks, |chunks|, lo, hi, budget, split) && (|chunks| + 1 < budget ==> |piece| <= hi)
    ensures Sized(chunks + [piece], |chunks|, lo, hi, budget, split)
    ensures |piece| >= lo || |Concat(chunks + [piece])| == split ==>
      Sized(chunks + [piece], |chunks| + 1, lo, hi, budget, split)
  {
    var grown := chunks + [piece];
    forall k | 0 <= k < |chunks| ensures |grown[k]| >= lo || EndsAt(grown, k, split) {
      assert grown[..k + 1] == chunks[..k + 1];
      assert |chunks[k]| >= lo || EndsAt(chunks, k, split);
    }
    assert grown[..|chunks| + 1] == grown;
  }

  /** `writeFragmentedTLSRecord`: the writes it makes.  For every plan and every
      random draw these are between one and the budgeted number of well-framed,
      non-empty records whose payloads add up to the original, of sizes around the
      one asked for, and the name is cut between two records unless the budget is
      used up. */
  method WriteFragmented(data: seq<byte>, plan: Plan) returns (writes: seq<seq<byte>>, ghost chunks: seq<seq<byte>>)
    ensures |data| < 6 || data[0] != HANDSHAKE ==> writes == [data]
    ensures |data| >= 6 && data[0] == HANDSHAKE ==>
      && Fragments(chunks, data[5..]) && writes == Records(data[..3], chunks)
      && 1 <= |writes| <= RecordBudget(plan)
      && (plan.maxRecords >= 1 ==> |writes| <= plan.maxRecords) && (plan.maxRecords < 1 ==> |writes| <= 8)
      && (var base := BaseSize(plan, |data| - 5);
          Sized(chunks, |chunks| - 1, if base < 16 then 8 else base / 2, base + base / 2, RecordBudget(plan), SplitOffset(data[5..])))
      && (|writes| < RecordBudget(plan) && SplitOffset(data[5..]) > 0 ==> CutAt(chunks, SplitOffset(data[5..])))
  {
    writes, chunks := [], [];
    if |data| < 6 || data[0] != HANDSHAKE {
      return [data], [];
    }
    var head, payload := data[..3], data[5..];
    var budget := RecordBudget(plan);
    var base := BaseSize(plan, |payload|);
    var lo, hi := base / 2, base + base / 2;
    if lo < 8 { lo := 8; }
    var split := SniSplitOffset(payload);
    SplitInsideName(payload);
    writes, chunks := WriteRecords(head, payload, lo, hi, split, budget);
  }

  method WriteRecords(head: seq<byte>, all: seq<byte>, lo: nat, hi: nat, split: int, budget: nat)
    returns (writes: seq<seq<byte>>, ghost chunks: seq<seq<byte>>)
    requires |head| == 3 && all != [] && 0 < lo <= hi && split < |all| && budget > 0
    ensures Fragments(chunks, all) && writes == Records(head, chunks) && 1 <= |writes| <= budget
    ensures |writes| < budget && split > 0 ==> CutAt(chunks, split)
    ensures Sized(chunks, |chunks| - 1, lo, hi, budget, split)
  {
    writes, chunks := [], [];
    var payload, sent, count := all, 0, 0;
    while |payload| > 0
      invariant 0 <= sent <= |all| && payload == all[sent..]
      invariant Fragments(chunks, all[..sent])
      invariant writes == Records(head, chunks) && count == |chunks| <= budget
      invariant payload != [] ==> count < budget
      invariant count == 0 ==> payload != []
      invariant split > 0 ==> sent < split || CutAt(chunks, split) || count == budget
      invariant Sized(chunks, if payload == [] then |chunks| - 1 else |chunks|, lo, hi, budget, split)
    {
      var chunk := NextChunk(|payload|, lo, hi, split - sent, count + 1 >= budget);
      var piece := payload[..chunk];
      ConcatSnoc(chunks, piece);
      SizedGrows(chunks, piece, lo, hi, budget, split);
      CutGrows(chunks, piece, split);
      assert all[..sent] + piece == all[..sent + chunk];
      writes := writes + [head + [chunk / 256 % 256, chunk % 256] + piece];
      chunks := chunks + [piece];
      payload := payload[chunk..];
      sent, count := sent + chunk, count + 1;
    }
    assert all[..sent] == all;
  }

  /** The length of the next record's payload: a draw, cut at the name if that lies
      ahead, and everything that is left in the last record. */
  method NextChunk(left: nat, lo: nat, hi: nat, toSplit: int, last: bool) returns (chunk: nat)
    requires 0 < left && 0 < lo <= hi
    ensures 1 <= chunk <= left && (last ==> chunk == left) && (!last ==> chunk <= hi)
    ensures !last && toSplit > 0 ==> chunk <= toSplit
    ensures chunk < left ==> chunk >= lo || chunk == toSplit
  {
    var draw: nat :| draw <= hi - lo;
    chunk := lo + draw;
    if chunk > left { chunk := left; }
    if toSplit > 0 && toSplit < chunk && !last { chunk := toSplit; }
    if last { chunk := left; }
  }

  // ---- Peeking ------------------------------------------------------------

  /** What the peek found.  `raw` is everything kept for the replay, `rest` what the
      connection has still to give. */
  datatype Peeked =
    | Hello(raw: seq<byte>, msg: seq<byte>, rest: seq<byte>)
    | Rejected(raw: seq<byte>, rest: seq<byte>, why: Why)

  datatype Why = Incomplete | NotHandshake | BadLength | TooLarge | NotClientHello | Unparsable

  /** What is decided once the handshake bytes `hs` are there: `None` asks for more. */
  function Judge(hs: seq<byte>, parse: seq<byte> -> bool): (r: (bool, Why))
    ensures r.0 ==> |hs| >= 4 && |hs| >= 4 + BodyLength(hs)
  {
    if |hs| > MAX_HANDSHAKE then (false, TooLarge)
    else if |hs| < 4 then (false, Incomplete)
    else if hs[0] != 0x01 then (false, NotClientHello)
    else if |hs| < 4 + BodyLength(hs) then (false, Incomplete)
    else if !parse(hs[..4 + BodyLength(hs)]) then (false, Unparsable)
    else (true, Incomplete)
  }

  function BodyLength(hs: seq<byte>): nat
    requires |hs| >= 4
  {
    hs[1] as int * 65536 + hs[2] as int * 256 + hs[3] as int
  }

  /** One TLS record off the stream: its size, or why there is none and how much of
      it was kept. */
  datatype FirstRecord = Whole(size: nat) | Bad(kept: nat, why: Why)

  function ReadRecord(stream: seq<byte>): (r: FirstRecord)
    ensures r.Whole? ==> 5 < r.size <= |stream| && stream[0] == HANDSHAKE
    ensures r.Bad? ==> r.kept <= |stream| && (r.kept == 0 ==> r.why.Incomplete?) && (r.why.Incomplete? && r.kept > 0 ==> stream[0] == HANDSHAKE)
  {
    if |stream| < 5 then Bad(0, Incomplete)
    else if stream[0] != HANDSHAKE then Bad(5, NotHandshake)
    else
      var n := U16(stream[3..5]);
      if n <= 0 || n > MAX_RECORD then Bad(5, BadLength)
      else if |stream| < 5 + n then Bad(5, Incomplete)
      else Whole(5 + n)
  }

  /** `peekClientHello`, having consumed `raw` and collected `hs` so far. */
  function Peek(stream: seq<byte>, raw: seq<byte>, hs: seq<byte>, parse: seq<byte> -> bool): Peeked
    decreases |stream|
  {
    match ReadRecord(stream)
    case Bad(kept, why) => Rejected(raw + stream[..kept], if why.Incomplete? then [] else stream[kept..], why)
    case Whole(size) =>
      var raw', hs', rest := raw + stream[..size], hs + stream[5..size], stream[size..];
      var (found, why) := Judge(hs', parse);
      if found then Hello(raw', hs'[..4 + BodyLength(hs')], rest)
      else if why.Incomplete? then Peek(rest, raw', hs', parse)
      else Rejected(raw', rest, why)
  }

  /** A whole ClientHello handshake message the parser accepts. */
  ghost predicate IsHello(msg: seq<byte>, parse: seq<byte> -> bool) {
    4 <= |msg| <= MAX_HANDSHAKE && msg == Message(msg[4..]) && parse(msg)
  }

  // ---- What the handshake bytes are judged to be --------------------------

  /** A ClientHello handshake message (section 4 of RFC 8446): its type, its length
      in three bytes and its body. */
  function Message(body: seq<byte>): seq<byte> {
    [0x01, |body| / 65536 % 256] + BE16(|body| % 65536) + body
  }

  lemma {:induction false} MessageLength(hs: seq<byte>, body: seq<byte>)
    requires |body| < 0x100_0000 && |hs| >= 4 && hs[..4] == Message(body)[..4]
    ensures BodyLength(hs) == |body| && hs[0] == 0x01
  {
    ThreeBytes(|body|);
    var low := BE16(|body| % 65536);
    var m := Message(body);
    assert m[0] == 0x01 && m[1] == |body| / 65536 % 256 && m[2] == low[0] && m[3] == low[1];
    assert hs[0] == hs[..4][0] && hs[1] == hs[..4][1] && hs[2] == hs[..4][2] && hs[3] == hs[..4][3];
  }

  lemma {:induction false} ThreeBytes(n: nat)
    requires n < 0x100_0000
    ensures n / 65536 % 256 * 65536 + U16(BE16(n % 65536)) == n
  {
    U16RoundTrip(n % 65536);
  }

  /** Bytes that begin with the type are a message and more, or the beginning of one. */
  lemma {:induction false} IsMessage(hs: seq<byte>)
    requires |hs| >= 4 && hs[0] == 0x01 && |hs| >= 4 + BodyLength(hs)
    ensures hs[..4 + BodyLength(hs)] == Message(hs[4..4 + BodyLength(hs)])
  {
    var body := hs[4..4 + BodyLength(hs)];
    assert |body| / 65536 == hs[1] as int && |body| % 65536 == hs[2] as int * 256 + hs[3] as int;
    assert hs[..4 + BodyLength(hs)] == hs[..4] + body;
    assert Message(body)[..4] == hs[..4];
  }

  /** The verdict by what the bytes are: too many, too few to tell, not of this type,
      a whole message with or without more behind it, or the beginning of one. */
  lemma {:induction false} JudgeIs(hs: seq<byte>, body: seq<byte>, parse: seq<byte> -> bool)
    requires |body| < 0x100_0000
    ensures |hs| > MAX_HANDSHAKE ==> Judge(hs, parse) == (false, TooLarge)
    ensures |hs| < 4 ==> Judge(hs, parse) == (false, Incomplete)
    ensures 4 <= |hs| <= MAX_HANDSHAKE && hs[0] != 0x01 ==> Judge(hs, parse) == (false, NotClientHello)
    ensures |hs| <= MAX_HANDSHAKE && Message(body) <= hs ==>
      Judge(hs, parse).0 == parse(Message(body)) && (!parse(Message(body)) ==> Judge(hs, parse).1 == Unparsable)
    ensures |hs| <= MAX_HANDSHAKE && hs < Message(body) ==> Judge(hs, parse) == (false, Incomplete)
  {
    if 4 <= |hs| <= MAX_HANDSHAKE && (Message(body) <= hs || hs < Message(body)) {
      assert hs[..4] == Message(body)[..4];
      MessageLength(hs, body);
      assert Message(body) <= hs ==> hs[..4 + |body|] == Message(body);
    }
  }

  ghost predicate NoneEmpty(chunks: seq<seq<byte>>) {
    forall i :: 0 <= i < |chunks| ==> chunks[i] != []
  }

  lemma {:induction false} PeekFragments(head: seq<byte>, done: seq<byte>, chunks: seq<seq<byte>>, msg: seq<byte>,
                                         raw: seq<byte>, tail: seq<byte>, parse: seq<byte> -> bool)
    requires |head| == 3 && head[0] == HANDSHAKE && IsHello(msg, parse)
    requires chunks != [] && NoneEmpty(chunks) && done + Concat(chunks) == msg
    ensures Peek(Concat(Records(head, chunks)) + tail, raw, done, parse) ==
            Hello(raw + Concat(Records(head, chunks)), msg, tail)
    decreases |chunks|
  {
    var first, others := chunks[0], chunks[1..];
    var record, rest := Record(head, first), Concat(Records(head, others));
    RecordsSplit(head, chunks, tail);
    Associate(done, first, Concat(others));
    PeekRecord(head, first, rest + tail, raw, done, parse);
    if others == [] {
      LastChunk(done + first, msg, parse);
      assert rest + tail == tail && record + rest == record;
    } else {
      EarlyChunk(done + first, Concat(others), msg, parse);
      PeekFragments(head, done + first, others, msg, raw + record, tail, parse);
      Associate(raw, record, rest);
    }
  }

  lemma {:induction false} LastChunk(hs: seq<byte>, msg: seq<byte>, parse: seq<byte> -> bool)
    requires IsHello(msg, parse) && hs + [] == msg
    ensures hs == msg && Judge(hs, parse).0 && hs[..4 + BodyLength(hs)] == msg
  {
    MessageLength(msg, msg[4..]);
    assert hs + [] == hs && msg[..|msg|] == msg;
  }

  lemma {:induction false} EarlyChunk(hs: seq<byte>, more: seq<byte>, msg: seq<byte>, parse: seq<byte> -> bool)
    requires IsHello(msg, parse) && hs + more == msg && more != []
    ensures Judge(hs, parse) == (false, Incomplete)
  {
    assert hs < msg;
    JudgeIs(hs, msg[4..], parse);
  }

  lemma {:induction false} RecordsSplit(head: seq<byte>, chunks: seq<seq<byte>>, tail: seq<byte>)
    requires |head| == 3 && chunks != []
    ensures Concat(Records(head, chunks)) == Record(head, chunks[0]) + Concat(Records(head, chunks[1..]))
    ensures Concat(Records(head, chunks)) + tail == Record(head, chunks[0]) + (Concat(Records(head, chunks[1..])) + tail)
  {
    assert Records(head, chunks)[1..] == Records(head, chunks[1..]);
  }

  /** One record in front of the stream adds its payload to what was collected. */
  lemma {:induction false} PeekRecord(head: seq<byte>, chunk: seq<byte>, rest: seq<byte>, raw: seq<byte>, hs: seq<byte>, parse: seq<byte> -> bool)
    requires |head| == 3 && head[0] == HANDSHAKE && 0 < |chunk| <= MAX_RECORD
    ensures var record, all := Record(head, chunk), hs + chunk;
      var (found, why) := Judge(all, parse);
      Peek(record + rest, raw, hs, parse) ==
      if found then Hello(raw + record, all[..4 + BodyLength(all)], rest)
      else if why.Incomplete? then Peek(rest, raw + record, all, parse)
      else Rejected(raw + record, rest, why)
  {
    var record := Record(head, chunk);
    var stream := record + rest;
    U16RoundTrip(|chunk|);
    assert stream[3..5] == BE16(|chunk|) && stream[..5 + |chunk|] == record;
    assert ReadRecord(stream) == Whole(5 + |chunk|);
    assert stream[5..5 + |chunk|] == chunk && stream[5 + |chunk|..] == rest;
  }

  /** Where the stream does not go on with a whole record, the peek ends: cut off,
      not a handshake, or with a length that no record has. */
  lemma {:induction false} PeekStops(head: seq<byte>, n: nat, tail: seq<byte>, raw: seq<byte>, hs: seq<byte>, parse: seq<byte> -> bool)
    requires |head| == 3 && n < U16_LIMIT
    ensures forall k: nat :: k < 5 ==> Peek((head + BE16(n))[..k], raw, hs, parse) == Rejected(raw, [], Incomplete)
    ensures var stream, kept := head + BE16(n) + tail, raw + (head + BE16(n));
      && (head[0] != HANDSHAKE ==> Peek(stream, raw, hs, parse) == Rejected(kept, tail, NotHandshake))
      && (head[0] == HANDSHAKE && !(1 <= n <= 16384) ==> Peek(stream, raw, hs, parse) == Rejected(kept, tail, BadLength))
      && (head[0] == HANDSHAKE && |tail| < n <= 16384 ==> Peek(stream, raw, hs, parse) == Rejected(kept, [], Incomplete))
  {
    var stream := head + BE16(n) + tail;
    U16RoundTrip(n);
    assert stream[3..5] == BE16(n) && stream[..5] == head + BE16(n) && stream[5..] == tail;
    forall k: nat | k < 5 ensures Peek((head + BE16(n))[..k], raw, hs, parse) == Rejected(raw, [], Incomplete) {
      assert raw + (head + BE16(n))[..k][..0] == raw;
    }
  }

  // ---- What a found hello was made of -------------------------------------

  datatype Part = Part(head: seq<byte>, chunk: seq<byte>)

  ghost predicate ValidPart(p: Part) {
    |p.head| == 3 && p.head[0] == HANDSHAKE && 1 <= |p.chunk| <= MAX_RECORD
  }

  ghost predicate ValidParts(ps: seq<Part>) {
    forall i :: 0 <= i < |ps| ==> ValidPart(ps[i])
  }

  ghost function Wire(ps: seq<Part>): seq<byte>
    requires ValidParts(ps)
  {
    if ps == [] then [] else Record(ps[0].head, ps[0].chunk) + Wire(ps[1..])
  }

  ghost function Inner(ps: seq<Part>): seq<byte> {
    if ps == [] then [] else ps[0].chunk + Inner(ps[1..])
  }

  lemma {:induction false} RecordBack(stream: seq<byte>, size: nat)
    requires ReadRecord(stream) == Whole(size)
    ensures ValidPart(Part(stream[..3], stream[5..size])) && Record(stream[..3], stream[5..size]) == stream[..size]
  {
    var n := U16(stream[3..5]);
    assert stream[3..5][0] as int == n / 256 && stream[3..5][1] as int == n % 256;
    assert BE16(n) == stream[3..5];
    assert stream[..size] == stream[..3] + stream[3..5] + stream[5..size];
  }

  lemma {:induction false} FoundIsHello(hs: seq<byte>, parse: seq<byte> -> bool)
    requires Judge(hs, parse).0
    ensures |hs| <= MAX_HANDSHAKE && IsHello(hs[..4 + BodyLength(hs)], parse)
  {
    IsMessage(hs);
    assert hs[..4 + BodyLength(hs)][4..] == hs[4..4 + BodyLength(hs)];
  }

  /** A hello that is found stood at the front of the collected payloads of whole
      handshake records, and nothing behind those was touched. */
  lemma {:induction false} PeekFound(stream: seq<byte>, raw: seq<byte>, hs: seq<byte>, parse: seq<byte> -> bool)
    returns (parts: seq<Part>)
    requires Peek(stream, raw, hs, parse).Hello?
    ensures ValidParts(parts)
    ensures var p := Peek(stream, raw, hs, parse);
      && p.raw == raw + Wire(parts) && stream == Wire(parts) + p.rest
      && p.msg <= hs + Inner(parts) && |hs + Inner(parts)| <= MAX_HANDSHAKE && IsHello(p.msg, parse)
    decreases |stream|
  {
    var size := ReadRecord(stream).size;
    RecordBack(stream, size);
    var part, rest, all := Part(stream[..3], stream[5..size]), stream[size..], hs + stream[5..size];
    Rejoin(stream, size);
    if Judge(all, parse).0 {
      parts := [part];
      OnePart(part);
      FoundIsHello(all, parse);
    } else {
      var others := PeekFound(rest, raw + stream[..size], all, parse);
      parts := [part] + others;
      MoreParts(part, others);
      Associate(raw, stream[..size], Wire(others));
      Associate(hs, part.chunk, Inner(others));
      Associate(stream[..size], Wire(others), Peek(stream, raw, hs, parse).rest);
    }
  }

  lemma {:induction false} Rejoin(s: seq<byte>, k: nat)
    requires k <= |s|
    ensures s[..k] + s[k..] == s
  {
  }

  lemma {:induction false} OnePart(p: Part)
    requires ValidPart(p)
    ensures ValidParts([p]) && Wire([p]) == Record(p.head, p.chunk) && Inner([p]) == p.chunk
  {
    assert [p][1..] == [];
    assert Record(p.head, p.chunk) + [] == Record(p.head, p.chunk) && p.chunk + [] == p.chunk;
  }

  lemma {:induction false} MoreParts(p: Part, others: seq<Part>)
    requires ValidPart(p) && ValidParts(others)
    ensures var ps := [p] + others;
      ValidParts(ps) && Wire(ps) == Record(p.head, p.chunk) + Wire(others) && Inner(ps) == p.chunk + Inner(others)
  {
    assert ([p] + others)[1..] == others;
  }

  /** From the client's cut to the server's peek: exactly the hello, everything
      consumed is known, and nothing behind it was touched. */
  lemma {:induction false} FragmentThenPeek(data: seq<byte>, chunks: seq<seq<byte>>, tail: seq<byte>, parse: seq<byte> -> bool)
    requires |data| >= 6 && data[0] == HANDSHAKE && Fragments(chunks, data[5..]) && IsHello(data[5..], parse)
    ensures var wire := Concat(Records(data[..3], chunks));
      Peek(wire + tail, [], [], parse) == Hello(wire, data[5..], tail)
  {
    var wire := Concat(Records(data[..3], chunks));
    assert [] + Concat(chunks) == data[5..] && [] + wire == wire;
    PeekFragments(data[..3], [], chunks, data[5..], [], tail, parse);
  }

  method PeekClientHello(stream: seq<byte>, parse: seq<byte> -> bool) returns (p: Peeked)
    ensures p == Peek(stream, [], [], parse)
  {
    var raw: seq<byte>, hs: seq<byte>, rest := [], [], stream;
    while true
      invariant Peek(rest, raw, hs, parse) == Peek(stream, [], [], parse)
      decreases |rest|
    {
      var record := TakeRecord(rest);
      match record {
        case Bad(kept, why) =>
          return Rejected(raw + rest[..kept], if why.Incomplete? then [] else rest[kept..], why);
        case Whole(size) =>
          raw, hs, rest := raw + rest[..size], hs + rest[5..size], rest[size..];
      }
      var (found, why) := Judge(hs, parse);
      if found { return Hello(raw, hs[..4 + BodyLength(hs)], rest); }
      if !why.Incomplete? { return Rejected(raw, rest, why); }
    }
  }

  /** The header, the checks on it, and the body. */
  method TakeRecord(stream: seq<byte>) returns (r: FirstRecord)
    ensures r == ReadRecord(stream)
  {
    if |stream| < 5 { return Bad(0, Incomplete); }
    var hdr := stream[..5];
    if hdr[0] != HANDSHAKE { return Bad(5, NotHandshake); }
    var n := hdr[3] as int * 256 + hdr[4] as int;
    if n <= 0 || n > MAX_RECORD { return Bad(5, BadLength); }
    if |stream| < 5 + n { return Bad(5, Incomplete); }
    return Whole(5 + n);
  }

  // ---- Replaying ----------------------------------------------------------

  class PrefixConn {
    const prefix: seq<byte>
    var off: nat
    var stream: seq<byte>

    ghost predicate Valid()
      reads this
    {
      off <= |prefix|
    }

    /** What this connection has still to give. */
    function Rest(): seq<byte>
      requires Valid()
      reads this
    {
      prefix[off..] + stream
    }

    constructor (prefix: seq<byte>, stream: seq<byte>)
      ensures Valid() && Rest() == prefix + stream
    {
      this.prefix, off, this.stream := prefix, 0, stream;
    }

    /** `Read`: the kept bytes first, then whatever the connection returns. */
    method Read(size: nat) returns (data: seq<byte>)
      requires Valid()
      modifies this
      ensures Valid() && data + Rest() == old(Rest()) && |data| <= size
      ensures size > 0 && old(Rest()) != [] ==> data != []
    {
      if off < |prefix| {
        var n := if size < |prefix| - off then size else |prefix| - off;
        data := prefix[off..off + n];
        assert data + prefix[off + n..] == prefix[off..];
        off := off + n;
      } else {
        var n: nat :| n <= size && n <= |stream| && (size > 0 && |stream| > 0 ==> n > 0);
        data := stream[..n];
        assert data + stream[n..] == stream;
        stream := stream[n..];
      }
    }
  }

  /** The peek is one the listener replays: to the tunnel, or to the decoy.  What it
      drops instead is a connection that gave nothing or ended inside a handshake. */
  predicate Replayed(p: Peeked) {
    p.Hello? || (p.raw != [] && !(p.why.Incomplete? && p.raw[0] == HANDSHAKE))
  }

  /** The peek keeps every byte: what it consumed and what it left is the stream,
      whether the hello was found or refused. */
  lemma {:induction false} PeekKeepsAll(stream: seq<byte>, raw: seq<byte>, hs: seq<byte>, parse: seq<byte> -> bool)
    requires raw != [] ==> raw[0] == HANDSHAKE
    ensures var p := Peek(stream, raw, hs, parse);
      && (Replayed(p) ==> p.raw + p.rest == raw + stream)
      && (p.Rejected? && !p.why.Incomplete? ==> Replayed(p))
    decreases |stream|
  {
    match ReadRecord(stream)
    case Bad(kept, _) =>
      SplitAt(raw, stream, kept);
    case Whole(size) =>
      SplitAt(raw, stream, size);
      if !Judge(hs + stream[5..size], parse).0 {
        PeekKeepsAll(stream[size..], raw + stream[..size], hs + stream[5..size], parse);
      }
  }

  lemma {:induction false} SplitAt(raw: seq<byte>, stream: seq<byte>, k: nat)
    requires k <= |stream|
    ensures raw + stream[..k] + stream[k..] == raw + stream
    ensures raw != [] ==> (raw + stream[..k])[0] == raw[0]
    ensures raw == [] && k > 0 ==> (raw + stream[..k])[0] == stream[0]
  {
  }
}
