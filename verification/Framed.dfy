/** The record framing of `core/protocol/framed.go`: data records with random
    chunking and padding, filler records, end markers, and the switch to raw. */
module Framed {
  import opened Bytes

  const WIRE_TARGET: nat := 5 + 16384 + 1 + 16
  const MAX_DATA: nat := 16384 - 5 - 2
  const MAX_PAD: nat := WIRE_TARGET - 2
  const SWITCH_MARKER: nat := 0xFFFF
  const FILLER_MARKER: nat := 0xFFFE
  const HEADER: seq<byte> := [0x17, 0x03, 0x03]

  // ---- Records ------------------------------------------------------------

  datatype Record =
    | Data(data: seq<byte>, pad: seq<byte>)
    | Filler(pad: seq<byte>)
    | End(pad: seq<byte>)
    | Switch(pad: seq<byte>)

  /** What the sender keeps to: data is never empty and a record never outgrows
      its target. */
  predicate Sendable(r: Record) {
    match r
    case Data(data, pad) => data != [] && |data| + |pad| <= MAX_DATA
    case _ => |r.pad| <= MAX_PAD
  }

  function Marker(r: Record): nat {
    match r
    case Data(data, _) => |data|
    case Filler(_) => FILLER_MARKER
    case End(_) => 0
    case Switch(_) => SWITCH_MARKER
  }

  function Content(r: Record): seq<byte> {
    if r.Data? then r.data else []
  }

  function Encode(r: Record): seq<byte> {
    HEADER + BE16(2 + |Content(r)| + |r.pad|) + (BE16(Marker(r)) + Content(r) + r.pad)
  }

  function EncodeAll(rs: seq<Record>): seq<byte> {
    if rs == [] then [] else Encode(rs[0]) + EncodeAll(rs[1..])
  }

  /** The application bytes that a run of records carries. */
  function Carried(rs: seq<Record>): seq<byte> {
    if rs == [] then [] else Content(rs[0]) + Carried(rs[1..])
  }

  // ---- Reading one record -------------------------------------------------

  datatype ReadOutcome =
    | Payload(data: seq<byte>, rest: seq<byte>)
    | SwitchRaw(rest: seq<byte>)
    | BadRecord
    | Truncated

  /** `readRecord`: skips fillers, and reports the first other record. */
  function ReadRecord(wire: seq<byte>): (o: ReadOutcome)
    ensures o.Payload? || o.SwitchRaw? ==> |o.rest| < |wire|
  {
    if |wire| < 5 then Truncated
    else if wire[0] != 0x17 then BadRecord
    else
      var body := U16(wire[3..5]);
      if body < 2 || body > WIRE_TARGET then BadRecord
      else if |wire| < 5 + body then Truncated
      else
        var rec, rest := wire[5..5 + body], wire[5 + body..];
        var dataLen := U16(rec[0..2]);
        if dataLen == SWITCH_MARKER then SwitchRaw(rest)
        else if dataLen == FILLER_MARKER then ReadRecord(rest)
        else if 2 + dataLen > body then BadRecord
        else Payload(rec[2..2 + dataLen], rest)
  }

  /** No data record is mistaken for an end, a filler or a switch, and each kind
      is read back as what it is, with the rest of the wire untouched. */
  lemma {:induction false} RecordRoundTrip(r: Record, tail: seq<byte>)
    requires Sendable(r)
    ensures !r.Filler? && !r.Switch? ==> ReadRecord(Encode(r) + tail) == Payload(Content(r), tail)
    ensures r.Filler? ==> ReadRecord(Encode(r) + tail) == ReadRecord(tail)
    ensures r.Switch? ==> ReadRecord(Encode(r) + tail) == SwitchRaw(tail)
  {
    var wire := Encode(r) + tail;
    var size := 2 + |Content(r)| + |r.pad|;
    var body := BE16(Marker(r)) + Content(r) + r.pad;
    U16RoundTrip(size);
    U16RoundTrip(Marker(r));
    assert wire[0] == 0x17 && wire[3..5] == BE16(size);
    assert wire[5..5 + size] == body && wire[5 + size..] == tail;
    assert body[0..2] == BE16(Marker(r));
    assert body[2..2 + |Content(r)|] == Content(r);
  }

  /** The size limit is exact: whatever is longer, and still fits the length field,
      the reader refuses. */
  lemma {:induction false} LongRecordRefused(r: Record, tail: seq<byte>)
    requires WIRE_TARGET < 2 + |Content(r)| + |r.pad| < U16_LIMIT
    ensures ReadRecord(Encode(r) + tail) == BadRecord
  {
    var wire, size := Encode(r) + tail, 2 + |Content(r)| + |r.pad|;
    U16RoundTrip(size);
    assert wire[0] == 0x17 && wire[3..5] == BE16(size);
  }

  /** The first five bytes decide: another type or an impossible length is refused at
      once, and anything less than the announced record is waited for. */
  lemma {:induction false} HeaderDecides(head: seq<byte>, n: nat, tail: seq<byte>)
    requires |head| == 3 && n < U16_LIMIT
    ensures var wire := head + BE16(n) + tail;
      && (head[0] != 0x17 || !(2 <= n <= 16406) ==> ReadRecord(wire) == BadRecord)
      && (head[0] == 0x17 && 2 <= n <= 16406 && |tail| < n ==> ReadRecord(wire) == Truncated)
    ensures forall k: nat :: k < 5 ==> ReadRecord((head + BE16(n))[..k]) == Truncated
  {
    var wire := head + BE16(n) + tail;
    U16RoundTrip(n);
    assert wire[0] == head[0] && wire[3..5] == BE16(n);
  }

  // ---- Reading a whole stream ---------------------------------------------

  /** Everything a reader gets before the stream ends, switches or breaks. */
  datatype Drained =
    | Ended(payload: seq<byte>, rest: seq<byte>)
    | Switched(payload: seq<byte>, rest: seq<byte>)
    | Broken(payload: seq<byte>)

  function Prepend(data: seq<byte>, d: Drained): Drained {
    match d
    case Ended(p, rest) => Ended(data + p, rest)
    case Switched(p, rest) => Switched(data + p, rest)
    case Broken(p) => Broken(data + p)
  }

  function Drain(wire: seq<byte>): Drained
    decreases |wire|
  {
    match ReadRecord(wire)
    case Payload(data, rest) => if data == [] then Ended([], rest) else Prepend(data, Drain(rest))
    case SwitchRaw(rest) => Switched([], rest)
    case _ => Broken([])
  }

  ghost predicate Midstream(rs: seq<Record>) {
    forall i :: 0 <= i < |rs| ==> Sendable(rs[i]) && (rs[i].Data? || rs[i].Filler?)
  }

  /** Data and filler records in front of any wire are read back as exactly the
      bytes they carry. */
  lemma {:induction false} DrainMidstream(rs: seq<Record>, wire: seq<byte>)
    requires Midstream(rs)
    ensures Drain(EncodeAll(rs) + wire) == Prepend(Carried(rs), Drain(wire))
  {
    if rs == [] {
      assert EncodeAll(rs) + wire == wire && Carried(rs) + Drain(wire).payload == Drain(wire).payload;
    } else {
      var after := EncodeAll(rs[1..]) + wire;
      assert EncodeAll(rs) + wire == Encode(rs[0]) + after;
      RecordRoundTrip(rs[0], after);
      DrainMidstream(rs[1..], wire);
      var p := Drain(wire).payload;
      assert Content(rs[0]) + (Carried(rs[1..]) + p) == (Content(rs[0]) + Carried(rs[1..])) + p;
    }
  }

  lemma {:induction false} DrainEnded(rs: seq<Record>, pad: seq<byte>, tail: seq<byte>)
    requires Midstream(rs) && |pad| <= MAX_PAD
    ensures Drain(EncodeAll(rs) + Encode(End(pad)) + tail) == Ended(Carried(rs), tail)
  {
    RecordRoundTrip(End(pad), tail);
    DrainMidstream(rs, Encode(End(pad)) + tail);
    assert EncodeAll(rs) + Encode(End(pad)) + tail == EncodeAll(rs) + (Encode(End(pad)) + tail);
    assert Carried(rs) + [] == Carried(rs);
  }

  lemma {:induction false} DrainSwitched(rs: seq<Record>, pad: seq<byte>, tail: seq<byte>)
    requires Midstream(rs) && |pad| <= MAX_PAD
    ensures Drain(EncodeAll(rs) + Encode(Switch(pad)) + tail) == Switched(Carried(rs), tail)
  {
    RecordRoundTrip(Switch(pad), tail);
    DrainMidstream(rs, Encode(Switch(pad)) + tail);
    assert EncodeAll(rs) + Encode(Switch(pad)) + tail == EncodeAll(rs) + (Encode(Switch(pad)) + tail);
    assert Carried(rs) + [] == Carried(rs);
  }

  // ---- Reading into buffers of any size -----------------------------------

  datatype Reader = Reader(rbuf: seq<byte>, done: bool, incoming: seq<byte>)
  datatype ReadResult = Bytes(data: seq<byte>) | Eof | Raw | Failed

  function Take(r: Reader, data: seq<byte>, size: nat, incoming: seq<byte>): (Reader, ReadResult) {
    var n := if size < |data| then size else |data|;
    (Reader(data[n..], r.done, incoming), Bytes(data[..n]))
  }

  /** `FramedConn.Read` with a buffer of `size` bytes. */
  function Read(r: Reader, size: nat): (Reader, ReadResult) {
    if r.rbuf != [] then Take(r, r.rbuf, size, r.incoming)
    else if r.done then (r, Eof)
    else match ReadRecord(r.incoming)
      case Payload(data, rest) =>
        if data == [] then (Reader([], true, rest), Eof) else Take(r, data, size, rest)
      case SwitchRaw(rest) => (r.(incoming := rest), Raw)
      case _ => (r, Failed)
  }

  /** The reader still owes `todo`, and will stand in front of `tail` afterwards. */
  ghost predicate Owes(r: Reader, todo: seq<byte>, tail: seq<byte>) {
    if r.done then r.rbuf == [] && todo == [] && r.incoming == tail
    else match Drain(r.incoming)
      case Ended(payload, rest) => todo == r.rbuf + payload && rest == tail
      case _ => false
  }

  /** One read hands over the next bytes owed and nothing else; it reports the end
      exactly when nothing is owed, standing right behind the end marker. */
  lemma {:induction false} ReadKeeps(r: Reader, size: nat, todo: seq<byte>, tail: seq<byte>)
    requires Owes(r, todo, tail)
    ensures var (r', res) := Read(r, size);
      && (res.Bytes? || res.Eof?)
      && (res.Bytes? ==> res.data <= todo && Owes(r', todo[|res.data|..], tail) && (size > 0 ==> res.data != []))
      && (res.Eof? ==> todo == [] && Owes(r', [], tail) && r'.incoming == tail && r'.done)
  {
    if r.rbuf != [] {
      BufferedKeeps(r, size, todo, tail);
    } else if !r.done {
      RecordKeeps(r, size, todo, tail);
    }
  }

  lemma {:induction false} BufferedKeeps(r: Reader, size: nat, todo: seq<byte>, tail: seq<byte>)
    requires Owes(r, todo, tail) && r.rbuf != []
    ensures var (r', res) := Read(r, size);
      res.Bytes? && res.data <= todo && Owes(r', todo[|res.data|..], tail) && (size > 0 ==> res.data != [])
  {
    var (r', res) := Read(r, size);
    SplitFront(r.rbuf, Drain(r.incoming).payload, |res.data|);
  }

  lemma {:induction false} RecordKeeps(r: Reader, size: nat, todo: seq<byte>, tail: seq<byte>)
    requires Owes(r, todo, tail) && r.rbuf == [] && !r.done
    ensures var (r', res) := Read(r, size);
      && (res.Bytes? || res.Eof?)
      && (res.Bytes? ==> res.data <= todo && Owes(r', todo[|res.data|..], tail) && (size > 0 ==> res.data != []))
      && (res.Eof? ==> todo == [] && Owes(r', [], tail) && r'.incoming == tail && r'.done)
  {
    var (r', res) := Read(r, size);
    var o := ReadRecord(r.incoming);
    assert [] + Drain(r.incoming).payload == Drain(r.incoming).payload;
    if o.Payload? && o.data != [] {
      SplitFront(o.data, Drain(o.rest).payload, |res.data|);
    }
  }

  lemma {:induction false} SplitFront(a: seq<byte>, b: seq<byte>, n: nat)
    requires n <= |a|
    ensures a[..n] <= a + b && (a + b)[n..] == a[n..] + b
  {
  }

  function ReadMany(r: Reader, sizes: seq<nat>): (Reader, seq<byte>, bool)
    decreases |sizes|
  {
    if sizes == [] then (r, [], false)
    else
      var (r', res) := Read(r, sizes[0]);
      if res.Bytes? then
        var (r'', out, eof) := ReadMany(r', sizes[1..]);
        (r'', res.data + out, eof)
      else (r', [], res.Eof?)
  }

  /** Whatever buffer sizes the reader uses, what it gets is a prefix of the bytes
      written; once it sees the end it has all of them and has consumed exactly
      through the end marker.  Enough non-empty buffers reach the end. */
  lemma {:induction false} ReadManyExact(r: Reader, sizes: seq<nat>, todo: seq<byte>, tail: seq<byte>)
    requires Owes(r, todo, tail)
    ensures var (r', out, eof) := ReadMany(r, sizes);
      && out <= todo && Owes(r', todo[|out|..], tail)
      && (eof ==> out == todo && r'.incoming == tail && r'.done)
      && ((forall i :: 0 <= i < |sizes| ==> sizes[i] > 0) && |sizes| > |todo| ==> eof)
    decreases |sizes|
  {
    if sizes == [] {
    } else {
      ReadKeeps(r, sizes[0], todo, tail);
      var (r', res) := Read(r, sizes[0]);
      if res.Bytes? {
        var left := todo[|res.data|..];
        ReadManyExact(r', sizes[1..], left, tail);
        JoinPrefix(todo, res.data, ReadMany(r', sizes[1..]).1);
      }
    }
  }

  lemma {:induction false} JoinPrefix(todo: seq<byte>, a: seq<byte>, b: seq<byte>)
    requires a <= todo && b <= todo[|a|..]
    ensures a + b <= todo && todo[|a + b|..] == todo[|a|..][|b|..]
    ensures b == todo[|a|..] ==> a + b == todo
  {
    assert todo == a + todo[|a|..];
    assert todo[|a|..] == b + todo[|a|..][|b|..];
  }

  /** The framed stream from end to end. */
  lemma {:induction false} StreamRoundTrip(rs: seq<Record>, pad: seq<byte>, tail: seq<byte>, sizes: seq<nat>)
    requires Midstream(rs) && |pad| <= MAX_PAD
    ensures var (r', out, eof) := ReadMany(Reader([], false, EncodeAll(rs) + Encode(End(pad)) + tail), sizes);
      && out <= Carried(rs)
      && (eof ==> out == Carried(rs) && r'.incoming == tail)
      && ((forall i :: 0 <= i < |sizes| ==> sizes[i] > 0) && |sizes| > |Carried(rs)| ==> eof)
  {
    DrainEnded(rs, pad, tail);
    var wire := EncodeAll(rs) + Encode(End(pad)) + tail;
    assert [] + Carried(rs) == Carried(rs);
    ReadManyExact(Reader([], false, wire), sizes, Carried(rs), tail);
  }

  // ---- Random choices of the sender ---------------------------------------

  /** The shape knobs; nothing but a non-negative lower padding bound is needed,
      so a torn read of two of them does no harm. */
  datatype Knobs = Knobs(shaped: bool, chunkMin: int, chunkMax: int, padMin: nat, padMax: int)

  const CHUNK_OVERHEAD: int := 29

  /** Wire-size ranges of the measured record sizes; weights do not matter here. */
  const CHUNK_SHAPE: seq<(int, int)> := [
    (0, 64), (64, 128), (128, 256), (256, 512), (512, 1024), (1024, 2048),
    (2048, 4096), (4096, 8192), (8192, 16000), (16000, MAX_DATA + CHUNK_OVERHEAD)]

  method ShapedChunk(left: nat) returns (n: nat)
    requires left > 0
    ensures 1 <= n <= left && (n == left || n < MAX_DATA)
  {
    var bucket: nat :| bucket <= |CHUNK_SHAPE|;
    if bucket == |CHUNK_SHAPE| {
      return left;
    }
    var (lo, hi) := CHUNK_SHAPE[bucket];
    lo, hi := lo - CHUNK_OVERHEAD, hi - CHUNK_OVERHEAD;
    if lo < 1 { lo := 1; }
    if hi > MAX_DATA { hi := MAX_DATA; }
    if hi <= lo { hi := lo + 1; }
    var draw: nat :| draw < hi - lo;
    n := lo + draw;
    if n >= left { n := left; }
  }

  /** `chunkLen`: how much the next record carries. */
  method ChunkLen(left: nat, k: Knobs) returns (n: nat)
    requires left > 0
    ensures 1 <= n <= left
    ensures !k.shaped && k.chunkMax <= 0 ==> n == left
    ensures !k.shaped && 0 < k.chunkMin <= k.chunkMax ==> n == left || k.chunkMin <= n <= k.chunkMax
  {
    if k.shaped {
      n := ShapedChunk(left);
      return;
    }
    if k.chunkMax <= 0 {
      return left;
    }
    var low := if k.chunkMin < 1 then 1 else k.chunkMin;
    var want := low;
    if k.chunkMax > low {
      var draw: nat :| draw < k.chunkMax - low + 1;
      want := low + draw;
    }
    return if want < left then want else left;
  }

  method ShapePadLen(room: int, k: Knobs) returns (pad: nat)
    ensures pad <= (if room > 0 then room else 0)
    ensures k.padMax <= k.padMin ==> pad == 0
    ensures room >= k.padMax > k.padMin ==> k.padMin <= pad <= k.padMax
  {
    if room <= 0 || k.padMax <= k.padMin {
      return 0;
    }
    var draw: nat :| draw < k.padMax - k.padMin + 1;
    pad := k.padMin + draw;
    if pad > room { pad := room; }
  }

  method RandomBytes(n: nat) returns (p: seq<byte>)
    ensures |p| == n
  {
    p := [];
    while |p| < n
      invariant |p| <= n
    {
      var b: byte := *;
      p := p + [b];
    }
  }

  // ---- One end of a framed stream -----------------------------------------

  lemma {:induction false} EncodeAllSnoc(rs: seq<Record>, r: Record)
    ensures EncodeAll(rs + [r]) == EncodeAll(rs) + Encode(r)
    ensures Carried(rs + [r]) == Carried(rs) + Content(r)
  {
    if rs == [] {
      assert rs + [r] == [r] && [r][1..] == [];
    } else {
      EncodeAllSnoc(rs[1..], r);
      assert (rs + [r])[1..] == rs[1..] + [r] && (rs + [r])[0] == rs[0];
      Associate(Encode(rs[0]), EncodeAll(rs[1..]), Encode(r));
      Associate(Content(rs[0]), Carried(rs[1..]), Content(r));
    }
  }

  lemma {:induction false} FillerKeeps(records: seq<Record>, sent: seq<byte>, written: seq<byte>, pad: seq<byte>)
    requires Midstream(records) && Carried(records) == written && sent == EncodeAll(records)
    ensures EncodeAll(records + [Filler(pad)]) == sent + Encode(Filler(pad))
    ensures Carried(records + [Filler(pad)]) == written
    ensures |pad| <= MAX_PAD ==> Midstream(records + [Filler(pad)])
  {
    EncodeAllSnoc(records, Filler(pad));
  }

  /** A filler that is too long breaks the stream off where it stands. */
  lemma {:induction false} LongFillerBreaks(records: seq<Record>, pad: seq<byte>, tail: seq<byte>)
    requires Midstream(records) && MAX_PAD < |pad| < U16_LIMIT - 2
    ensures Drain(EncodeAll(records) + (Encode(Filler(pad)) + tail)) == Broken(Carried(records))
  {
    LongRecordRefused(Filler(pad), tail);
    DrainMidstream(records, Encode(Filler(pad)) + tail);
    assert Carried(records) + [] == Carried(records);
  }

  class FramedConn {
    var incoming: seq<byte>
    var rbuf: seq<byte>
    var done: bool

    var sent: seq<byte>
    var ended: bool
    var switched: bool
    var padLeft: int

    /** What was sent, record by record, and the bytes it stands for. */
    ghost var records: seq<Record>
    ghost var closing: Record
    ghost var written: seq<byte>

    ghost predicate Valid()
      reads this
    {
      && Midstream(records) && Carried(records) == written
      && sent == EncodeAll(records) + (if ended then Encode(closing) else [])
      && Sendable(closing) && (if switched then closing.Switch? else closing.End?)
      && (switched ==> ended)
    }

    ghost function AsReader(): Reader
      reads this
    {
      Reader(rbuf, done, incoming)
    }

    constructor (incoming: seq<byte>, budget: int)
      ensures Valid() && !ended && !switched && sent == [] && written == [] && padLeft == budget
      ensures AsReader() == Reader([], false, incoming)
    {
      this.incoming, rbuf, done := incoming, [], false;
      sent, ended, switched, padLeft := [], false, false, budget;
      records, closing, written := [], End([]), [];
    }

    // ---- Sending ----------------------------------------------------------

    method TakePadding(room: int, k: Knobs) returns (pad: seq<byte>)
      modifies this`padLeft
      ensures |pad| <= (if room > 0 then room else 0)
      ensures padLeft == if old(padLeft) > 0 then old(padLeft) - 1 else old(padLeft)
      ensures old(padLeft) <= 0 ==> pad == []
    {
      var n := 0;
      if padLeft > 0 {
        padLeft := padLeft - 1;
        n := ShapePadLen(room, k);
      }
      pad := RandomBytes(n);
    }

    method Send(r: Record)
      requires Valid() && !ended && Sendable(r) && r.Data?
      modifies this`sent, this`records, this`written
      ensures Valid() && written == old(written) + Content(r)
    {
      EncodeAllSnoc(records, r);
      sent := sent + Encode(r);
      records := records + [r];
      written := written + Content(r);
    }

    /** One record.  The knobs are read once for its chunk and once for its padding. */
    method WriteChunk(b: seq<byte>, start: nat, chunk: Knobs, padding: Knobs) returns (n: nat)
      requires Valid() && !ended && start < |b|
      modifies this`sent, this`records, this`written, this`padLeft
      ensures Valid() && 1 <= n <= |b| - start && written == old(written) + b[start..start + n]
    {
      n := ChunkLen(|b| - start, chunk);
      if n > MAX_DATA { n := MAX_DATA; }
      var pad := TakePadding(MAX_DATA - n, padding);
      Send(Data(b[start..start + n], pad));
    }

    /** `Write`: cuts its input into records of random length.  `knobs` are the
        successive readings of the shape, which may change from one to the next. */
    method Write(b: seq<byte>, knobs: nat -> Knobs) returns (count: nat, open: bool)
      requires Valid()
      modifies this`sent, this`records, this`written, this`padLeft
      ensures Valid() && open == !ended && count == (if open then |b| else 0)
      ensures written == old(written) + b[..count] && (!open ==> sent == old(sent))
    {
      if ended {
        return 0, false;
      }
      count := 0;
      var turn := 0;
      while count < |b|
        invariant 0 <= count <= |b| && Valid() && written == old(written) + b[..count]
      {
        var n := WriteChunk(b, count, knobs(turn), knobs(turn + 1));
        turn := turn + 2;
        Associate(old(written), b[..count], b[count..count + n]);
        count := count + n;
      }
      return |b|, true;
    }

    /** `writeFiller`.  Nothing checks the length it is given. */
    method WriteFiller(pad: seq<byte>) returns (open: bool)
      requires Valid()
      modifies this`sent, this`records
      ensures open == !ended && sent == if open then old(sent) + Encode(Filler(pad)) else old(sent)
      ensures !open || |pad| <= MAX_PAD ==> Valid()
    {
      open := !ended;
      if open {
        FillerKeeps(records, sent, written, pad);
        sent := sent + Encode(Filler(pad));
        records := records + [Filler(pad)];
      }
    }

    method EndStream(k: Knobs)
      requires Valid()
      modifies this`sent, this`ended, this`switched, this`padLeft, this`closing
      ensures Valid() && ended && switched == old(switched) && (old(ended) ==> sent == old(sent))
    {
      if ended { return; }
      var pad := TakePadding(MAX_DATA, k);
      Close(End(pad));
    }

    method SwitchToRaw(k: Knobs)
      requires Valid()
      modifies this`sent, this`ended, this`switched, this`padLeft, this`closing
      ensures Valid() && ended && (if old(ended) then sent == old(sent) && switched == old(switched) else switched)
    {
      if ended { return; }
      var pad := TakePadding(MAX_DATA, k);
      Close(Switch(pad));
    }

    /** The last record. */
    method Close(r: Record)
      requires Valid() && !ended && Sendable(r) && (r.End? || r.Switch?)
      modifies this`sent, this`ended, this`switched, this`closing
      ensures Valid() && ended && switched == r.Switch? && sent == old(sent) + Encode(r)
    {
      assert sent == EncodeAll(records);
      ended, switched, closing := true, r.Switch?, r;
      sent := sent + Encode(r);
    }

    // ---- Receiving --------------------------------------------------------

    method NextRecord() returns (o: ReadOutcome)
      modifies this`incoming
      ensures o == ReadRecord(old(incoming))
      ensures incoming == if o.Payload? || o.SwitchRaw? then o.rest else old(incoming)
      decreases |incoming|
    {
      var wire := incoming;
      if |wire| < 5 { return Truncated; }
      if wire[0] != 0x17 { return BadRecord; }
      var body := U16(wire[3..5]);
      if body < 2 || body > WIRE_TARGET { return BadRecord; }
      if |wire| < 5 + body { return Truncated; }
      var rec := wire[5..5 + body];
      var dataLen := U16(rec[0..2]);
      incoming := wire[5 + body..];
      if dataLen == SWITCH_MARKER { return SwitchRaw(incoming); }
      if dataLen == FILLER_MARKER {
        o := NextRecord();
        if !o.Payload? && !o.SwitchRaw? { incoming := wire; }
        return;
      }
      if 2 + dataLen > body {
        incoming := wire;
        return BadRecord;
      }
      return Payload(rec[2..2 + dataLen], incoming);
    }

    method ReadInto(size: nat) returns (res: ReadResult)
      modifies this`incoming, this`rbuf, this`done
      ensures (AsReader(), res) == Read(old(AsReader()), size)
    {
      if |rbuf| > 0 {
        var n := if size < |rbuf| then size else |rbuf|;
        res := Bytes(rbuf[..n]);
        rbuf := rbuf[n..];
        return;
      }
      if done { return Eof; }
      var o := NextRecord();
      match o {
        case Payload(data, _) =>
          if |data| == 0 {
            done := true;
            return Eof;
          }
          var n := if size < |data| then size else |data|;
          rbuf := data[n..];
          return Bytes(data[..n]);
        case SwitchRaw(_) => return Raw;
        case _ => return Failed;
      }
    }
  }

  /** Whatever was written to one end and then ended, the other end reads back,
      in buffers of any size, and stops right behind the end marker. */
  lemma {:induction false} DeliveredExactly(c: FramedConn, tail: seq<byte>, sizes: seq<nat>)
    requires c.Valid() && c.ended && !c.switched
    ensures var (r', out, eof) := ReadMany(Reader([], false, c.sent + tail), sizes);
      && out <= c.written
      && (eof ==> out == c.written && r'.incoming == tail)
      && ((forall i :: 0 <= i < |sizes| ==> sizes[i] > 0) && |sizes| > |c.written| ==> eof)
  {
    StreamRoundTrip(c.records, c.closing.pad, tail, sizes);
  }
}
