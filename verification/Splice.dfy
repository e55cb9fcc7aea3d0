/** The downstream half of a spliced stream: `spliceFrom` of `core/relay` sends a
    framed beginning, a switch marker and the raw remainder; `SpliceTo` of
    `core/tunnel` reads them back. */
module Splice {
  import opened Bytes
  import opened Framed

  const READ_BUF: nat := 64 * 1024

  /** The bytes a client gets out of whatever has arrived so far. */
  function Deliver(wire: seq<byte>): seq<byte> {
    match Drain(wire)
    case Ended(payload, _) => payload
    case Switched(payload, rest) => payload + rest
    case Broken(payload) => payload
  }

  /** The wire of a spliced answer: records, then an end or switch marker or
      neither, then raw bytes behind a switch. */
  function SplicedWire(records: seq<Record>, closing: seq<Record>, raw: seq<byte>): seq<byte> {
    EncodeAll(records) + (EncodeAll(closing) + raw)
  }

  ghost predicate ValidSplice(records: seq<Record>, closing: seq<Record>, raw: seq<byte>) {
    && Midstream(records) && |closing| <= 1
    && (forall i :: 0 <= i < |closing| ==> Sendable(closing[i]) && (closing[i].End? || closing[i].Switch?))
    && (raw != [] ==> |closing| == 1 && closing[0].Switch?)
  }

  // ---- Delivery -----------------------------------------------------------

  lemma {:induction false} DeliverMidstream(records: seq<Record>, wire: seq<byte>)
    requires Midstream(records)
    ensures Deliver(EncodeAll(records) + wire) == Carried(records) + Deliver(wire)
  {
    DrainMidstream(records, wire);
    var d := Drain(wire);
    if d.Switched? {
      Associate(Carried(records), d.payload, d.rest);
    }
  }

  lemma {:induction false} DeliverClosing(closing: seq<Record>, raw: seq<byte>)
    requires ValidSplice([], closing, raw)
    ensures Deliver(EncodeAll(closing) + raw) == raw
  {
    if closing == [] {
      assert EncodeAll(closing) + raw == [];
    } else {
      assert closing[1..] == [] && EncodeAll(closing) == Encode(closing[0]) + [];
      assert EncodeAll(closing) + raw == Encode(closing[0]) + raw;
      RecordRoundTrip(closing[0], raw);
      assert [] + raw == raw;
    }
  }

  /** Everything is delivered once everything has arrived. */
  lemma {:induction false} DeliverAll(records: seq<Record>, closing: seq<Record>, raw: seq<byte>)
    requires ValidSplice(records, closing, raw)
    ensures Deliver(SplicedWire(records, closing, raw)) == Carried(records) + raw
  {
    DeliverMidstream(records, EncodeAll(closing) + raw);
    DeliverClosing(closing, raw);
  }

  /** A record of which a byte is missing yields nothing. */
  lemma {:induction false} CutRecord(r: Record, k: nat)
    requires Sendable(r) && k < |Encode(r)|
    ensures ReadRecord(Encode(r)[..k]).Truncated?
    ensures Deliver(Encode(r)[..k]) == []
  {
    var wire := Encode(r)[..k];
    var size := 2 + |Content(r)| + |r.pad|;
    U16RoundTrip(size);
    if 5 <= k {
      assert wire[0] == Encode(r)[0] == 0x17;
      assert Encode(r)[3..5] == BE16(size);
      assert wire[3..5] == BE16(size);
    }
  }

  /** What a reader of the wire does with records, whole and cut. */
  ghost predicate ReadsRecords(deliver: seq<byte> -> seq<byte>) {
    && (forall r: Record, wire :: Sendable(r) && (r.Data? || r.Filler?) ==>
          deliver(Encode(r) + wire) == Content(r) + deliver(wire))
    && (forall r: Record, k: nat :: Sendable(r) && k < |Encode(r)| ==> deliver(Encode(r)[..k]) == [])
  }

  lemma {:induction false} PrefixAt(deliver: seq<byte> -> seq<byte>, records: seq<Record>,
                                    last: seq<byte>, raw: seq<byte>, k: nat)
    requires ReadsRecords(deliver) && Midstream(records) && k <= |EncodeAll(records) + last|
    requires forall j: nat :: j <= |last| ==> deliver(last[..j]) <= raw
    ensures deliver((EncodeAll(records) + last)[..k]) <= Carried(records) + raw
  {
    var wire := EncodeAll(records) + last;
    if records == [] {
      assert wire == last && Carried(records) + raw == raw;
    } else {
      var first, rest := Encode(records[0]), EncodeAll(records[1..]) + last;
      Associate(first, EncodeAll(records[1..]), last);
      if k < |first| {
        assert wire[..k] == first[..k];
      } else {
        var j := k - |first|;
        PrefixAt(deliver, records[1..], last, raw, j);
        assert wire[..k] == first + rest[..j];
        Associate(Content(records[0]), Carried(records[1..]), raw);
      }
    }
  }

  /** At every moment the client has a prefix of what the origin sent: no byte is
      lost, repeated or invented around the switch. */
  lemma {:induction false} DeliverPrefix(records: seq<Record>, closing: seq<Record>, raw: seq<byte>, k: nat)
    requires ValidSplice(records, closing, raw) && k <= |SplicedWire(records, closing, raw)|
    ensures Deliver(SplicedWire(records, closing, raw)[..k]) <= Carried(records) + raw
  {
    DeliverReads();
    var last := EncodeAll(closing) + raw;
    forall j: nat | j <= |last| ensures Deliver(last[..j]) <= raw {
      CutClosing(closing, raw, j);
    }
    PrefixAt(Deliver, records, last, raw, k);
  }

  lemma {:induction false} DeliverReads()
    ensures ReadsRecords(Deliver)
  {
    forall r: Record, wire | Sendable(r) && (r.Data? || r.Filler?)
      ensures Deliver(Encode(r) + wire) == Content(r) + Deliver(wire)
    {
      DeliverOne(r, wire);
    }
    forall r: Record, k: nat | Sendable(r) && k < |Encode(r)| ensures Deliver(Encode(r)[..k]) == [] {
      CutRecord(r, k);
    }
  }

  lemma {:induction false} DeliverOne(r: Record, wire: seq<byte>)
    requires Sendable(r) && (r.Data? || r.Filler?)
    ensures Deliver(Encode(r) + wire) == Content(r) + Deliver(wire)
  {
    DeliverMidstream([r], wire);
    OneRecord(r);
  }

  lemma {:induction false} OneRecord(r: Record)
    ensures EncodeAll([r]) == Encode(r) && Carried([r]) == Content(r)
  {
    EncodeAllSnoc([], r);
    assert [] + [r] == [r] && [] + Encode(r) == Encode(r) && [] + Content(r) == Content(r);
  }

  lemma {:induction false} CutClosing(closing: seq<Record>, raw: seq<byte>, k: nat)
    requires ValidSplice([], closing, raw) && k <= |EncodeAll(closing) + raw|
    ensures Deliver((EncodeAll(closing) + raw)[..k]) <= raw
  {
    if closing == [] {
      assert (EncodeAll(closing) + raw)[..k] == [];
    } else {
      OneRecord(closing[0]);
      assert closing == [closing[0]];
      CutMarker(closing[0], raw, k);
    }
  }

  lemma {:induction false} CutMarker(r: Record, raw: seq<byte>, k: nat)
    requires Sendable(r) && (r.End? || r.Switch?) && (raw != [] ==> r.Switch?) && k <= |Encode(r) + raw|
    ensures Deliver((Encode(r) + raw)[..k]) <= raw
  {
    var marker := Encode(r);
    if k < |marker| {
      assert (marker + raw)[..k] == marker[..k];
      CutRecord(r, k);
    } else {
      var some := raw[..k - |marker|];
      assert (marker + raw)[..k] == marker + some;
      RecordRoundTrip(r, some);
      assert [] + some == some;
    }
  }

  // ---- The code -----------------------------------------------------------

  /** `spliceFrom`: frames until `left` is used up, then switches and copies raw.
      Each read from the origin returns any non-empty amount that fits, and `knobs`
      are the readings of the shape for each write. */
  method SpliceFrom(down: FramedConn, source: seq<byte>, left0: int, knobs: nat -> nat -> Knobs) returns (raw: seq<byte>)
    requires down.Valid() && !down.ended && down.written == []
    modifies down
    ensures down.Valid() && down.written + raw == source
    ensures down.ended == down.switched && (!down.switched ==> raw == [])
    ensures down.switched ==> |down.written| >= left0
    ensures down.written == [] || |down.written| < left0 + READ_BUF
    ensures !down.switched ==> |source| < left0
  {
    var pos, left, writes := CopyFramed(down, source, left0, knobs);
    if left > 0 {
      assert source[..pos] + [] == source;
      return [];
    }
    raw := source[pos..];
    assert source[..pos] + raw == source;
    down.SwitchToRaw(knobs(writes)(0));
  }

  /** The framed part: until the threshold, or the end of the source before it. */
  method CopyFramed(down: FramedConn, source: seq<byte>, left0: int, knobs: nat -> nat -> Knobs)
    returns (pos: nat, left: int, writes: nat)
    requires down.Valid() && !down.ended && down.written == []
    modifies down`sent, down`records, down`written, down`padLeft
    ensures down.Valid() && !down.switched && pos <= |source| && down.written == source[..pos] && left == left0 - pos
    ensures left > 0 ==> pos == |source|
    ensures pos == 0 || pos < left0 + READ_BUF
  {
    pos, left, writes := 0, left0, 0;
    while left > 0 && pos < |source|
      invariant 0 <= pos <= |source| && left == left0 - pos && (pos == 0 || pos < left0 + READ_BUF)
      invariant down.Valid() && down.written == source[..pos]
      decreases |source| - pos
    {
      var n := CopyRead(down, source, pos, knobs(writes));
      pos, left, writes := pos + n, left - n, writes + 1;
    }
  }

  /** One read from the origin, framed. */
  method CopyRead(down: FramedConn, source: seq<byte>, pos: nat, knobs: nat -> Knobs) returns (n: nat)
    requires down.Valid() && !down.ended && pos < |source| && down.written == source[..pos]
    modifies down`sent, down`records, down`written, down`padLeft
    ensures down.Valid() && 0 < n <= READ_BUF && pos + n <= |source| && down.written == source[..pos + n]
  {
    n :| 0 < n <= READ_BUF && pos + n <= |source|;
    var count, open := down.Write(source[pos..pos + n], knobs);
    assert source[pos..pos + n][..n] == source[pos..pos + n];
    assert source[..pos] + source[pos..pos + n] == source[..pos + n];
  }

  /** What the server put on the wire is a valid spliced answer for the source,
      also after a later attempt to end the stream. */
  lemma {:induction false} SplicedFrom(down: FramedConn, source: seq<byte>, raw: seq<byte>)
    requires down.Valid() && down.written + raw == source && (raw != [] ==> down.switched)
    ensures var closing := if down.ended then [down.closing] else [];
      && ValidSplice(down.records, closing, raw)
      && down.sent + raw == SplicedWire(down.records, closing, raw)
      && Carried(down.records) + raw == source
  {
    var closing := if down.ended then [down.closing] else [];
    OneRecord(down.closing);
    assert down.sent == EncodeAll(down.records) + EncodeAll(closing);
    Associate(EncodeAll(down.records), EncodeAll(closing), raw);
  }

  /** From origin to client: a prefix at every moment, everything at the end. */
  lemma {:induction false} SpliceEndToEnd(down: FramedConn, source: seq<byte>, raw: seq<byte>, k: nat)
    requires down.Valid() && down.written + raw == source && (raw != [] ==> down.switched)
    requires k <= |down.sent + raw|
    ensures Deliver((down.sent + raw)[..k]) <= source
    ensures Deliver(down.sent + raw) == source
  {
    var closing := if down.ended then [down.closing] else [];
    SplicedFrom(down, source, raw);
    DeliverPrefix(down.records, closing, raw, k);
    DeliverAll(down.records, closing, raw);
  }

  /** `SpliceTo`: the framed copy, and the raw copy once the reader has switched. */
  method SpliceTo(wire: seq<byte>, bufSize: nat) returns (out: seq<byte>)
    requires bufSize > 0
    ensures out == Deliver(wire)
  {
    var down := new FramedConn(wire, 0);
    out := [];
    assert out + (down.rbuf + Deliver(wire)) == Deliver(wire);
    while true
      invariant !down.done && Deliver(wire) == out + (down.rbuf + Deliver(down.incoming))
      decreases |down.incoming|, |down.rbuf|
    {
      CopyStep(out, down.AsReader(), bufSize);
      var res := down.ReadInto(bufSize);
      match res {
        case Bytes(data) => out := out + data;
        case Raw => return out + down.incoming;
        case _ => return;
      }
    }
  }

  lemma {:induction false} CopyStep(out: seq<byte>, r: Reader, size: nat)
    requires !r.done && size > 0
    ensures var (r', res) := Read(r, size);
      var before := out + (r.rbuf + Deliver(r.incoming));
      && (res.Bytes? ==> !r'.done && before == out + res.data + (r'.rbuf + Deliver(r'.incoming)) &&
                         (|r'.incoming| < |r.incoming| || (r'.incoming == r.incoming && |r'.rbuf| < |r.rbuf|)))
      && (res.Raw? ==> before == out + r'.incoming)
      && (res.Eof? || res.Failed? ==> before == out)
  {
    if r.rbuf != [] {
      CopyBuffered(out, r, size);
    } else {
      assert r.rbuf + Deliver(r.incoming) == Deliver(r.incoming);
      var o := ReadRecord(r.incoming);
      if o.Payload? && o.data != [] {
        CopyRecord(out, r, size);
      } else {
        CopyEnd(out, r, size);
      }
    }
  }

  lemma {:induction false} CopyBuffered(out: seq<byte>, r: Reader, size: nat)
    requires !r.done && size > 0 && r.rbuf != []
    ensures var (r', res) := Read(r, size);
      && res.Bytes? && !r'.done && r'.incoming == r.incoming && |r'.rbuf| < |r.rbuf|
      && out + (r.rbuf + Deliver(r.incoming)) == out + res.data + (r'.rbuf + Deliver(r'.incoming))
  {
    var (r', res) := Read(r, size);
    assert r.rbuf == res.data + r'.rbuf;
    Regroup(out, res.data, r'.rbuf, Deliver(r.incoming));
  }

  lemma {:induction false} CopyRecord(out: seq<byte>, r: Reader, size: nat)
    requires !r.done && size > 0 && r.rbuf == []
    requires var o := ReadRecord(r.incoming); o.Payload? && o.data != []
    ensures var (r', res) := Read(r, size);
      && res.Bytes? && !r'.done && |r'.incoming| < |r.incoming|
      && out + Deliver(r.incoming) == out + res.data + (r'.rbuf + Deliver(r'.incoming))
  {
    var (r', res) := Read(r, size);
    DeliverPayload(r.incoming);
    assert ReadRecord(r.incoming).data == res.data + r'.rbuf;
    Regroup(out, res.data, r'.rbuf, Deliver(r'.incoming));
  }

  lemma {:induction false} CopyEnd(out: seq<byte>, r: Reader, size: nat)
    requires !r.done && r.rbuf == []
    requires var o := ReadRecord(r.incoming); !o.Payload? || o.data == []
    ensures var (r', res) := Read(r, size);
      && !res.Bytes? && (res.Raw? ==> out + Deliver(r.incoming) == out + r'.incoming)
      && (res.Eof? || res.Failed? ==> out + Deliver(r.incoming) == out)
  {
    var o := ReadRecord(r.incoming);
    if o.SwitchRaw? {
      assert [] + o.rest == o.rest;
    } else {
      assert Deliver(r.incoming) == [] && out + [] == out;
    }
  }

  lemma {:induction false} Regroup(out: seq<byte>, a: seq<byte>, b: seq<byte>, rest: seq<byte>)
    ensures out + ((a + b) + rest) == out + a + (b + rest)
  {
  }

  lemma {:induction false} DeliverPayload(wire: seq<byte>)
    requires var o := ReadRecord(wire); o.Payload? && o.data != []
    ensures var o := ReadRecord(wire); Deliver(wire) == o.data + Deliver(o.rest)
  {
    var o := ReadRecord(wire);
    var d := Drain(o.rest);
    if d.Switched? {
      Associate(o.data, d.payload, d.rest);
    }
  }
}
