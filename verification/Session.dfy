/** Many streams over one connection: the stream header that `core/tunnel` writes,
    and the loop of `core/relay` that reads headers, skips fillers between
    streams, and drains each framed stream. */
module Session {
  import opened Bytes
  import opened Framed
  import opened Wrappers

  const KEEPALIVE_BIT: nat := 0x20
  const TORRENT_BIT: nat := 0x40
  const SPLICE_BIT: nat := 0x80

  // ---- Flag bits in the protocol byte -------------------------------------

  predicate HasBit(x: byte, bit: nat)
    requires bit in {KEEPALIVE_BIT, TORRENT_BIT, SPLICE_BIT}
  {
    x / bit % 2 == 1
  }

  /** `x |= bit`. */
  function SetBit(x: byte, bit: nat): byte
    requires bit in {KEEPALIVE_BIT, TORRENT_BIT, SPLICE_BIT}
  {
    if HasBit(x, bit) then x else x + bit
  }

  /** `x &^ bit`. */
  function ClearBit(x: byte, bit: nat): byte
    requires bit in {KEEPALIVE_BIT, TORRENT_BIT, SPLICE_BIT}
  {
    if HasBit(x, bit) then x - bit else x
  }

  // ---- The header ---------------------------------------------------------

  /** What a stream asks for.  `proto` is the five-bit protocol number. */
  datatype Header = Header(proto: byte, splice: bool, keepAlive: bool, torrent: bool, addr: seq<byte>, port: nat)

  /** The first byte `openStreamPerFlow` sends for the protocol byte it is given. */
  function HeaderProto(proto: byte, keepAlive: bool, splice: bool): byte {
    var p := ClearBit(proto, SPLICE_BIT);
    var p := if keepAlive then SetBit(p, KEEPALIVE_BIT) else p;
    if splice then SetBit(p, SPLICE_BIT) else p
  }

  function EncodeHeader(first: byte, addr: seq<byte>, port: nat): seq<byte> {
    [first] + BE16(|addr| % U16_LIMIT) + addr + BE16(port)
  }

  /** `SkipFillerRecord`, after the three header bytes: the rest behind a filler. */
  function SkipFiller(wire: seq<byte>): (r: Option<seq<byte>>)
    ensures r.Some? ==> |r.value| < |wire|
  {
    if |wire| < 2 then None
    else
      var body := U16(wire[0..2]);
      if body < 2 || body > WIRE_TARGET || |wire| < 2 + body || U16(wire[2..4]) != FILLER_MARKER then None
      else Some(wire[2 + body..])
  }

  /** The header a first byte and the bytes behind it stand for; the client's
      splice wish counts only when splicing is enabled. */
  function Decode(first: byte, addr: seq<byte>, port: nat, spliceEnabled: bool): Header {
    Header(first % 32, HasBit(first, SPLICE_BIT) && spliceEnabled, HasBit(first, KEEPALIVE_BIT),
           HasBit(first, TORRENT_BIT), addr, port)
  }

  /** `readProxyStreamHeader`. */
  function ReadHeader(wire: seq<byte>, spliceEnabled: bool): (r: Option<(Header, seq<byte>)>)
    ensures r.Some? ==> |r.value.1| < |wire|
  {
    if |wire| < 3 then None
    else if wire[..3] == HEADER then
      match SkipFiller(wire[3..])
      case None => None
      case Some(rest) => ReadHeader(rest, spliceEnabled)
    else
      var addrLen := U16(wire[1..3]);
      if addrLen == 0 || addrLen > 255 || |wire| < 3 + addrLen + 2 then None
      else
        var addr, port := wire[3..3 + addrLen], U16(wire[3 + addrLen..5 + addrLen]);
        Some((Decode(wire[0], addr, port, spliceEnabled), wire[5 + addrLen..]))
  }

  /** Whatever header is read, its address has between 1 and 255 bytes. */
  lemma {:induction false} AddressRead(wire: seq<byte>, on: bool)
    ensures var r := ReadHeader(wire, on); r.Some? ==> 1 <= |r.value.0.addr| <= 255
    decreases |wire|
  {
    if |wire| < 3 || wire[..3] != HEADER {
    } else {
      var rest := SkipFiller(wire[3..]);
      if rest.Some? {
        AddressRead(rest.value, on);
      }
    }
  }

  /** A header is read back, and not taken for a filler, exactly if its address has
      between 1 and 255 bytes. */
  lemma {:induction false} HeaderRoundTrip(first: byte, addr: seq<byte>, port: nat, on: bool, tail: seq<byte>)
    requires port < U16_LIMIT
    ensures var h := Header(first % 32, first / 128 == 1 && on, first / 32 % 2 == 1, first / 64 % 2 == 1, addr, port);
      ReadHeader(EncodeHeader(first, addr, port) + tail, on) == Some((h, tail)) <==> 1 <= |addr| <= 255
  {
    var wire := EncodeHeader(first, addr, port) + tail;
    AddressRead(wire, on);
    if 1 <= |addr| <= 255 {
      var n := |addr|;
      U16RoundTrip(n);
      U16RoundTrip(port);
      assert wire[..3][1] == 0 && wire[1..3] == BE16(n) && wire[3..3 + n] == addr;
      assert wire[3 + n..5 + n] == BE16(port) && wire[5 + n..] == tail;
    }
  }

  /** What the client's flags become on the other side. */
  lemma {:induction false} FlagsRoundTrip(proto: byte, keepAlive: bool, splice: bool)
    ensures var first := HeaderProto(proto, keepAlive, splice);
      && first % 32 == proto % 32 && HasBit(first, KEEPALIVE_BIT) == (keepAlive || HasBit(proto, KEEPALIVE_BIT))
      && HasBit(first, SPLICE_BIT) == splice && HasBit(first, TORRENT_BIT) == HasBit(proto, TORRENT_BIT)
  {
    var p := ClearBit(proto, SPLICE_BIT);
    OneBit(proto, SPLICE_BIT);
    OneBit(p, KEEPALIVE_BIT);
    OneBit(if keepAlive then SetBit(p, KEEPALIVE_BIT) else p, SPLICE_BIT);
  }

  /** From the client's own arguments to what the server reads: the protocol number,
      the flags, the address and the port are the client's, and the rest of the wire
      is untouched. */
  lemma {:induction false} ClientHeaderRead(proto: byte, keepAlive: bool, splice: bool, addr: seq<byte>, port: nat,
                                            on: bool, tail: seq<byte>)
    requires 1 <= |addr| <= 255 && port < U16_LIMIT
    ensures ReadHeader(EncodeHeader(HeaderProto(proto, keepAlive, splice), addr, port) + tail, on) ==
            Some((Asked(proto, keepAlive, splice, addr, port, on), tail))
  {
    HeaderRoundTrip(HeaderProto(proto, keepAlive, splice), addr, port, on, tail);
    FlagsRoundTrip(proto, keepAlive, splice);
  }

  /** What a client that opens a stream with these arguments asks for. */
  function Asked(proto: byte, keepAlive: bool, splice: bool, addr: seq<byte>, port: nat, on: bool): Header {
    Header(proto % 32, splice && on, keepAlive || proto / 32 % 2 == 1, proto / 64 % 2 == 1, addr, port)
  }

  /** Setting or clearing a flag touches neither the protocol number nor another flag. */
  lemma {:induction false} OneBit(x: byte, bit: nat)
    requires bit in {KEEPALIVE_BIT, TORRENT_BIT, SPLICE_BIT}
    ensures SetBit(x, bit) % 32 == ClearBit(x, bit) % 32 == x % 32
    ensures HasBit(SetBit(x, bit), bit) && !HasBit(ClearBit(x, bit), bit)
    ensures forall other :: other in {KEEPALIVE_BIT, TORRENT_BIT, SPLICE_BIT} && other != bit ==>
      HasBit(SetBit(x, bit), other) == HasBit(ClearBit(x, bit), other) == HasBit(x, other)
  {
    var low, k, t, s := Parts(x);
    var with, without := SetBit(x, bit), ClearBit(x, bit);
    if bit == KEEPALIVE_BIT {
      PartsOf(with, low, 1, t, s);
      PartsOf(without, low, 0, t, s);
    } else if bit == TORRENT_BIT {
      PartsOf(with, low, k, 1, s);
      PartsOf(without, low, k, 0, s);
    } else {
      PartsOf(with, low, k, t, 1);
      PartsOf(without, low, k, t, 0);
    }
  }

  /** The protocol number and the flags of a first byte. */
  lemma {:induction false} Parts(x: byte) returns (low: nat, k: nat, t: nat, s: nat)
    ensures low < 32 && k < 2 && t < 2 && s < 2
    ensures x as int == low + KEEPALIVE_BIT * k + TORRENT_BIT * t + SPLICE_BIT * s
    ensures low == x as int % 32 && HasBit(x, KEEPALIVE_BIT) == (k == 1)
    ensures HasBit(x, TORRENT_BIT) == (t == 1) && HasBit(x, SPLICE_BIT) == (s == 1)
  {
    var q := x as int / 32;
    low, k, t, s := x as int % 32, q % 2, q / 2 % 2, q / 4;
    PartsOf(x, low, k, t, s);
  }

  lemma {:induction false} PartsOf(x: byte, low: nat, k: nat, t: nat, s: nat)
    requires low < 32 && k < 2 && t < 2 && s < 2
    requires x as int == low + KEEPALIVE_BIT * k + TORRENT_BIT * t + SPLICE_BIT * s
    ensures low == x as int % 32 && HasBit(x, KEEPALIVE_BIT) == (k == 1)
    ensures HasBit(x, TORRENT_BIT) == (t == 1) && HasBit(x, SPLICE_BIT) == (s == 1)
  {
  }

  lemma {:induction false} NoBits(x: byte)
    ensures ClearBit(ClearBit(ClearBit(x, SPLICE_BIT), KEEPALIVE_BIT), TORRENT_BIT) == x % 32
  {
  }

  lemma {:induction false} FillerSkipped(pad: seq<byte>, on: bool, tail: seq<byte>)
    requires |pad| <= MAX_PAD
    ensures ReadHeader(Encode(Filler(pad)) + tail, on) == ReadHeader(tail, on)
  {
    var wire := Encode(Filler(pad)) + tail;
    var size := 2 + |pad|;
    U16RoundTrip(size);
    U16RoundTrip(FILLER_MARKER);
    assert wire[..3] == HEADER;
    var rest := wire[3..];
    assert rest[0..2] == BE16(size) && rest[2..4] == BE16(FILLER_MARKER);
    assert rest[2 + size..] == tail;
  }

  /** The limit on a filler between streams is exact as far as the length field goes. */
  lemma {:induction false} LongFillerEndsSession(pad: seq<byte>, on: bool, tail: seq<byte>)
    requires MAX_PAD < |pad| < U16_LIMIT - 2
    ensures ReadHeader(Encode(Filler(pad)) + tail, on) == None
  {
    var wire, size := Encode(Filler(pad)) + tail, 2 + |pad|;
    U16RoundTrip(size);
    assert wire[..3] == HEADER && wire[3..][0..2] == BE16(size);
  }

  // ---- A whole session ----------------------------------------------------

  /** One stream as the client sends it: fillers while the connection was idle,
      the header, data and filler records, and the end marker. */
  datatype Stream = Stream(idle: seq<seq<byte>>, proto: byte, splice: bool, addr: seq<byte>, port: nat,
                           records: seq<Record>, endPad: seq<byte>)

  ghost predicate ValidStream(s: Stream) {
    && (forall i :: 0 <= i < |s.idle| ==> |s.idle[i]| <= MAX_PAD)
    && 1 <= |s.addr| <= 255 && s.port < U16_LIMIT
    && Midstream(s.records) && |s.endPad| <= MAX_PAD
  }

  function EncodeFillers(pads: seq<seq<byte>>): seq<byte> {
    if pads == [] then [] else Encode(Filler(pads[0])) + EncodeFillers(pads[1..])
  }

  function EncodeStream(s: Stream): seq<byte> {
    var head := EncodeHeader(HeaderProto(s.proto, true, s.splice), s.addr, s.port);
    EncodeFillers(s.idle) + (head + (EncodeAll(s.records) + Encode(End(s.endPad))))
  }

  function EncodeSession(ss: seq<Stream>): seq<byte> {
    if ss == [] then [] else EncodeStream(ss[0]) + EncodeSession(ss[1..])
  }

  /** A stream as the server understands it. */
  datatype Served = Served(header: Header, payload: seq<byte>)

  function AskedBy(s: Stream, on: bool): Header {
    Asked(s.proto, true, s.splice, s.addr, s.port, on)
  }

  function ServedAs(s: Stream, on: bool): Served {
    Served(AskedBy(s, on), Carried(s.records))
  }

  function Meaning(ss: seq<Stream>, on: bool): seq<Served> {
    if ss == [] then []
    else [ServedAs(ss[0], on)] + Meaning(ss[1..], on)
  }

  /** What the other side of a stream came to: whether the target could be reached,
      how many bytes it took before writing to it failed, if it did, whether a
      spliced answer went over to raw bytes, and whether its end marker could be
      sent. */
  datatype Answer = Answer(connected: bool, room: Option<nat>, wentRaw: bool, endSent: bool)

  predicate Fits(payload: seq<byte>, a: Answer) {
    a.room.Some? ==> |payload| <= a.room.value
  }

  /** What reaches the target. */
  function Delivered(payload: seq<byte>, a: Answer): seq<byte> {
    if Fits(payload, a) then payload else payload[..a.room.value]
  }

  /** `handleProxyStream`: the connection takes another stream only if the request
      was copied to its end marker and the answer stayed framed and was ended. */
  predicate Reusable(h: Header, d: Drained, a: Answer) {
    h.keepAlive && d.Ended? && Fits(d.payload, a) && !(h.splice && a.wentRaw) && a.endSent
  }

  /** `runSession`, one answer a stream: each header with the bytes relayed for it.
      Without keep-alive the stream is everything that follows. */
  function Serve(wire: seq<byte>, answers: seq<Answer>, on: bool): seq<Served>
    decreases |wire|
  {
    if answers == [] then []
    else match ReadHeader(wire, on)
      case None => []
      case Some(hr) =>
        if !answers[0].connected then []
        else if !hr.0.keepAlive then [Served(hr.0, Delivered(hr.1, answers[0]))]
        else
          DrainShrinks(hr.1);
          var d := Drain(hr.1);
          [Served(hr.0, Delivered(d.payload, answers[0]))] + if Reusable(hr.0, d, answers[0]) then Serve(d.rest, answers[1..], on) else []
  }

  lemma {:induction false} DrainShrinks(wire: seq<byte>)
    ensures Drain(wire).Ended? ==> |Drain(wire).rest| < |wire|
    decreases |wire|
  {
    var o := ReadRecord(wire);
    if !o.Payload? || o.data == [] {
    } else {
      DrainShrinks(o.rest);
    }
  }

  lemma {:induction false} FillersSkipped(pads: seq<seq<byte>>, on: bool, tail: seq<byte>)
    requires forall i :: 0 <= i < |pads| ==> |pads[i]| <= MAX_PAD
    ensures ReadHeader(EncodeFillers(pads) + tail, on) == ReadHeader(tail, on)
  {
    if pads == [] {
      assert [] + tail == tail;
    } else {
      Associate(Encode(Filler(pads[0])), EncodeFillers(pads[1..]), tail);
      FillerSkipped(pads[0], on, EncodeFillers(pads[1..]) + tail);
      FillersSkipped(pads[1..], on, tail);
    }
  }

  /** The answer lets the connection go on to the next stream. */
  predicate GoesOn(s: Stream, a: Answer, on: bool) {
    a.connected && Fits(Carried(s.records), a) && a.endSent && !(s.splice && on && a.wentRaw)
  }

  /** The stream as far as the target took it. */
  function ServedTo(s: Stream, a: Answer, on: bool): seq<Served> {
    if a.connected then [Served(AskedBy(s, on), Delivered(Carried(s.records), a))] else []
  }

  lemma {:induction false} StreamRead(s: Stream, on: bool, tail: seq<byte>)
    requires ValidStream(s)
    ensures var body := EncodeAll(s.records) + Encode(End(s.endPad)) + tail;
      && ReadHeader(EncodeStream(s) + tail, on) == Some((AskedBy(s, on), body))
      && Drain(body) == Ended(Carried(s.records), tail)
  {
    var body := EncodeAll(s.records) + Encode(End(s.endPad));
    var head := EncodeHeader(HeaderProto(s.proto, true, s.splice), s.addr, s.port);
    Associate(EncodeFillers(s.idle), head + body, tail);
    Associate(head, body, tail);
    FillersSkipped(s.idle, on, head + (body + tail));
    ClientHeaderRead(s.proto, true, s.splice, s.addr, s.port, on, body + tail);
    DrainEnded(s.records, s.endPad, tail);
  }

  /** One stream: relayed if its target is reached, as far as the target takes it, and
      the next one is served exactly if the answer lets the connection go on. */
  lemma {:induction false} StreamServed(s: Stream, answers: seq<Answer>, on: bool, tail: seq<byte>)
    requires ValidStream(s) && answers != []
    ensures Serve(EncodeStream(s) + tail, answers, on) ==
            ServedTo(s, answers[0], on) +
            (if GoesOn(s, answers[0], on) then Serve(tail, answers[1..], on) else [])
  {
    StreamRead(s, on, tail);
  }

  ghost predicate AllGoOn(ss: seq<Stream>, answers: seq<Answer>, on: bool) {
    |ss| <= |answers| && forall i :: 0 <= i < |ss| ==> ValidStream(ss[i]) && GoesOn(ss[i], answers[i], on)
  }

  /** The server loop recovers exactly the streams the client sent, each header
      starting at the right byte, for as long as the answers let it go on. */
  lemma {:induction false} SessionRoundTrip(ss: seq<Stream>, answers: seq<Answer>, on: bool, tail: seq<byte>)
    requires AllGoOn(ss, answers, on)
    ensures Serve(EncodeSession(ss) + tail, answers, on) == Meaning(ss, on) + Serve(tail, answers[|ss|..], on)
  {
    if ss == [] {
      assert EncodeSession(ss) + tail == tail && answers[|ss|..] == answers;
      assert Meaning(ss, on) + Serve(tail, answers, on) == Serve(tail, answers, on);
    } else {
      Associate(EncodeStream(ss[0]), EncodeSession(ss[1..]), tail);
      StreamServed(ss[0], answers, on, EncodeSession(ss[1..]) + tail);
      assert answers[1..][|ss[1..]|..] == answers[|ss|..];
      SessionRoundTrip(ss[1..], answers[1..], on, tail);
      JoinServed([ServedAs(ss[0], on)], Meaning(ss[1..], on), Serve(tail, answers[|ss|..], on));
    }
  }

  lemma {:induction false} JoinServed(a: seq<Served>, b: seq<Served>, c: seq<Served>)
    ensures a + (b + c) == a + b + c
  {
  }

  /** The first answer that does not let it go on ends the session: the streams so
      far are served, and of the rest none. */
  lemma {:induction false} SessionStops(ss: seq<Stream>, last: Stream, answers: seq<Answer>, on: bool, tail: seq<byte>)
    requires AllGoOn(ss, answers, on) && |ss| < |answers| && ValidStream(last) && !GoesOn(last, answers[|ss|], on)
    ensures Serve(EncodeSession(ss) + (EncodeStream(last) + tail), answers, on) ==
            Meaning(ss, on) + ServedTo(last, answers[|ss|], on)
  {
    SessionRoundTrip(ss, answers, on, EncodeStream(last) + tail);
    StreamServed(last, answers[|ss|..], on, tail);
    assert answers[|ss|..][0] == answers[|ss|];
  }

  /** A stream without keep-alive takes the rest of the connection. */
  lemma {:induction false} LastStream(proto: byte, splice: bool, addr: seq<byte>, port: nat, answers: seq<Answer>,
                                      on: bool, body: seq<byte>)
    requires !HasBit(proto, KEEPALIVE_BIT) && 1 <= |addr| <= 255 && port < U16_LIMIT
    requires answers != [] && answers[0].connected
    ensures Serve(EncodeHeader(HeaderProto(proto, false, splice), addr, port) + body, answers, on) ==
            [Served(Asked(proto, false, splice, addr, port, on), Delivered(body, answers[0]))]
  {
    ClientHeaderRead(proto, false, splice, addr, port, on, body);
  }

  // ---- The code -----------------------------------------------------------

  method ReadStreamHeader(stream: seq<byte>, spliceEnabled: bool) returns (h: Option<(Header, seq<byte>)>)
    ensures h == ReadHeader(stream, spliceEnabled)
  {
    var rest := stream;
    while true
      invariant ReadHeader(rest, spliceEnabled) == ReadHeader(stream, spliceEnabled)
      decreases |rest|
    {
      if |rest| < 3 { return None; }
      if rest[0] != 0x17 || rest[1] != 0x03 || rest[2] != 0x03 { break; }
      assert rest[..3] == HEADER;
      var skipped := SkipFiller(rest[3..]);
      if skipped.None? { return None; }
      rest := skipped.value;
    }
    assert rest[..3] != HEADER by { assert rest[..3][0] == rest[0] && rest[..3][1] == rest[1] && rest[..3][2] == rest[2]; }
    var addrLen := U16(rest[1..3]);
    if addrLen == 0 || addrLen > 255 { return None; }
    if |rest| < 3 + addrLen + 2 { return None; }
    var first := rest[0];
    NoBits(first);
    var proto := ClearBit(ClearBit(ClearBit(first, SPLICE_BIT), KEEPALIVE_BIT), TORRENT_BIT);
    return Some((Header(proto, HasBit(first, SPLICE_BIT) && spliceEnabled, HasBit(first, KEEPALIVE_BIT),
                        HasBit(first, TORRENT_BIT), rest[3..3 + addrLen], U16(rest[3 + addrLen..5 + addrLen])),
                 rest[5 + addrLen..]));
  }

  /** The session loop.  `bufSize` is the copy buffer of the relay. */
  method RunSession(stream: seq<byte>, answers: seq<Answer>, spliceEnabled: bool, bufSize: nat)
    returns (served: seq<Served>)
    requires bufSize > 0
    ensures served == Serve(stream, answers, spliceEnabled)
  {
    served := [];
    var rest, i := stream, 0;
    assert answers[0..] == answers;
    while i < |answers|
      invariant 0 <= i <= |answers|
      invariant served + Serve(rest, answers[i..], spliceEnabled) == Serve(stream, answers, spliceEnabled)
      decreases |rest|
    {
      var s, after := HandleStream(rest, answers[i], spliceEnabled, bufSize);
      ServeStep(served, rest, answers, i, spliceEnabled);
      if s.Some? { served := served + [s.value]; }
      if after.None? { return; }
      rest, i := after.value, i + 1;
    }
  }

  /** What one stream adds, and where the next header starts if there is to be one. */
  function Handled(wire: seq<byte>, a: Answer, on: bool): (r: (Option<Served>, Option<seq<byte>>))
    ensures r.1.Some? ==> |r.1.value| < |wire|
  {
    match ReadHeader(wire, on)
    case None => (None, None)
    case Some(hr) =>
      if !a.connected then (None, None)
      else if !hr.0.keepAlive then (Some(Served(hr.0, Delivered(hr.1, a))), None)
      else
        DrainShrinks(hr.1);
        var d := Drain(hr.1);
        (Some(Served(hr.0, Delivered(d.payload, a))), if Reusable(hr.0, d, a) then Some(d.rest) else None)
  }

  function Listed(s: Option<Served>): seq<Served> {
    if s.Some? then [s.value] else []
  }

  /** `handleProxyStream`. */
  method HandleStream(wire: seq<byte>, a: Answer, on: bool, bufSize: nat)
    returns (s: Option<Served>, after: Option<seq<byte>>)
    requires bufSize > 0
    ensures (s, after) == Handled(wire, a, on)
  {
    var h := ReadStreamHeader(wire, on);
    if h.None? || !a.connected {
      return None, None;
    }
    if !h.value.0.keepAlive {
      return Some(Served(h.value.0, Delivered(h.value.1, a))), None;
    }
    var payload, rest := RelayUpstream(h.value.1, a, bufSize);
    s := Some(Served(h.value.0, payload));
    after := if rest.Some? && !(h.value.0.splice && a.wentRaw) && a.endSent then rest else None;
  }

  lemma {:induction false} ServeStep(served: seq<Served>, wire: seq<byte>, answers: seq<Answer>, i: nat, on: bool)
    requires i < |answers|
    ensures var (s, after) := Handled(wire, answers[i], on);
      served + Serve(wire, answers[i..], on) ==
      served + Listed(s) + if after.Some? then Serve(after.value, answers[i + 1..], on) else []
  {
    var (s, after) := Handled(wire, answers[i], on);
    assert answers[i..][0] == answers[i] && answers[i..][1..] == answers[i + 1..];
    JoinServed(served, Listed(s), if after.Some? then Serve(after.value, answers[i + 1..], on) else []);
  }

  /** The upstream copy of one stream: reads until the end, or until the target takes
      no more, and tells where the next header starts if the stream was done. */
  method RelayUpstream(wire: seq<byte>, a: Answer, bufSize: nat) returns (payload: seq<byte>, after: Option<seq<byte>>)
    requires bufSize > 0
    ensures payload == Delivered(Drain(wire).payload, a)
    ensures after == if Drain(wire).Ended? && Fits(Drain(wire).payload, a) then Some(Drain(wire).rest) else None
  {
    var conn := new FramedConn(wire, 0);
    payload := [];
    while true
      invariant Sofar(wire, payload, conn.AsReader()) && Fits(payload, a)
      decreases |conn.incoming|, |conn.rbuf|
    {
      ReadAdvances(wire, payload, conn.AsReader(), bufSize);
      var res := conn.ReadInto(bufSize);
      match res {
        case Bytes(data) =>
          if !Fits(payload + data, a) {
            TargetFails(wire, payload + data, conn.AsReader(), a);
            return (payload + data)[..a.room.value], None;
          }
          payload := payload + data;
        case Eof => return payload, Some(conn.incoming);
        case _ => return payload, None;
      }
    }
  }

  /** What was read is the front of the stream, so a target that refuses it refuses
      the stream, at the same byte. */
  lemma {:induction false} TargetFails(wire: seq<byte>, front: seq<byte>, r: Reader, a: Answer)
    requires Sofar(wire, front, r) && !Fits(front, a)
    ensures !Fits(Drain(wire).payload, a) && Delivered(Drain(wire).payload, a) == front[..a.room.value]
  {
    var all := Drain(wire).payload;
    assert all == front + r.rbuf + Drain(r.incoming).payload;
    assert all[..a.room.value] == front[..a.room.value];
  }

  ghost predicate Sofar(wire: seq<byte>, payload: seq<byte>, r: Reader) {
    !r.done && Drain(wire) == Prepend(payload + r.rbuf, Drain(r.incoming))
  }

  lemma {:induction false} ReadAdvances(wire: seq<byte>, payload: seq<byte>, r: Reader, size: nat)
    requires Sofar(wire, payload, r) && size > 0
    ensures var (r', res) := Read(r, size);
      && (res.Bytes? ==> Sofar(wire, payload + res.data, r') &&
                         (|r'.incoming| < |r.incoming| || (r'.incoming == r.incoming && |r'.rbuf| < |r.rbuf|)))
      && (res.Eof? ==> Drain(wire) == Ended(payload, r'.incoming))
      && (res.Raw? || res.Failed? ==> !Drain(wire).Ended? && Drain(wire).payload == payload)
  {
    var (r', res) := Read(r, size);
    if r.rbuf != [] {
      assert payload + res.data + r'.rbuf == payload + r.rbuf;
    } else {
      assert payload + r.rbuf == payload;
      if res.Bytes? {
        RecordAdvances(wire, payload, r, size);
      } else {
        assert payload + [] == payload;
      }
    }
  }

  lemma {:induction false} RecordAdvances(wire: seq<byte>, payload: seq<byte>, r: Reader, size: nat)
    requires r.rbuf == [] && !r.done && size > 0 && Drain(wire) == Prepend(payload, Drain(r.incoming))
    requires Read(r, size).1.Bytes?
    ensures var (r', res) := Read(r, size);
      |r'.incoming| < |r.incoming| && Drain(wire) == Prepend(payload + res.data + r'.rbuf, Drain(r'.incoming))
  {
    var (r', res) := Read(r, size);
    DrainData(r.incoming);
    assert ReadRecord(r.incoming).data == res.data + r'.rbuf;
    PrependParts(payload, res.data, r'.rbuf, Drain(r'.incoming));
  }

  lemma {:induction false} DrainData(wire: seq<byte>)
    requires var o := ReadRecord(wire); o.Payload? && o.data != []
    ensures var o := ReadRecord(wire); |o.rest| < |wire| && Drain(wire) == Prepend(o.data, Drain(o.rest))
  {
  }

  lemma {:induction false} PrependParts(a: seq<byte>, b: seq<byte>, c: seq<byte>, d: Drained)
    ensures Prepend(a, Prepend(b + c, d)) == Prepend(a + b + c, d)
  {
    Associate(a, b, c);
    Associate(a, b + c, d.payload);
  }
}
