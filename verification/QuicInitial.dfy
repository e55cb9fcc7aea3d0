/** The QUIC Initial probe of `core/protocol/quic/initial.go`: varints (section 16 of
    RFC 9000), building and protecting the packet, and the parser that gets the
    ClientHello out again. */
module QuicInitial {
  import opened Bytes
  import opened Powers
  import opened Wrappers

  const FRAME_PADDING: byte := 0x00
  const FRAME_CRYPTO: byte := 0x06
  const MIN_INITIAL: nat := 1200
  const AEAD_OVERHEAD: nat := 16
  const VARINT_LIMIT: nat := 0x4000_0000_0000_0000

  // ---- Varints ------------------------------------------------------------

  function VarintLen(v: nat): nat {
    if v <= 63 then 1 else if v <= 16383 then 2 else if v <= 1073741823 then 4 else 8
  }

  /** The low `n` bytes of `v`, most significant first. */
  function BigEndian(v: nat, n: nat): (s: seq<byte>)
    ensures |s| == n
  {
    if n == 0 then [] else BigEndian(v / 256, n - 1) + [v % 256]
  }

  /** The two length bits. */
  function LengthBits(n: nat): nat {
    if n == 1 then 0 else if n == 2 then 1 else if n == 4 then 2 else 3
  }

  /** `quicVarintAppend` to nothing. */
  function Varint(v: nat): (s: seq<byte>)
    requires v < VARINT_LIMIT
    ensures |s| == VarintLen(v)
  {
    var n := VarintLen(v);
    var s := BigEndian(v, n);
    TopByte(v, n);
    s[0 := s[0] + 64 * LengthBits(n)]
  }

  /** The top six bits are free for the length. */
  lemma {:induction false} TopByte(v: nat, n: nat)
    requires v < VARINT_LIMIT && n == VarintLen(v)
    ensures BigEndian(v, n)[0] < 64
  {
    SmallPowers();
    FirstByte(v, n);
  }

  lemma {:induction false} FirstByte(v: nat, n: nat)
    requires n > 0 && v < 64 * Pow(256, n - 1)
    ensures BigEndian(v, n)[0] < 64
  {
    if n == 1 {
    } else {
      FirstByte(v / 256, n - 1);
      assert BigEndian(v, n)[0] == BigEndian(v / 256, n - 1)[0];
    }
  }

  function Accumulate(v: nat, s: seq<byte>): nat {
    if s == [] then v else Accumulate(v, s[..|s| - 1]) * 256 + s[|s| - 1] as int
  }

  function EncodedLen(first: byte): nat {
    if first / 64 == 0 then 1 else if first / 64 == 1 then 2 else if first / 64 == 2 then 4 else 8
  }

  /** `quicVarintParse`: the value and how many bytes it took. */
  function VarintParse(b: seq<byte>): (r: Option<(nat, nat)>)
    ensures r.Some? ==> 1 <= r.value.1 <= |b|
  {
    if |b| == 0 then None
    else
      var l := EncodedLen(b[0]);
      if |b| < l then None else Some((Accumulate(b[0] % 64, b[1..l]), l))
  }

  lemma {:induction false} AccumulateBigEndian(v: nat, n: nat)
    requires n > 0 && v < Pow(256, n)
    ensures Accumulate(BigEndian(v, n)[0] as int, BigEndian(v, n)[1..]) == v
  {
    var s := BigEndian(v, n);
    if n == 1 {
      assert s[1..] == [] && Pow(256, 1) == 256;
    } else {
      var t := BigEndian(v / 256, n - 1);
      AccumulateBigEndian(v / 256, n - 1);
      assert s[0] == t[0] && s[1..][..n - 2] == t[1..] && s[1..][n - 2] == v % 256;
    }
  }

  /** Six bits of the value and two of the length do not mix. */
  lemma {:induction false} FirstByteParts(x: nat, n: nat)
    requires x < 64 && n in {1, 2, 4, 8}
    ensures var b: byte := x + 64 * LengthBits(n); b % 64 == x && EncodedLen(b) == n
  {
  }

  lemma {:induction false} FitsLength(v: nat)
    requires v < VARINT_LIMIT
    ensures v < Pow(256, VarintLen(v))
  {
    SmallPowers();
  }

  /** Every value below 2^62 survives encoding and parsing, whatever follows it. */
  lemma {:induction false} VarintRoundTrip(v: nat, tail: seq<byte>)
    requires v < VARINT_LIMIT
    ensures VarintParse(Varint(v) + tail) == Some((v, VarintLen(v)))
  {
    var n := VarintLen(v);
    var s, e := BigEndian(v, n), Varint(v) + tail;
    TopByte(v, n);
    FitsLength(v);
    AccumulateBigEndian(v, n);
    FirstByteParts(s[0], n);
    assert e[0] == s[0] + 64 * LengthBits(n);
    assert e[1..n] == s[1..];
  }

  /** The encoding is the shortest there is: 1, 2, 4 or 8 bytes, of which the first
      has six bits to give. */
  lemma {:induction false} VarintShortest(v: nat, n: nat)
    requires v < VARINT_LIMIT && n in {1, 2, 4, 8}
    ensures |Varint(v)| in {1, 2, 4, 8}
    ensures |Varint(v)| <= n <==> v < 64 * Pow(256, n - 1)
  {
    SmallPowers();
  }

  method ParseVarint(b: seq<byte>) returns (r: Option<(nat, nat)>)
    ensures r == VarintParse(b)
  {
    if |b| == 0 { return None; }
    var l := EncodedLen(b[0]);
    if |b| < l { return None; }
    var v: nat := b[0] % 64;
    for i := 1 to l
      invariant v == Accumulate(b[0] % 64, b[1..i])
    {
      assert b[1..i + 1][..i - 1] == b[1..i];
      v := v * 256 + b[i] as int;
    }
    return Some((v, l));
  }

  // ---- Header protection --------------------------------------------------

  /** Exclusive or of the low `n` bits. */
  function XorBits(a: nat, b: nat, n: nat): nat {
    if n == 0 then 0 else (a % 2 + b % 2) % 2 + 2 * XorBits(a / 2, b / 2, n - 1)
  }

  lemma {:induction false} XorBound(a: nat, b: nat, n: nat)
    ensures XorBits(a, b, n) < Pow(2, n)
  {
    if n == 0 {
    } else {
      XorBound(a / 2, b / 2, n - 1);
    }
  }

  lemma {:induction false} BitAndRest(bit: nat, rest: nat, x: nat)
    requires bit < 2 && x == bit + 2 * rest
    ensures x % 2 == bit && x / 2 == rest
  {
  }

  lemma {:induction false} BitTwice(a: nat, b: nat)
    ensures ((a % 2 + b % 2) % 2 + b % 2) % 2 == a % 2
  {
  }

  lemma {:induction false} XorTwice(a: nat, b: nat, n: nat)
    requires a < Pow(2, n)
    ensures XorBits(XorBits(a, b, n), b, n) == a
  {
    if n == 0 {
    } else {
      var x, rest := XorBits(a, b, n), XorBits(a / 2, b / 2, n - 1);
      XorTwice(a / 2, b / 2, n - 1);
      BitAndRest((a % 2 + b % 2) % 2, rest, x);
      BitTwice(a, b);
    }
  }

  lemma {:induction false} XorZero(a: nat, n: nat)
    requires a < Pow(2, n)
    ensures XorBits(a, 0, n) == a
  {
    if n == 0 {
    } else {
      XorZero(a / 2, n - 1);
    }
  }

  function Xor(a: byte, b: byte): byte {
    XorBound(a, b, 8);
    SmallPowers();
    XorBits(a, b, 8)
  }

  lemma {:induction false} XorByteTwice(a: byte, b: byte)
    ensures Xor(Xor(a, b), b) == a
  {
    SmallPowers();
    XorTwice(a, b, 8);
  }

  /** Protection of the first byte leaves its upper half alone. */
  lemma {:induction false} XorLowHalf(h: nat, b: nat)
    requires h < 16 && b < 16
    ensures XorBits(16 * h, b, 8) == 16 * h + b
  {
    SmallPowers();
    XorShifted(h, b, 4, 8);
  }

  lemma {:induction false} XorShifted(h: nat, b: nat, k: nat, n: nat)
    requires k <= n && h < Pow(2, n - k) && b < Pow(2, k)
    ensures XorBits(h * Pow(2, k), b, n) == h * Pow(2, k) + b
  {
    if k == 0 {
      XorZero(h, n);
    } else {
      var high := h * Pow(2, k - 1);
      Reorder(h, Pow(2, k - 1), 2);
      XorEven(high, b, n);
      XorShifted(h, b / 2, k - 1, n - 1);
    }
  }

  lemma {:induction false} XorEven(h: nat, b: nat, n: nat)
    requires n > 0
    ensures XorBits(2 * h, b, n) == b % 2 + 2 * XorBits(h, b / 2, n - 1)
  {
  }

  // ---- The packet ---------------------------------------------------------

  /** The cryptography, keyed by the destination connection id: sealing and opening
      with packet number and associated data, and the header protection mask. */
  datatype Crypto = Crypto(
    seal: (seq<byte>, nat, seq<byte>, seq<byte>) -> seq<byte>,
    open: (seq<byte>, nat, seq<byte>, seq<byte>) -> Option<seq<byte>>,
    mask: (seq<byte>, seq<byte>) -> seq<byte>)

  ghost predicate ValidCrypto(c: Crypto) {
    && (forall id, pn, text, ad :: |c.seal(id, pn, text, ad)| == |text| + AEAD_OVERHEAD)
    && (forall id, pn, text, ad :: c.open(id, pn, c.seal(id, pn, text, ad), ad) == Some(text))
    && (forall id, sample :: |c.mask(id, sample)| == 16)
  }

  function CryptoFrame(data: seq<byte>): seq<byte>
    requires |data| < VARINT_LIMIT
  {
    [FRAME_CRYPTO] + Varint(0) + Varint(|data|) + data
  }

  const ID_LEN: nat := 8

  /** Everything up to the length field. */
  function Prefix(dcid: seq<byte>, scid: seq<byte>): seq<byte> {
    [0xC0, 0, 0, 0, 1] + [ID_LEN] + dcid + [ID_LEN] + scid + [0]
  }

  const PREFIX_LEN: nat := 5 + 1 + ID_LEN + 1 + ID_LEN + 1

  /** Padding that brings the packet to the minimum size. */
  function PadLen(frame: nat): nat {
    var unpadded := PREFIX_LEN + VarintLen(1 + frame + AEAD_OVERHEAD) + 1 + frame + AEAD_OVERHEAD;
    if MIN_INITIAL < unpadded then 0 else MIN_INITIAL - unpadded
  }

  function Payload(hello: seq<byte>): seq<byte>
    requires |hello| < VARINT_LIMIT
  {
    CryptoFrame(hello) + Zeros(PadLen(|CryptoFrame(hello)|))
  }

  function Fits(hello: seq<byte>): bool {
    |hello| < VARINT_LIMIT / 2
  }

  lemma {:induction false} LengthFits(hello: seq<byte>)
    requires Fits(hello)
    ensures 1 + |Payload(hello)| + AEAD_OVERHEAD < VARINT_LIMIT
  {
  }

  function Header(dcid: seq<byte>, scid: seq<byte>, hello: seq<byte>): seq<byte>
    requires Fits(hello)
  {
    LengthFits(hello);
    Prefix(dcid, scid) + Varint(1 + |Payload(hello)| + AEAD_OVERHEAD) + [0]
  }

  /** The two protected bytes: the low half of the first, and the packet number. */
  function Protect(packet: seq<byte>, pnOffset: nat, mask: seq<byte>): seq<byte>
    requires 0 < pnOffset < |packet| && |mask| == 16
  {
    packet[0 := Xor(packet[0], mask[0] % 16)][pnOffset := Xor(packet[pnOffset], mask[1])]
  }

  function Sample(packet: seq<byte>, pnOffset: nat): seq<byte>
    requires pnOffset + 20 <= |packet|
  {
    packet[pnOffset + 4..pnOffset + 20]
  }

  /** `BuildCamoProbe`, given the connection ids and the ClientHello. */
  function BuildProbe(c: Crypto, dcid: seq<byte>, scid: seq<byte>, hello: seq<byte>): Option<seq<byte>>
    requires Fits(hello) && ValidCrypto(c)
  {
    var header := Header(dcid, scid, hello);
    var packet := header + c.seal(dcid, 0, Payload(hello), header);
    var pnOffset := |header| - 1;
    if pnOffset + 20 > |packet| then None
    else Some(Protect(packet, pnOffset, c.mask(dcid, Sample(packet, pnOffset))))
  }

  // ---- The parser ---------------------------------------------------------

  datatype InitialHeader = InitialHeader(dcid: seq<byte>, pnOffset: nat, length: nat)

  /** `parseQUICInitialHeader`. */
  function ParseHeader(packet: seq<byte>): (r: Option<InitialHeader>)
    ensures r.Some? ==> 7 <= r.value.pnOffset && r.value.pnOffset + r.value.length <= |packet|
  {
    if |packet| < 7 || packet[0] / 128 == 0 || packet[0] / 64 % 2 == 0 then None
    else if packet[1..5] != [0, 0, 0, 1] then None
    else if packet[0] / 16 % 4 != 0 then None
    else
      var dcidLen: nat := packet[5];
      if 6 + dcidLen + 1 > |packet| then None
      else
        var dcid, scidLen := packet[6..6 + dcidLen], packet[6 + dcidLen] as int;
        var p := 7 + dcidLen + scidLen;
        if p > |packet| then None
        else match VarintParse(packet[p..])
          case None => None
          case Some(token) =>
            var p := p + token.1;
            if p + token.0 > |packet| then None
            else
              var p := p + token.0;
              match VarintParse(packet[p..])
              case None => None
              case Some(len) =>
                var p := p + len.1;
                if p + len.0 > |packet| then None else Some(InitialHeader(dcid, p, len.0))
  }

  function PacketNumber(s: seq<byte>): nat {
    Accumulate(0, s)
  }

  /** `decryptQUICInitial`. */
  function Decrypt(c: Crypto, packet: seq<byte>, h: InitialHeader): Option<seq<byte>>
    requires ValidCrypto(c) && 0 < h.pnOffset && h.pnOffset + h.length <= |packet|
  {
    if h.pnOffset + 20 > |packet| then None
    else
      var mask := c.mask(h.dcid, Sample(packet, h.pnOffset));
      var first := Xor(packet[0], mask[0] % 16);
      var pnLen := first % 4 + 1;
      if h.length < pnLen then None
      else
        var pn := seq(pnLen, i requires 0 <= i < pnLen => Xor(packet[h.pnOffset + i], mask[1 + i]));
        var ad := [first] + packet[1..h.pnOffset] + pn;
        c.open(h.dcid, PacketNumber(pn), packet[h.pnOffset + pnLen..h.pnOffset + h.length], ad)
  }

  /** `extractCryptoFrameData`, having collected `data` so far. */
  function Extract(payload: seq<byte>, data: seq<byte>): Option<seq<byte>>
    decreases |payload|
  {
    if payload == [] then if |data| < 4 then None else Some(data)
    else if payload[0] == FRAME_PADDING then Extract(payload[1..], data)
    else if payload[0] != FRAME_CRYPTO then None
    else
      var p := payload[1..];
      match VarintParse(p)
      case None => None
      case Some(offset) =>
        var p := p[offset.1..];
        match VarintParse(p)
        case None => None
        case Some(len) =>
          var p := p[len.1..];
          if |p| < len.0 then None else Extract(p[len.0..], data + p[..len.0])
  }

  method ExtractCrypto(plaintext: seq<byte>) returns (r: Option<seq<byte>>)
    ensures r == Extract(plaintext, [])
  {
    var payload, data: seq<byte> := plaintext, [];
    while |payload| > 0
      invariant Extract(payload, data) == Extract(plaintext, [])
      decreases |payload|
    {
      if payload[0] == FRAME_PADDING {
        payload := payload[1..];
        continue;
      }
      if payload[0] != FRAME_CRYPTO { return None; }
      var p := payload[1..];
      var offset := ParseVarint(p);
      if offset.None? { return None; }
      p := p[offset.value.1..];
      var len := ParseVarint(p);
      if len.None? { return None; }
      p := p[len.value.1..];
      if |p| < len.value.0 { return None; }
      payload, data := p[len.value.0..], data + p[..len.value.0];
    }
    return if |data| < 4 then None else Some(data);
  }

  /** `parseQUICInitialClientHello`, up to the ClientHello bytes. */
  function ParseInitial(c: Crypto, packet: seq<byte>): Option<(seq<byte>, seq<byte>)>
    requires ValidCrypto(c)
  {
    match ParseHeader(packet)
    case None => None
    case Some(h) =>
      match Decrypt(c, packet, h)
      case None => None
      case Some(text) =>
        match Extract(text, [])
        case None => None
        case Some(hello) => Some((h.dcid, hello))
  }

  // ---- The round trip -----------------------------------------------------

  lemma {:induction false} ExtractPadding(n: nat, data: seq<byte>)
    requires |data| >= 4
    ensures Extract(Zeros(n), data) == Some(data)
  {
    if n == 0 {
    } else {
      ExtractPadding(n - 1, data);
      assert Zeros(n)[1..] == Zeros(n - 1);
    }
  }

  lemma {:induction false} ExtractFrame(hello: seq<byte>, n: nat)
    requires 4 <= |hello| < VARINT_LIMIT
    ensures Extract(CryptoFrame(hello) + Zeros(n), []) == Some(hello)
  {
    var all := CryptoFrame(hello) + Zeros(n);
    var tail := hello + Zeros(n);
    var p := all[1..];
    assert p == Varint(0) + (Varint(|hello|) + tail);
    VarintRoundTrip(0, Varint(|hello|) + tail);
    assert p[VarintLen(0)..] == Varint(|hello|) + tail;
    VarintRoundTrip(|hello|, tail);
    assert (Varint(|hello|) + tail)[VarintLen(|hello|)..] == tail;
    assert tail[..|hello|] == hello && tail[|hello|..] == Zeros(n) && [] + hello == hello;
    ExtractPadding(n, hello);
  }

  /** The size promise of section 14.1 of RFC 9000. */
  lemma {:induction false} ProbeSize(c: Crypto, dcid: seq<byte>, scid: seq<byte>, hello: seq<byte>)
    requires Fits(hello) && ValidCrypto(c) && |dcid| == |scid| == ID_LEN
    ensures BuildProbe(c, dcid, scid, hello).Some? && |BuildProbe(c, dcid, scid, hello).value| >= MIN_INITIAL
  {
    LengthFits(hello);
    var frame, n := |CryptoFrame(hello)|, |Payload(hello)|;
    assert VarintLen(1 + frame + AEAD_OVERHEAD) <= VarintLen(1 + n + AEAD_OVERHEAD);
  }

  /** The exact size: what the hello needs, or 1200; one byte more for a hello so
      short that padding makes the length field longer. */
  lemma {:induction false} ProbeSizeIs(c: Crypto, dcid: seq<byte>, scid: seq<byte>, hello: seq<byte>)
    requires Fits(hello) && ValidCrypto(c) && |dcid| == |scid| == ID_LEN
    ensures var frame := 2 + |Varint(|hello|)| + |hello|;
      var bare := 24 + |Varint(frame + 17)| + frame + 17;
      |BuildProbe(c, dcid, scid, hello).value| == if bare >= 1200 then bare else if frame + 17 < 64 then 1201 else 1200
  {
    ProbeSize(c, dcid, scid, hello);
    LengthFits(hello);
    assert |CryptoFrame(hello)| == 2 + |Varint(|hello|)| + |hello|;
  }

  /** What protection changes, seen from the outside. */
  lemma {:induction false} Protected(packet0: seq<byte>, pnOffset: nat, mask: seq<byte>)
    requires 0 < pnOffset && pnOffset + 20 <= |packet0| && |mask| == 16
    requires packet0[0] == 0xC0 && packet0[pnOffset] == 0
    ensures var packet := Protect(packet0, pnOffset, mask);
      && packet[0] == 0xC0 + mask[0] % 16 && packet[1..pnOffset] == packet0[1..pnOffset]
      && packet[pnOffset + 1..] == packet0[pnOffset + 1..] && Sample(packet, pnOffset) == Sample(packet0, pnOffset)
      && Xor(packet[0], mask[0] % 16) == 0xC0 && Xor(packet[pnOffset], mask[1]) == 0
  {
    XorLowHalf(12, mask[0] % 16);
    XorByteTwice(0xC0, mask[0] % 16);
    XorByteTwice(0, mask[1]);
  }

  /** The layout of the unprotected part, as far as the parser reads it. */
  lemma {:induction false} HeaderParses(packet: seq<byte>, dcid: seq<byte>, scid: seq<byte>, length: nat, pnOffset: nat)
    requires |dcid| == |scid| == ID_LEN && length < VARINT_LIMIT && pnOffset == PREFIX_LEN + VarintLen(length)
    requires |packet| == pnOffset + length && length > 0
    requires 0xC0 <= packet[0] < 0xD0
    requires packet[1..pnOffset] == (Prefix(dcid, scid) + Varint(length))[1..]
    ensures ParseHeader(packet) == Some(InitialHeader(dcid, pnOffset, length))
  {
    var head := Prefix(dcid, scid) + Varint(length);
    forall i | 1 <= i < pnOffset ensures packet[i] == head[i] {
      assert packet[1..pnOffset][i - 1] == head[1..][i - 1];
    }
    assert packet[1..5] == [0, 0, 0, 1];
    assert packet[6..14] == dcid && packet[5] == 8 && packet[14] == 8 && packet[23] == 0;
    var t := packet[23..];
    assert t[0] == 0 && t[1..1] == [];
    assert VarintParse(t) == Some((0, 1));
    assert packet[24..] == Varint(length) + packet[pnOffset..];
    VarintRoundTrip(length, packet[pnOffset..]);
  }

  /** Parsing and decrypting a probe returns its connection id and exactly the
      ClientHello that was put in. */
  lemma {:induction false} ProbeRoundTrip(c: Crypto, dcid: seq<byte>, scid: seq<byte>, hello: seq<byte>)
    requires Fits(hello) && ValidCrypto(c) && |dcid| == |scid| == ID_LEN && |hello| >= 4
    ensures BuildProbe(c, dcid, scid, hello).Some?
    ensures ParseInitial(c, BuildProbe(c, dcid, scid, hello).value) == Some((dcid, hello))
  {
    ProbeSize(c, dcid, scid, hello);
    LengthFits(hello);
    var header, payload := Header(dcid, scid, hello), Payload(hello);
    var sealed := c.seal(dcid, 0, payload, header);
    var packet0, pnOffset := header + sealed, |header| - 1;
    var length := 1 + |payload| + AEAD_OVERHEAD;
    assert packet0[0] == 0xC0 && packet0[pnOffset] == 0;
    var mask := c.mask(dcid, Sample(packet0, pnOffset));
    var packet := Protect(packet0, pnOffset, mask);
    Protected(packet0, pnOffset, mask);
    assert packet0[1..pnOffset] == (Prefix(dcid, scid) + Varint(length))[1..];
    HeaderParses(packet, dcid, scid, length, pnOffset);
    var h := InitialHeader(dcid, pnOffset, length);
    DecryptsTo(c, packet, h, header, payload, mask);
    ExtractFrame(hello, PadLen(|CryptoFrame(hello)|));
  }

  lemma {:induction false} DecryptsTo(c: Crypto, packet: seq<byte>, h: InitialHeader, header: seq<byte>, payload: seq<byte>, mask: seq<byte>)
    requires ValidCrypto(c) && |header| == h.pnOffset + 1 && header[0] == 0xC0 && header[h.pnOffset] == 0
    requires h.pnOffset > 0 && h.length == 1 + |payload| + AEAD_OVERHEAD && |packet| == h.pnOffset + h.length
    requires h.pnOffset + 20 <= |packet| && mask == c.mask(h.dcid, Sample(packet, h.pnOffset))
    requires Xor(packet[0], mask[0] % 16) == 0xC0 && Xor(packet[h.pnOffset], mask[1]) == 0
    requires packet[1..h.pnOffset] == header[1..h.pnOffset]
    requires packet[h.pnOffset + 1..] == c.seal(h.dcid, 0, payload, header)
    ensures Decrypt(c, packet, h) == Some(payload)
  {
    var pn := seq(1, i requires 0 <= i < 1 => Xor(packet[h.pnOffset + i], mask[1 + i]));
    assert pn == [0];
    assert PacketNumber([0]) == 0 by { assert [0][..0] == []; }
    assert [0xC0] + packet[1..h.pnOffset] + [0] == header;
    assert packet[h.pnOffset + 1..h.pnOffset + h.length] == packet[h.pnOffset + 1..];
  }
}
