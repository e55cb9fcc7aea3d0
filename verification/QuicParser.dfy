/** What the parser of `core/protocol/quic/initial.go` accepts, for packets of any
    client: the Initial headers (section 17.2.2 of RFC 9000) it reads, and the frames
    it gets a ClientHello out of. */
module QuicParser {
  import opened Addresses
  import opened Bytes
  import opened Powers
  import opened QuicInitial
  import opened Wrappers

  // ---- Numbers ------------------------------------------------------------

  lemma {:induction false} BigEndianValue(v: nat, n: nat)
    requires v < Pow(256, n)
    ensures Value(BigEndian(v, n)) == v
  {
    if n == 0 {
    } else {
      BigEndianValue(v / 256, n - 1);
      assert BigEndian(v, n)[..n - 1] == BigEndian(v / 256, n - 1);
    }
  }

  /** A varint is its value as a big-endian number, with the length in the top two
      bits of the first byte. */
  lemma {:induction false} VarintValue(v: nat)
    requires v < VARINT_LIMIT
    ensures Value(Varint(v)) == v + (
      if v < 64 then 0 else if v < 0x4000 then 0x4000 else if v < 0x4000_0000 then 0x8000_0000
      else 0xC000_0000_0000_0000)
  {
    var n := VarintLen(v);
    FitsLength(v);
    BigEndianValue(v, n);
    TopByte(v, n);
    TopBits(BigEndian(v, n), LengthBits(n));
    SmallPowers();
    assert Pow(256, 0) == 1;
  }

  lemma {:induction false} TopBits(s: seq<byte>, b: nat)
    requires s != [] && s[0] + 64 * b < 256
    ensures Value(s[0 := s[0] + 64 * b]) == Value(s) + 64 * b * Pow(256, |s| - 1)
  {
    var x, rest := s[0], s[1..];
    assert s == [x] + rest && s[0 := x + 64 * b] == [x + 64 * b] + rest;
    FirstByteValue(x, rest);
    FirstByteValue(x + 64 * b, rest);
    AddLeft(x, 64 * b, Pow(256, |rest|));
  }

  lemma {:induction false} FirstByteValue(x: byte, s: seq<byte>)
    ensures Value([x] + s) == x as int * Pow(256, |s|) + Value(s)
  {
    ValueOfConcat([x], s);
    assert [x][..0] == [] && Value([x]) == x as int;
  }

  lemma {:induction false} NumberIs(s: seq<byte>)
    ensures PacketNumber(s) == Value(s)
  {
    if s == [] {
    } else {
      NumberIs(s[..|s| - 1]);
    }
  }

  /** The bytes are one varint, in any of its lengths. */
  ghost predicate IsVarint(s: seq<byte>, v: nat) {
    VarintParse(s) == Some((v, |s|))
  }

  /** The first bytes decide, and what follows is left alone. */
  lemma {:induction false} VarintThen(s: seq<byte>, v: nat, tail: seq<byte>)
    requires IsVarint(s, v)
    ensures VarintParse(s + tail) == Some((v, |s|)) && (s + tail)[|s|..] == tail
  {
    assert (s + tail)[1..|s|] == s[1..|s|];
  }

  lemma {:induction false} VarintFound(b: seq<byte>)
    requires VarintParse(b).Some?
    ensures var (v, n) := VarintParse(b).value;
      IsVarint(b[..n], v) && b[..n] + b[n..] == b
  {
    var n := VarintParse(b).value.1;
    assert b[..n][1..n] == b[1..n];
  }

  // ---- Headers ------------------------------------------------------------

  /** A version 1 Initial header in its parts; `tokenLen` and `len` are the varints
      in front of the token and of the protected rest. */
  datatype Parts = Parts(first: byte, dcid: seq<byte>, scid: seq<byte>, tokenLen: seq<byte>, token: seq<byte>,
                         len: seq<byte>, length: nat)

  ghost predicate ValidParts(h: Parts) {
    && 0xC0 <= h.first < 0xD0 && |h.dcid| < 256 && |h.scid| < 256
    && IsVarint(h.tokenLen, |h.token|) && IsVarint(h.len, h.length)
  }

  ghost function Ids(h: Parts): seq<byte>
    requires |h.dcid| < 256 && |h.scid| < 256
  {
    [h.first, 0, 0, 0, 1] + [|h.dcid|] + h.dcid + [|h.scid|] + h.scid
  }

  ghost function Encoded(h: Parts): seq<byte>
    requires |h.dcid| < 256 && |h.scid| < 256
  {
    Ids(h) + (h.tokenLen + h.token) + h.len
  }

  lemma {:induction false} IdsRead(h: Parts, tail: seq<byte>)
    requires |h.dcid| < 256 && |h.scid| < 256
    ensures var packet := Ids(h) + tail;
      && |packet| >= 7 && packet[0] == h.first && packet[1..5] == [0, 0, 0, 1]
      && packet[5] == |h.dcid| && packet[6..6 + |h.dcid|] == h.dcid && packet[6 + |h.dcid|] == |h.scid|
      && 7 + |h.dcid| + |h.scid| == |Ids(h)| && packet[|Ids(h)|..] == tail
  {
  }

  /** What the parser reads in a packet, by the lengths of the parts. */
  ghost predicate ReadsAs(packet: seq<byte>, d: nat, s: nat, t: nat, n: nat, length: nat, m: nat) {
    && |packet| >= 7 + d + s + n + t + m && 0xC0 <= packet[0] < 0xD0 && packet[1..5] == [0, 0, 0, 1]
    && packet[5] == d && packet[6 + d] == s
    && VarintParse(packet[7 + d + s..]) == Some((t, n))
    && VarintParse(packet[7 + d + s + n + t..]) == Some((length, m))
  }

  lemma {:induction false} ReadAt(packet: seq<byte>, d: nat, s: nat, t: nat, n: nat, length: nat, m: nat,
                                  dcid: seq<byte>, at: nat, left: nat)
    requires ReadsAs(packet, d, s, t, n, length, m)
    requires at == 7 + d + s + n + t + m && left == |packet| - at && dcid == packet[6..6 + d]
    ensures ParseHeader(packet) == if length <= left then Some(InitialHeader(dcid, at, length)) else None
  {
  }

  lemma {:induction false} EncodedReads(h: Parts, rest: seq<byte>)
    requires ValidParts(h)
    ensures var packet := Encoded(h) + rest;
      && ReadsAs(packet, |h.dcid|, |h.scid|, |h.token|, |h.tokenLen|, h.length, |h.len|)
      && packet[6..6 + |h.dcid|] == h.dcid && |Encoded(h)| == |Ids(h)| + |h.tokenLen| + |h.token| + |h.len|
      && |Ids(h)| == 7 + |h.dcid| + |h.scid|
  {
    var ids, tl := Ids(h), h.tokenLen + h.token;
    var behind := h.len + rest;
    Associate(ids + tl, h.len, rest);
    Associate(ids, tl, behind);
    IdsRead(h, tl + behind);
    Associate(h.tokenLen, h.token, behind);
    VarintThen(h.tokenLen, |h.token|, h.token + behind);
    Behind(ids + tl, behind);
    VarintThen(h.len, h.length, rest);
  }

  lemma {:induction false} Behind(a: seq<byte>, b: seq<byte>)
    ensures (a + b)[|a|..] == b
  {
  }

  /** Every such header is read, provided that the rest is as long as it says. */
  lemma {:induction false} HeaderRead(h: Parts, rest: seq<byte>)
    requires ValidParts(h)
    ensures ParseHeader(Encoded(h) + rest) ==
            if h.length <= |rest| then Some(InitialHeader(h.dcid, |Encoded(h)|, h.length)) else None
  {
    EncodedReads(h, rest);
    ReadAt(Encoded(h) + rest, |h.dcid|, |h.scid|, |h.token|, |h.tokenLen|, h.length, |h.len|,
           h.dcid, |Encoded(h)|, |rest|);
  }

  lemma {:induction false} HeaderPieces(packet: seq<byte>) returns (d: nat, s: nat, t: nat, n: nat, length: nat, m: nat)
    requires ParseHeader(packet).Some?
    ensures d < 256 && s < 256 && ReadsAs(packet, d, s, t, n, length, m)
    ensures 7 + d + s + n + t + m + length <= |packet|
  {
    d, s := packet[5], packet[6 + packet[5] as int];
    t, n := VarintParse(packet[7 + d + s..]).value.0, VarintParse(packet[7 + d + s..]).value.1;
    var q := 7 + d + s + n + t;
    length, m := VarintParse(packet[q..]).value.0, VarintParse(packet[q..]).value.1;
  }

  lemma {:induction false} VarintAt(packet: seq<byte>, p: nat, v: nat, n: nat)
    requires p + n <= |packet| && VarintParse(packet[p..]) == Some((v, n))
    ensures IsVarint(packet[p..p + n], v)
  {
    VarintFound(packet[p..]);
    assert packet[p..][..n] == packet[p..p + n];
  }

  lemma {:induction false} Cuts(s: seq<byte>, a: nat, b: nat, c: nat, d: nat)
    requires a <= b <= c <= d <= |s|
    ensures s == s[..a] + (s[a..b] + s[b..c]) + s[c..d] + s[d..]
  {
  }

  /** And nothing else is. */
  lemma {:induction false} OnlyHeaders(packet: seq<byte>) returns (h: Parts, rest: seq<byte>)
    requires ParseHeader(packet).Some?
    ensures ValidParts(h) && packet == Encoded(h) + rest && h.length <= |rest|
  {
    var d, s, t, n, length, m := HeaderPieces(packet);
    h, rest := PartsAt(packet, d, s, t, n, length, m), packet[7 + d + s + n + t + m..];
    PartsValid(packet, d, s, t, n, length, m);
    PartsJoin(packet, d, s, t, n, length, m);
  }

  ghost function PartsAt(packet: seq<byte>, d: nat, s: nat, t: nat, n: nat, length: nat, m: nat): Parts
    requires |packet| >= 7 + d + s + n + t + m
  {
    var p, q := 7 + d + s, 7 + d + s + n + t;
    Parts(packet[0], packet[6..6 + d], packet[7 + d..p], packet[p..p + n], packet[p + n..q], packet[q..q + m], length)
  }

  lemma {:induction false} PartsValid(packet: seq<byte>, d: nat, s: nat, t: nat, n: nat, length: nat, m: nat)
    requires d < 256 && s < 256 && ReadsAs(packet, d, s, t, n, length, m)
    ensures ValidParts(PartsAt(packet, d, s, t, n, length, m))
  {
    VarintAt(packet, 7 + d + s, t, n);
    VarintAt(packet, 7 + d + s + n + t, length, m);
  }

  lemma {:induction false} PartsJoin(packet: seq<byte>, d: nat, s: nat, t: nat, n: nat, length: nat, m: nat)
    requires d < 256 && s < 256 && |packet| >= 7 + d + s + n + t + m
    requires packet[1..5] == [0, 0, 0, 1] && packet[5] == d && packet[6 + d] == s
    ensures packet == Encoded(PartsAt(packet, d, s, t, n, length, m)) + packet[7 + d + s + n + t + m..]
  {
    var p, q := 7 + d + s, 7 + d + s + n + t;
    IdsAt(packet, d, s, t, n, length, m);
    Cuts(packet, p, p + n, q, q + m);
  }

  lemma {:induction false} IdsAt(packet: seq<byte>, d: nat, s: nat, t: nat, n: nat, length: nat, m: nat)
    requires d < 256 && s < 256 && |packet| >= 7 + d + s + n + t + m
    requires packet[1..5] == [0, 0, 0, 1] && packet[5] == d && packet[6 + d] == s
    ensures Ids(PartsAt(packet, d, s, t, n, length, m)) == packet[..7 + d + s]
  {
    IdsBack(packet, d, s);
  }

  lemma {:induction false} IdsBack(packet: seq<byte>, d: nat, s: nat)
    requires d < 256 && s < 256 && 7 + d + s <= |packet|
    requires packet[1..5] == [0, 0, 0, 1] && packet[5] == d && packet[6 + d] == s
    ensures [packet[0], 0, 0, 0, 1] + [d] + packet[6..6 + d] + [s] + packet[7 + d..7 + d + s] == packet[..7 + d + s]
  {
    assert packet[1] == packet[1..5][0] && packet[2] == packet[1..5][1];
    assert packet[3] == packet[1..5][2] && packet[4] == packet[1..5][3];
  }

  // ---- Frames -------------------------------------------------------------

  /** The frames the parser knows; a CRYPTO frame has its offset, which the parser
      does not look at, and its length as varints. */
  datatype Frame = Padding | Crypto(offset: seq<byte>, len: seq<byte>, data: seq<byte>)

  ghost predicate ValidFrame(f: Frame) {
    f.Padding? || ((exists v :: IsVarint(f.offset, v)) && IsVarint(f.len, |f.data|))
  }

  ghost predicate ValidFrames(fs: seq<Frame>) {
    forall i :: 0 <= i < |fs| ==> ValidFrame(fs[i])
  }

  function EncodeFrame(f: Frame): seq<byte> {
    match f
    case Padding => [0x00]
    case Crypto(offset, len, data) => [0x06] + (offset + (len + data))
  }

  function EncodeFrames(fs: seq<Frame>): seq<byte> {
    if fs == [] then [] else EncodeFrame(fs[0]) + EncodeFrames(fs[1..])
  }

  /** The data of all CRYPTO frames, in the order they stand in. */
  function DataOf(fs: seq<Frame>): seq<byte> {
    if fs == [] then [] else Own(fs[0]) + DataOf(fs[1..])
  }

  function Own(f: Frame): seq<byte> {
    if f.Padding? then [] else f.data
  }

  lemma {:induction false} FrameRead(f: Frame, tail: seq<byte>, data: seq<byte>)
    requires ValidFrame(f)
    ensures Extract(EncodeFrame(f) + tail, data) == Extract(tail, data + Own(f))
  {
    if f.Padding? {
      assert ([0x00] + tail)[1..] == tail && data + [] == data;
    } else {
      CryptoRead(f, tail, data);
    }
  }

  lemma {:induction false} CryptoRead(f: Frame, tail: seq<byte>, data: seq<byte>)
    requires f.Crypto? && ValidFrame(f)
    ensures Extract(EncodeFrame(f) + tail, data) == Extract(tail, data + f.data)
  {
    var v :| IsVarint(f.offset, v);
    var all := EncodeFrame(f) + tail;
    assert all[1..] == f.offset + (f.len + (f.data + tail));
    VarintThen(f.offset, v, f.len + (f.data + tail));
    VarintThen(f.len, |f.data|, f.data + tail);
    assert (f.data + tail)[..|f.data|] == f.data && (f.data + tail)[|f.data|..] == tail;
  }

  /** Padding is skipped and CRYPTO data put together in order; less than four bytes
      of it are no hello. */
  lemma {:induction false} FramesRead(fs: seq<Frame>, data: seq<byte>)
    requires ValidFrames(fs)
    ensures var all := data + DataOf(fs);
      Extract(EncodeFrames(fs), data) == if |all| >= 4 then Some(all) else None
    decreases |fs|
  {
    if fs == [] {
      assert data + DataOf(fs) == data;
    } else {
      FrameRead(fs[0], EncodeFrames(fs[1..]), data);
      FramesRead(fs[1..], data + Own(fs[0]));
      Associate(data, Own(fs[0]), DataOf(fs[1..]));
    }
  }

  /** Nothing else is accepted. */
  lemma {:induction false} OnlyFrames(payload: seq<byte>, data: seq<byte>) returns (fs: seq<Frame>)
    requires Extract(payload, data).Some?
    ensures ValidFrames(fs) && EncodeFrames(fs) == payload
    decreases |payload|
  {
    if payload == [] {
      fs := [];
    } else {
      var f, tail, more := FirstFrame(payload, data);
      var others := OnlyFrames(tail, more);
      fs := [f] + others;
      assert fs[1..] == others;
    }
  }

  lemma {:induction false} FirstFrame(payload: seq<byte>, data: seq<byte>)
    returns (f: Frame, tail: seq<byte>, more: seq<byte>)
    requires payload != [] && Extract(payload, data).Some?
    ensures ValidFrame(f) && payload == EncodeFrame(f) + tail && |tail| < |payload|
    ensures Extract(tail, more) == Extract(payload, data)
  {
    if payload[0] == FRAME_PADDING {
      f, tail, more := Padding, payload[1..], data;
    } else {
      var v, m, size, n := CryptoParts(payload, data);
      f, tail := AsFrame(payload, v, m, size, n);
      more := data + payload[1..][m..][n..][..size];
    }
  }

  lemma {:induction false} AsFrame(payload: seq<byte>, v: nat, m: nat, size: nat, n: nat) returns (f: Frame, tail: seq<byte>)
    requires payload != [] && payload[0] == 0x06 && 1 + m + n + size <= |payload|
    requires IsVarint(payload[1..][..m], v) && IsVarint(payload[1..][m..][..n], size)
    ensures ValidFrame(f) && payload == EncodeFrame(f) + tail && tail == payload[1..][m..][n..][size..] && |tail| < |payload|
  {
    var a := payload[1..];
    var b := a[m..];
    var c := b[n..];
    f, tail := Frame.Crypto(a[..m], b[..n], c[..size]), c[size..];
    assert IsVarint(f.offset, v);
    Nested(a, m, n, size);
    assert payload == [0x06] + a;
  }

  lemma {:induction false} Nested(a: seq<byte>, m: nat, n: nat, size: nat)
    requires m + n + size <= |a|
    ensures var b := a[m..]; var c := b[n..];
      [0x06] + a == [0x06] + (a[..m] + (b[..n] + c[..size])) + c[size..]
  {
    var b := a[m..];
    var c := b[n..];
    assert a == a[..m] + b && b == b[..n] + c && c == c[..size] + c[size..];
    Associate(b[..n], c[..size], c[size..]);
    Associate(a[..m], b[..n] + c[..size], c[size..]);
    Associate([0x06], a[..m] + (b[..n] + c[..size]), c[size..]);
  }

  lemma {:induction false} CryptoParts(payload: seq<byte>, data: seq<byte>) returns (v: nat, m: nat, size: nat, n: nat)
    requires payload != [] && payload[0] != FRAME_PADDING && Extract(payload, data).Some?
    ensures payload[0] == 0x06 && 1 + m + n + size <= |payload| && m > 0
    ensures var a := payload[1..]; var b := a[m..]; var c := b[n..];
      && IsVarint(a[..m], v) && IsVarint(b[..n], size)
      && Extract(c[size..], data + c[..size]) == Extract(payload, data)
  {
    var a := payload[1..];
    VarintFound(a);
    v, m := VarintParse(a).value.0, VarintParse(a).value.1;
    var b := a[m..];
    VarintFound(b);
    size, n := VarintParse(b).value.0, VarintParse(b).value.1;
  }

  // ---- Whole packets ------------------------------------------------------

  /** Header protection (section 5.4.1 of RFC 9001): the low half of the first byte
      and the `k` bytes of the packet number at `at` are masked, and no other. */
  ghost predicate Shielded(sent: seq<byte>, plain: seq<byte>, at: nat, k: nat, mask: seq<byte>)
    requires 0 < at && at + k <= |plain| && k < |mask|
  {
    && Alike(sent, plain, at, k) && sent[0] == Xor(plain[0], mask[0] % 16)
    && (forall j :: at <= j < at + k ==> sent[j] == Xor(plain[j], mask[1 + j - at]))
  }

  ghost predicate Alike(sent: seq<byte>, plain: seq<byte>, at: nat, k: nat)
    requires 0 < at && at + k <= |plain|
  {
    |sent| == |plain| && forall j :: 0 < j < |plain| && !(at <= j < at + k) ==> sent[j] == plain[j]
  }

  /** One call of the decryption, for the bytes that come out from under the mask. */
  lemma {:induction false} DecryptOpens(c: Crypto, sent: seq<byte>, h: InitialHeader, mask: seq<byte>, first: byte, pn: seq<byte>)
    requires ValidCrypto(c) && 0 < h.pnOffset && h.pnOffset + h.length <= |sent| && h.pnOffset + 20 <= |sent|
    requires mask == c.mask(h.dcid, sent[h.pnOffset + 4..h.pnOffset + 20])
    requires first == Xor(sent[0], mask[0] % 16) && |pn| == first % 4 + 1 <= h.length
    requires forall i :: 0 <= i < |pn| ==> pn[i] == Xor(sent[h.pnOffset + i], mask[1 + i])
    ensures Decrypt(c, sent, h) ==
            c.open(h.dcid, PacketNumber(pn), sent[h.pnOffset + |pn|..h.pnOffset + h.length], [first] + sent[1..h.pnOffset] + pn)
  {
    assert pn == seq(|pn|, i requires 0 <= i < |pn| => Xor(sent[h.pnOffset + i], mask[1 + i]));
  }

  lemma {:induction false} DecryptGives(c: Crypto, sent: seq<byte>, h: InitialHeader, mask: seq<byte>, first: byte, pn: seq<byte>,
                                        text: seq<byte>)
    requires ValidCrypto(c) && 0 < h.pnOffset && h.pnOffset + h.length <= |sent| && h.pnOffset + 20 <= |sent|
    requires mask == c.mask(h.dcid, sent[h.pnOffset + 4..h.pnOffset + 20])
    requires first == Xor(sent[0], mask[0] % 16) && |pn| == first % 4 + 1 <= h.length
    requires forall i :: 0 <= i < |pn| ==> pn[i] == Xor(sent[h.pnOffset + i], mask[1 + i])
    requires c.open(h.dcid, PacketNumber(pn), sent[h.pnOffset + |pn|..h.pnOffset + h.length], [first] + sent[1..h.pnOffset] + pn)
             == Some(text)
    ensures Decrypt(c, sent, h) == Some(text)
  {
    DecryptOpens(c, sent, h, mask, first, pn);
  }

  /** The packet is sealed for its header and then protected, with the mask made from
      the sixteen bytes that begin four behind the packet number. */
  ghost predicate Sealed(c: Crypto, plain: seq<byte>, sent: seq<byte>, h: InitialHeader, text: seq<byte>) {
    && ValidCrypto(c) && 0 < h.pnOffset && h.pnOffset + h.length <= |plain| && h.pnOffset + 20 <= |plain|
    && var k := plain[0] % 4 + 1;
    && k <= h.length
    && Shielded(sent, plain, h.pnOffset, k, c.mask(h.dcid, plain[h.pnOffset + 4..h.pnOffset + 20]))
    && SealedText(c, plain, h, k, text)
  }

  ghost predicate SealedText(c: Crypto, plain: seq<byte>, h: InitialHeader, k: nat, text: seq<byte>)
    requires k <= h.length && h.pnOffset + h.length <= |plain|
  {
    plain[h.pnOffset + k..h.pnOffset + h.length] ==
    c.seal(h.dcid, Value(plain[h.pnOffset..h.pnOffset + k]), text, plain[..h.pnOffset + k])
  }

  /** Such a packet is opened. */
  lemma {:induction false} DecryptAny(c: Crypto, plain: seq<byte>, sent: seq<byte>, h: InitialHeader, text: seq<byte>)
    requires Sealed(c, plain, sent, h, text)
    ensures Decrypt(c, sent, h) == Some(text)
  {
    var at, k := h.pnOffset, plain[0] % 4 + 1;
    var mask := c.mask(h.dcid, plain[at + 4..at + 20]);
    SampleAlike(sent, plain, at, k);
    Unshield(sent, plain, at, k, mask, plain[at..at + k]);
    OpenAlike(c, plain, sent, h, k, text);
    DecryptGives(c, sent, h, mask, plain[0], plain[at..at + k], text);
  }

  lemma {:induction false} SampleAlike(sent: seq<byte>, plain: seq<byte>, at: nat, k: nat)
    requires 0 < at && k <= 4 && at + 20 <= |plain| && Alike(sent, plain, at, k)
    ensures sent[at + 4..at + 20] == plain[at + 4..at + 20]
  {
  }

  lemma {:induction false} OpenAlike(c: Crypto, plain: seq<byte>, sent: seq<byte>, h: InitialHeader, k: nat, text: seq<byte>)
    requires ValidCrypto(c) && 0 < h.pnOffset && k <= h.length && h.pnOffset + h.length <= |plain|
    requires Alike(sent, plain, h.pnOffset, k) && SealedText(c, plain, h, k, text)
    ensures var pn := plain[h.pnOffset..h.pnOffset + k];
      c.open(h.dcid, PacketNumber(pn), sent[h.pnOffset + k..h.pnOffset + h.length], [plain[0]] + sent[1..h.pnOffset] + pn)
      == Some(text)
  {
    var at := h.pnOffset;
    NumberIs(plain[at..at + k]);
    assert sent[at + k..at + h.length] == plain[at + k..at + h.length];
    assert sent[1..at] == plain[1..at];
    assert plain[..at + k] == [plain[0]] + plain[1..at] + plain[at..at + k];
  }

  lemma {:induction false} Unshield(sent: seq<byte>, plain: seq<byte>, at: nat, k: nat, mask: seq<byte>, pn: seq<byte>)
    requires 0 < at && at + k <= |plain| && k < |mask| && Shielded(sent, plain, at, k, mask)
    requires pn == plain[at..at + k]
    ensures plain[0] == Xor(sent[0], mask[0] % 16)
    ensures forall i :: 0 <= i < k ==> pn[i] == Xor(sent[at + i], mask[1 + i])
  {
    XorByteTwice(plain[0], mask[0] % 16);
    forall i | 0 <= i < k ensures pn[i] == Xor(sent[at + i], mask[1 + i]) {
      var j := at + i;
      assert sent[j] == Xor(plain[j], mask[1 + j - at]);
      XorByteTwice(plain[j], mask[1 + i]);
    }
  }

  /** Masking the low half of a byte keeps the upper half. */
  lemma {:induction false} XorKeepsHigh(x: nat, b: nat, k: nat, n: nat)
    requires k <= n && x < Pow(2, n) && b < Pow(2, k)
    ensures Pow(2, k) > 0 && XorBits(x, b, n) / Pow(2, k) == x / Pow(2, k)
  {
    PowPositive(2, k);
    if k == 0 {
      XorZero(x, n);
    } else {
      XorKeepsHigh(x / 2, b / 2, k - 1, n - 1);
      var y := XorBits(x, b, n);
      assert y / 2 == XorBits(x / 2, b / 2, n - 1);
      HalfThen(x, Pow(2, k - 1));
      HalfThen(y, Pow(2, k - 1));
    }
  }

  lemma {:induction false} HalfThen(x: nat, w: nat)
    requires w > 0
    ensures x / 2 / w == x / (2 * w)
  {
    var q, r := Divide(x / 2, w);
    QuotientIs(x, q, 2 * r + x % 2, 2 * w);
  }

  /** The packet before protection, with whatever comes behind it in the datagram. */
  ghost function Plain(c: Crypto, h: Parts, pn: seq<byte>, text: seq<byte>, rest: seq<byte>): seq<byte>
    requires ValidParts(h)
  {
    Encoded(h) + pn + c.seal(h.dcid, Value(pn), text, Encoded(h) + pn) + rest
  }

  ghost predicate Sends(c: Crypto, h: Parts, pn: seq<byte>, text: seq<byte>, rest: seq<byte>, sent: seq<byte>)
    requires ValidCrypto(c) && ValidParts(h)
  {
    var at, plain := |Encoded(h)|, Plain(c, h, pn, text, rest);
    && |pn| == h.first % 4 + 1 && h.length == |pn| + |text| + AEAD_OVERHEAD && at + 20 <= |plain|
    && Shielded(sent, plain, at, |pn|, c.mask(h.dcid, plain[at + 4..at + 20]))
  }

  /** Any client's Initial packet, with any connection ids, token, length of the packet
      number and frames, and with other packets behind it: the parser gets the
      connection id and the data of the CRYPTO frames. */
  lemma {:induction false} InitialParsed(c: Crypto, h: Parts, pn: seq<byte>, frames: seq<Frame>, rest: seq<byte>, sent: seq<byte>)
    requires ValidCrypto(c) && ValidParts(h) && ValidFrames(frames) && Sends(c, h, pn, EncodeFrames(frames), rest, sent)
    ensures ParseInitial(c, sent) == if |DataOf(frames)| >= 4 then Some((h.dcid, DataOf(frames))) else None
  {
    var head := InitialHeader(h.dcid, |Encoded(h)|, h.length);
    HeaderSent(c, h, pn, EncodeFrames(frames), rest, sent);
    SealedSent(c, h, pn, EncodeFrames(frames), rest, sent);
    DecryptAny(c, Plain(c, h, pn, EncodeFrames(frames), rest), sent, head, EncodeFrames(frames));
    FramesRead(frames, []);
    assert [] + DataOf(frames) == DataOf(frames);
  }

  lemma {:induction false} HeaderSent(c: Crypto, h: Parts, pn: seq<byte>, text: seq<byte>, rest: seq<byte>, sent: seq<byte>)
    requires ValidCrypto(c) && ValidParts(h) && Sends(c, h, pn, text, rest, sent)
    ensures ParseHeader(sent) == Some(InitialHeader(h.dcid, |Encoded(h)|, h.length))
  {
    var sealed := c.seal(h.dcid, Value(pn), text, Encoded(h) + pn);
    Slices(Encoded(h), pn, sealed, rest);
    var plain, at := Plain(c, h, pn, text, rest), |Encoded(h)|;
    ShieldedHeader(h, pn + sealed + rest, plain, sent, |pn|, c.mask(h.dcid, plain[at + 4..at + 20]));
  }

  lemma {:induction false} SealedSent(c: Crypto, h: Parts, pn: seq<byte>, text: seq<byte>, rest: seq<byte>, sent: seq<byte>)
    requires ValidCrypto(c) && ValidParts(h) && Sends(c, h, pn, text, rest, sent)
    ensures Sealed(c, Plain(c, h, pn, text, rest), sent, InitialHeader(h.dcid, |Encoded(h)|, h.length), text)
  {
    var head := InitialHeader(h.dcid, |Encoded(h)|, h.length);
    TextSealed(c, h, pn, text, rest);
    assert SealedText(c, Plain(c, h, pn, text, rest), head, |pn|, text);
  }

  lemma {:induction false} TextSealed(c: Crypto, h: Parts, pn: seq<byte>, text: seq<byte>, rest: seq<byte>)
    requires ValidCrypto(c) && ValidParts(h) && h.length == |pn| + |text| + AEAD_OVERHEAD
    ensures var plain, head := Plain(c, h, pn, text, rest), InitialHeader(h.dcid, |Encoded(h)|, h.length);
      && head.pnOffset + head.length <= |plain| && head.pnOffset > 0 && plain[0] == h.first
      && SealedText(c, plain, head, |pn|, text)
  {
    var sealed := c.seal(h.dcid, Value(pn), text, Encoded(h) + pn);
    assert |sealed| == |text| + AEAD_OVERHEAD;
    assert Encoded(h)[0] == h.first;
    Slices(Encoded(h), pn, sealed, rest);
  }

  lemma {:induction false} Slices(a: seq<byte>, b: seq<byte>, c: seq<byte>, d: seq<byte>)
    ensures var all, n := a + b + c + d, |a| + |b|;
      && all == a + (b + c + d) && all[..n] == a + b && all[|a|..n] == b && all[n..n + |c|] == c
      && (a != [] ==> all[0] == a[0])
  {
  }

  lemma {:induction false} ShieldedHeader(h: Parts, body: seq<byte>, plain: seq<byte>, sent: seq<byte>, k: nat, mask: seq<byte>)
    requires ValidParts(h) && plain == Encoded(h) + body && |mask| == 16 && k < 16 && k <= |body| && h.length <= |body|
    requires Shielded(sent, plain, |Encoded(h)|, k, mask)
    ensures ParseHeader(sent) == Some(InitialHeader(h.dcid, |Encoded(h)|, h.length))
  {
    var at := |Encoded(h)|;
    FirstStays(h.first, mask[0] % 16);
    Shift(h, sent[0]);
    ShieldedFront(sent, plain, at, k, mask);
    HeaderRead(h.(first := sent[0]), sent[at..]);
  }

  lemma {:induction false} FirstStays(first: byte, b: byte)
    requires 0xC0 <= first < 0xD0 && b < 16
    ensures 0xC0 <= Xor(first, b) < 0xD0
  {
    SmallPowers();
    HighStays(first, b, 4, 8);
  }

  lemma {:induction false} HighStays(first: nat, b: nat, k: nat, n: nat)
    requires 0xC0 <= first < 0xD0 && b < 16 && k <= n && Pow(2, k) == 16 && Pow(2, n) == 256
    ensures 0xC0 <= XorBits(first, b, n) < 0xD0
  {
    XorKeepsHigh(first, b, k, n);
  }

  lemma {:induction false} Shift(h: Parts, first: byte)
    requires ValidParts(h) && 0xC0 <= first < 0xD0
    ensures var h' := h.(first := first);
      ValidParts(h') && |Encoded(h')| == |Encoded(h)| && Encoded(h') == [first] + Encoded(h)[1..]
  {
    var ids, ids' := Ids(h), Ids(h.(first := first));
    assert ids' == [first] + ids[1..];
    NewFirst(ids, first, h.tokenLen + h.token);
    NewFirst(ids + (h.tokenLen + h.token), first, h.len);
  }

  lemma {:induction false} NewFirst(a: seq<byte>, x: byte, b: seq<byte>)
    requires a != []
    ensures [x] + a[1..] + b == [x] + (a + b)[1..]
  {
    assert (a + b)[1..] == a[1..] + b;
  }

  lemma {:induction false} ShieldedFront(sent: seq<byte>, plain: seq<byte>, at: nat, k: nat, mask: seq<byte>)
    requires 0 < at && at + k <= |plain| && k < |mask| && Shielded(sent, plain, at, k, mask)
    ensures sent == [sent[0]] + plain[..at][1..] + sent[at..]
  {
    assert sent[1..at] == plain[..at][1..];
  }
}
