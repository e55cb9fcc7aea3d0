/** The sixteen-byte addresses of `common/split_tunnel`: their value as a number,
    the byte-wise successor and predecessor, byte-wise comparison, and the
    interval of a CIDR prefix. */
module Addresses {
  import opened Bytes
  import opened Powers
  import opened Wrappers

  /** Big-endian value. */
  function Value(s: seq<byte>): nat {
    if s == [] then 0 else Value(s[..|s| - 1]) * 256 + s[|s| - 1]
  }

  lemma {:induction false} ValueOfConcat(a: seq<byte>, b: seq<byte>)
    ensures Value(a + b) == Value(a) * Pow(256, |b|) + Value(b)
  {
    if b == [] {
      assert a + b == a;
    } else {
      var init := b[..|b| - 1];
      ValueOfConcat(a, init);
      assert (a + b)[..|a + b| - 1] == a + init;
      assert (a + b)[|a + b| - 1] == b[|b| - 1];
      calc {
        Value(a + b);
        Value(a + init) * 256 + b[|b| - 1];
        (Value(a) * Pow(256, |init|) + Value(init)) * 256 + b[|b| - 1];
        Value(a) * Pow(256, |b|) + Value(b);
      }
    }
  }

  lemma {:induction false} ValueBound(s: seq<byte>)
    ensures Value(s) < Pow(256, |s|)
  {
    if s == [] {
    } else {
      ValueBound(s[..|s| - 1]);
    }
  }

  lemma {:induction false} ValueOfRepeat(n: nat)
    ensures Value(seq(n, _ => 0)) == 0
    ensures Value(seq(n, _ => 255)) == Pow(256, n) - 1
  {
    if n == 0 {
    } else {
      ValueOfRepeat(n - 1);
      assert seq(n, _ => 0)[..n - 1] == seq(n - 1, _ => 0);
      assert seq(n, _ => 255)[..n - 1] == seq(n - 1, _ => 255);
    }
  }

  lemma {:induction false} ValueInjective(a: seq<byte>, b: seq<byte>)
    requires |a| == |b|
    ensures Value(a) == Value(b) <==> a == b
  {
    if a == [] {
    } else {
      var n := |a| - 1;
      ValueInjective(a[..n], b[..n]);
      assert a == a[..n] + [a[n]] && b == b[..n] + [b[n]];
      if Value(a) == Value(b) {
        SameBlock(Value(a[..n]), a[n], Value(b[..n]), b[n], 256);
      }
    }
  }

  /** The fixed-width numbers of the wire formats are big-endian values. */
  lemma {:induction false} WireNumbers(n: nat)
    ensures n < U16_LIMIT ==> Value(BE16(n)) == n && U16(BE16(n)) == n
    ensures n < U32_LIMIT ==> Value(BE32(n)) == n && U32(BE32(n)) == n
  {
    ValueOfPair(n / 256 % 256, n % 256);
    if n < U16_LIMIT {
      U16RoundTrip(n);
    }
    if n < U32_LIMIT {
      var h, l := n / 65536 % 65536, n % 65536;
      U32RoundTrip(n);
      ValueOfPair(h / 256 % 256, h % 256);
      ValueOfPair(l / 256 % 256, l % 256);
      ValueOfConcat(BE16(h), BE16(l));
      SmallPowers();
    }
  }

  lemma {:induction false} ValueOfPair(x: byte, y: byte)
    ensures Value([x, y]) == x as int * 256 + y as int
  {
    assert [x, y][..1] == [x] && [x][..0] == [];
    assert Value([x]) == x as int;
  }

  // ---- Comparison ---------------------------------------------------------

  /** `bytes.Compare(a, b) < 0` on equal lengths. */
  predicate LexLess(a: seq<byte>, b: seq<byte>)
    requires |a| == |b|
  {
    a != [] && (a[0] < b[0] || (a[0] == b[0] && LexLess(a[1..], b[1..])))
  }

  lemma {:induction false} LexLessIsLess(a: seq<byte>, b: seq<byte>)
    requires |a| == |b|
    ensures LexLess(a, b) <==> Value(a) < Value(b)
    ensures a == b <==> Value(a) == Value(b)
  {
    if a == [] {
    } else {
      var p := Pow(256, |a| - 1);
      assert a == [a[0]] + a[1..] && b == [b[0]] + b[1..];
      assert Value([a[0]]) == a[0] && Value([b[0]]) == b[0] by {
        assert [a[0]][..0] == [] && [b[0]][..0] == [];
      }
      ValueOfConcat([a[0]], a[1..]);
      ValueOfConcat([b[0]], b[1..]);
      ValueBound(a[1..]);
      ValueBound(b[1..]);
      LexLessIsLess(a[1..], b[1..]);
      LeadingDigit(a[0], b[0], Value(a[1..]), Value(b[1..]), p);
    }
  }

  lemma {:induction false} LeadingDigit(x: nat, y: nat, u: nat, v: nat, p: nat)
    requires u < p && v < p
    ensures x < y ==> x * p + u < y * p + v
    ensures y < x ==> y * p + v < x * p + u
  {
    if x < y {
      assert (x + 1) * p <= y * p;
    } else if y < x {
      assert (y + 1) * p <= x * p;
    }
  }

  // ---- Successor and predecessor ------------------------------------------

  lemma {:induction false} SplitAt(s: seq<byte>, i: nat)
    requires i < |s|
    ensures Value(s) == (Value(s[..i]) * 256 + s[i]) * Pow(256, |s| - i - 1) + Value(s[i + 1..])
  {
    var head, tail := s[..i + 1], s[i + 1..];
    assert head[..i] == s[..i] && head[i] == s[i];
    assert Value(head) == Value(s[..i]) * 256 + s[i];
    assert s == head + tail;
    ValueOfConcat(head, tail);
  }

  /** Carrying into digit `i` moves the value by one. */
  lemma {:induction false} OneApart(a: seq<byte>, b: seq<byte>, i: nat)
    requires i < |a| == |b| && a[..i] == b[..i] && b[i] as int == a[i] as int + 1
    requires a[i + 1..] == seq(|a| - i - 1, _ => 255) && b[i + 1..] == seq(|a| - i - 1, _ => 0)
    ensures Value(b) == Value(a) + 1
  {
    var p, h := Pow(256, |a| - i - 1), Value(a[..i]) * 256 + a[i];
    SplitAt(a, i);
    SplitAt(b, i);
    ValueOfRepeat(|a| - i - 1);
    AddOneTimes(h, p, Value(a), Value(b));
  }

  lemma {:induction false} AddOneTimes(h: nat, p: nat, u: nat, v: nat)
    requires u == h * p + (p - 1) && v == (h + 1) * p + 0
    ensures v == u + 1
  {
  }

  method IncAddr(a: seq<byte>) returns (r: seq<byte>, ok: bool)
    ensures |r| == |a|
    ensures ok <==> Value(a) + 1 < Pow(256, |a|)
    ensures ok ==> Value(r) == Value(a) + 1
    ensures !ok ==> Value(r) == 0
  {
    r := a;
    var i := |a|;
    while i > 0
      invariant 0 <= i <= |a| == |r| && r[..i] == a[..i]
      invariant a[i..] == seq(|a| - i, _ => 255) && r[i..] == seq(|a| - i, _ => 0)
    {
      i := i - 1;
      r := r[i := if r[i] == 255 then 0 else r[i] + 1];
      assert r[i + 1..] == seq(|a| - i - 1, _ => 0);
      assert a[..i + 1][i] == a[i] && a[..i + 1][..i] == a[..i];
      if r[i] != 0 {
        ValueBound(r);
        OneApart(a, r, i);
        return r, true;
      }
      assert a[i..] == [a[i]] + a[i + 1..];
      assert r[i..] == [r[i]] + r[i + 1..];
    }
    ValueOfRepeat(|a|);
    assert a[0..] == a && r[0..] == r;
    return r, false;
  }

  method DecAddr(a: seq<byte>) returns (r: seq<byte>)
    ensures |r| == |a|
    ensures Value(a) > 0 ==> Value(r) == Value(a) - 1
    ensures Value(a) == 0 ==> Value(r) == Pow(256, |a|) - 1
  {
    r := a;
    var i := |a|;
    while i > 0
      invariant 0 <= i <= |a| == |r| && r[..i] == a[..i]
      invariant a[i..] == seq(|a| - i, _ => 0) && r[i..] == seq(|a| - i, _ => 255)
    {
      i := i - 1;
      assert a[..i + 1][i] == a[i] && a[..i + 1][..i] == a[..i];
      if r[i] != 0 {
        r := r[i := r[i] - 1];
        assert r[i + 1..] == seq(|a| - i - 1, _ => 255);
        OneApart(r, a, i);
        return r;
      }
      r := r[i := 255];
      assert r[i + 1..] == seq(|a| - i - 1, _ => 255);
      assert a[i..] == [a[i]] + a[i + 1..];
      assert r[i..] == [r[i]] + r[i + 1..];
    }
    ValueOfRepeat(|a|);
    assert a[0..] == a && r[0..] == r;
  }

  // ---- CIDR prefixes ------------------------------------------------------

  /** `net.IPNet`: the address bytes, and the mask as `Mask.Size()` reports it. */
  datatype IPNet = IPNet(ip: seq<byte>, ones: nat, bits: nat)

  const V4_PREFIX: seq<byte> := [0, 0, 0, 0, 0, 0, 0, 0, 0, 0, 255, 255]

  function To16(ip: seq<byte>): Option<seq<byte>> {
    if |ip| == 4 then Some(V4_PREFIX + ip) else if |ip| == 16 then Some(ip) else None
  }

  /** `x |= 1 << b` on one byte. */
  function OrBit(x: byte, b: nat): byte
    requires b < 8
  {
    FitsByte(x, b);
    if x / Pow(2, b) % 2 == 0 then x + Pow(2, b) else x
  }

  lemma {:induction false} FitsByte(x: byte, b: nat)
    requires b < 8
    ensures Pow(2, b) > 0
    ensures x / Pow(2, b) % 2 == 0 ==> x as int + Pow(2, b) < 256
  {
    SmallPowers();
    if b == 0 {} else if b == 1 {} else if b == 2 {} else if b == 3 {}
    else if b == 4 {} else if b == 5 {} else if b == 6 {} else {}
  }

  /** The bits above and including `b` are those above `b`, and a one. */
  lemma {:induction false} OrBitSets(x: byte, b: nat)
    requires b < 8
    ensures Pow(2, b) > 0 && OrBit(x, b) / Pow(2, b) == 2 * (x / (2 * Pow(2, b))) + 1
  {
    FitsByte(x, b);
    OddQuotient(x, Pow(2, b));
  }

  lemma {:induction false} OddQuotient(x: int, w: int)
    requires w > 0
    ensures (if x / w % 2 == 0 then x + w else x) / w == 2 * (x / (2 * w)) + 1
  {
    NextQuotient(x, w);
    HalfQuotient(x, w);
  }

  // ---- Prefixes -----------------------------------------------------------

  function HostBits(ones: nat): nat {
    if ones >= 128 then 0 else 128 - ones
  }

  /** The number of addresses that share a prefix of `ones` bits. */
  function BlockSize(ones: nat): (size: nat)
    ensures size > 0
  {
    PowPositive(2, HostBits(ones));
    Pow(2, HostBits(ones))
  }

  /** The prefix match that a CIDR rule stands for: the first `ones` bits agree. */
  predicate InPrefix(addr: nat, ip: nat, ones: nat) {
    addr / BlockSize(ones) == ip / BlockSize(ones)
  }

  /** The host part of the address is zero, as `net.ParseCIDR` leaves it. */
  predicate Masked(ip: nat, ones: nat) {
    ip % BlockSize(ones) == 0
  }

  /** The last address with the prefix of `ip`. */
  function LastOf(ip: nat, ones: nat): nat {
    (ip / BlockSize(ones) + 1) * BlockSize(ones) - 1
  }

  /** From `ip` to the last address of its prefix lie exactly the addresses of that
      prefix from `ip` on, and for a masked address that is all of them. */
  lemma {:induction false} PrefixIsInterval(a: nat, ip: nat, ones: nat)
    ensures ip <= a <= LastOf(ip, ones) <==> ip <= a && InPrefix(a, ip, ones)
    ensures Masked(ip, ones) && InPrefix(a, ip, ones) ==> ip <= a
    ensures ip <= LastOf(ip, ones)
  {
    var size := BlockSize(ones);
    var q, r := Divide(ip, size);
    var d, t := Divide(a, size);
    AddOne(q, size);
    if d < q {
      Scale(d + 1, q, size);
      AddOne(d, size);
    } else if q < d {
      Scale(q + 1, d, size);
    }
  }

  // ---- Setting the host bits ----------------------------------------------

  /** The leading part of a number given by its digits, cut inside one digit. */
  lemma {:induction false} LeadingPart(h: nat, x: nat, c: nat, p: nat, w: nat, u: nat)
    requires c < p && w > 0 && u * w == 256
    ensures w * p > 0 && ((h * 256 + x) * p + c) / (w * p) == h * u + x / w
  {
    var m, r := Divide(x, w);
    AddLeft(h * 256, x, p);
    AddLeft(m * w, r, p);
    Reorder(m, w, p);
    Reorder(h, u * w, p);
    Reorder(u, w, p);
    Reorder(h, u, w * p);
    AddLeft(h * u, m, w * p);
    Scale(r, w - 1, p);
    AddOne(w - 1, p);
    QuotientIs((h * 256 + x) * p + c, h * u + m, r * p + c, w * p);
  }

  /** Setting a bit of one digit, seen from the digits above and below it. */
  lemma {:induction false} SetInDigit(h: nat, x: nat, y: nat, c: nat, p: nat, w: nat, u: nat, unit: nat)
    requires c < p && w > 0 && u * (2 * w) == 256 && y / w == 2 * (x / (2 * w)) + 1 && unit == w * p
    ensures unit > 0 && ((h * 256 + y) * p + c) / unit == 2 * (((h * 256 + x) * p + c) / (2 * unit)) + 1
  {
    Reorder(2, w, p);
    Reorder(u, 2, w);
    LeadingPart(h, y, c, p, w, u * 2);
    LeadingPart(h, x, c, p, 2 * w, u);
    Reorder(h, u, 2);
  }

  lemma {:induction false} BitWeights(j: nat, b: nat)
    requires j < 16 && b < 8
    ensures Pow(2, b) * Pow(256, 15 - j) == Pow(2, 8 * (15 - j) + b)
    ensures Pow(2, 7 - b) * (2 * Pow(2, b)) == 256
  {
    Pow256(15 - j);
    PowSum(2, b, 8 * (15 - j));
    PowSum(2, 7 - b, b + 1);
    SmallPowers();
  }

  /** Setting bit `b` of digit `j` appends a one to the bits above it. */
  lemma {:induction false} SetBit(s: seq<byte>, j: nat, b: nat)
    requires |s| == 16 && j < 16 && b < 8
    ensures var t, unit := s[j := OrBit(s[j], b)], Pow(2, 8 * (15 - j) + b);
      unit > 0 && Value(t) / unit == 2 * (Value(s) / (2 * unit)) + 1
  {
    var h, c := ChangeDigit(s, j, OrBit(s[j], b));
    OrBitSets(s[j], b);
    BitWeights(j, b);
    SetInDigit(h, s[j], OrBit(s[j], b), c, Pow(256, 15 - j), Pow(2, b), Pow(2, 7 - b), Pow(2, 8 * (15 - j) + b));
  }

  /** Changing one digit leaves the digits above and below it alone. */
  lemma {:induction false} ChangeDigit(s: seq<byte>, j: nat, y: byte) returns (h: nat, c: nat)
    requires |s| == 16 && j < 16
    ensures var p := Pow(256, 15 - j);
      c < p && Value(s) == (h * 256 + s[j]) * p + c && Value(s[j := y]) == (h * 256 + y) * p + c
  {
    var t := s[j := y];
    SplitAt(s, j);
    SplitAt(t, j);
    assert t[..j] == s[..j] && t[j + 1..] == s[j + 1..];
    ValueBound(s[j + 1..]);
    h, c := Value(s[..j]), Value(s[j + 1..]);
  }

  lemma {:induction false} OneMoreOne(q: int, p: int)
    ensures 2 * ((q + 1) * p - 1) + 1 == (q + 1) * (p * 2) - 1
  {
  }

  method FillHostBits(ip: seq<byte>, ones: nat) returns (hi: seq<byte>)
    requires |ip| == 16
    ensures |hi| == 16 && Value(hi) == LastOf(Value(ip), ones)
  {
    hi := ip;
    ghost var q := Value(ip) / BlockSize(ones);
    if ones < 128 {
      for i := ones to 128
        invariant |hi| == 16 && Pow(2, 128 - i) > 0
        invariant Value(hi) / Pow(2, 128 - i) == (q + 1) * Pow(2, i - ones) - 1
      {
        SetBit(hi, i / 8, 7 - i % 8);
        assert 8 * (15 - i / 8) + (7 - i % 8) == 127 - i;
        OneMoreOne(q, Pow(2, i - ones));
        assert Pow(2, 128 - i) == 2 * Pow(2, 127 - i) && Pow(2, i + 1 - ones) == Pow(2, i - ones) * 2;
        hi := hi[i / 8 := OrBit(hi[i / 8], 7 - i % 8)];
      }
    }
  }

  /** The mask length on sixteen bytes. */
  function Ones(network: IPNet): nat {
    if network.bits == 32 then network.ones + 96 else network.ones
  }

  /** The last of the addresses that agree with `lo` but in the last `host` bits. */
  predicate IsLast(hi: nat, lo: nat, host: nat) {
    PowPositive(2, host);
    hi == (lo / Pow(2, host) + 1) * Pow(2, host) - 1
  }

  /** `rangeOf`: from the address to the last one of its prefix. */
  method RangeOf(network: IPNet) returns (r: Option<(seq<byte>, seq<byte>)>)
    ensures r.None? <==> To16(network.ip).None? || network.bits == 0
    ensures r.Some? ==> r.value.0 == To16(network.ip).value && |r.value.0| == |r.value.1| == 16
    ensures r.Some? ==> Value(r.value.1) == LastOf(Value(r.value.0), Ones(network))
    ensures r.Some? && network.bits == 32 && network.ones <= 32 ==>
      IsLast(Value(r.value.1), Value(r.value.0), 32 - network.ones)
    ensures r.Some? && network.bits == 128 && network.ones <= 128 ==>
      IsLast(Value(r.value.1), Value(r.value.0), 128 - network.ones)
  {
    var ip := To16(network.ip);
    if ip.None? || network.bits == 0 {
      return None;
    }
    var hi := FillHostBits(ip.value, Ones(network));
    return Some((ip.value, hi));
  }
}
