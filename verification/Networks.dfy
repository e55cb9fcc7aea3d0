/** What the value of an address rule denotes, and the interval of addresses that
    `publishLocked` hands to the sweep for it. */
module Networks {
  import opened Addresses
  import opened Bytes
  import opened Powers
  import opened RangeEvents
  import opened Wrappers

  /** The outcome of `net.ParseCIDR`, or else of `net.ParseIP`. */
  datatype Network = Cidr(net: IPNet) | Single(ip: seq<byte>) | NotAnAddress

  /** What the parsers promise: host bits are clear, and a single address has
      sixteen bytes. */
  predicate ValidNetwork(n: Network) {
    match n
    case Cidr(net) => To16(net.ip).Some? ==> Masked(Value(To16(net.ip).value), Ones(net))
    case Single(ip) => |ip| == 16
    case NotAnAddress => true
  }

  /** The rule's prefix contains the address, or the rule names it. */
  predicate InNetwork(n: Network, a: nat) {
    match n
    case Cidr(net) => To16(net.ip).Some? && net.bits > 0 && InPrefix(a, Value(To16(net.ip).value), Ones(net))
    case Single(ip) => a == Value(ip)
    case NotAnAddress => false
  }

  function Interval(n: Network): Option<(nat, nat)> {
    match n
    case Cidr(net) =>
      if To16(net.ip).None? || net.bits == 0 then None
      else var v := Value(To16(net.ip).value); Some((v, LastOf(v, Ones(net))))
    case Single(ip) => Some((Value(ip), Value(ip)))
    case NotAnAddress => None
  }

  method FindInterval(n: Network) returns (r: Option<(nat, nat)>)
    ensures r == Interval(n)
  {
    match n
    case Cidr(net) =>
      var range := RangeOf(net);
      if range.None? { return None; }
      return Some((Value(range.value.0), Value(range.value.1)));
    case Single(ip) => return Some((Value(ip), Value(ip)));
    case NotAnAddress => return None;
  }

  /** The interval holds exactly the addresses of the network. */
  lemma {:induction false} IntervalIsNetwork(n: Network, a: nat)
    requires ValidNetwork(n)
    ensures InNetwork(n, a) <==> Interval(n).Some? && Interval(n).value.0 <= a <= Interval(n).value.1
  {
    match n
    case Cidr(net) =>
      if To16(net.ip).Some? {
        PrefixIsInterval(a, Value(To16(net.ip).value), Ones(net));
      }
    case Single(ip) =>
    case NotAnAddress =>
  }

  lemma {:induction false} IntervalInSpace(n: Network)
    requires ValidNetwork(n) && Interval(n).Some?
    ensures Interval(n).value.0 <= Interval(n).value.1 < SPACE
  {
    match n
    case Cidr(net) =>
      var ip := To16(net.ip).value;
      AddressInSpace(ip);
      PrefixIsInterval(0, Value(ip), Ones(net));
      LastInSpace(Value(ip), Ones(net));
    case Single(ip) => AddressInSpace(ip);
  }

  /** The naturals of the sweep are exactly the values of sixteen-byte addresses. */
  lemma {:induction false} SpaceOfAddresses()
    ensures Pow(256, 16) == Pow(2, 128) == SPACE
  {
    SmallPowers();
    PowSum(256, 8, 8);
    Pow256(16);
  }

  lemma {:induction false} AddressInSpace(ip: seq<byte>)
    requires |ip| == 16
    ensures Value(ip) < SPACE
  {
    ValueBound(ip);
    SpaceOfAddresses();
  }

  lemma {:induction false} LastInSpace(v: nat, ones: nat)
    requires v < SPACE
    ensures LastOf(v, ones) < SPACE
  {
    var size, blocks := BlockSize(ones), Pow(2, 128 - HostBits(ones));
    SpaceOfAddresses();
    PowSum(2, 128 - HostBits(ones), HostBits(ones));
    var q, r := Divide(v, size);
    if blocks <= q {
      Scale(blocks, q, size);
    } else {
      Scale(q + 1, blocks, size);
    }
  }

  // ---- What a network is, bit by bit --------------------------------------

  /** The first bits of two numbers agree, all but the last `host`. */
  predicate Agree(a: nat, b: nat, host: nat) {
    PowPositive(2, host);
    a / Pow(2, host) == b / Pow(2, host)
  }

  /** An IPv4 address is written behind ten zero bytes and two of all ones. */
  lemma {:induction false} V4Value(b: seq<byte>)
    requires |b| == 4
    ensures To16(b) == Some(V4_PREFIX + b) && Value(V4_PREFIX + b) == 0xFFFF_0000_0000 + Value(b)
    ensures Value(b) < 0x1_0000_0000
  {
    ValueOfConcat(V4_PREFIX, b);
    ValueBound(b);
    SmallPowers();
    V4PrefixValue();
  }

  lemma {:induction false} V4PrefixValue()
    ensures Value(V4_PREFIX) == 0xFFFF
  {
    var zeros: seq<byte> := seq(10, _ => 0);
    assert V4_PREFIX == zeros + [255, 255];
    ValueOfConcat(zeros, [255, 255]);
    ValueOfRepeat(10);
    ValueOfPair(255, 255);
  }

  /** A common front of whole blocks does not matter. */
  lemma {:induction false} FrontCancels(p: nat, u: nat, w: nat, x: nat, y: nat)
    requires w > 0
    ensures (p * u * w + x) / w == (p * u * w + y) / w <==> x / w == y / w
  {
    FrontQuotient(p * u, w, x);
    FrontQuotient(p * u, w, y);
  }

  lemma {:induction false} FrontQuotient(q: nat, w: nat, x: nat)
    requires w > 0
    ensures (q * w + x) / w == q + x / w
  {
    var d, r := Divide(x, w);
    AddLeft(q, d, w);
    QuotientIs(q * w + x, q + d, r, w);
  }

  /** An IPv4 rule takes exactly the IPv4 addresses whose first bits agree with its
      own. */
  lemma {:induction false} V4Network(net: IPNet, b: seq<byte>)
    requires |net.ip| == |b| == 4 && net.bits == 32 && net.ones <= 32
    ensures InNetwork(Cidr(net), Value(V4_PREFIX + b)) <==> Agree(Value(b), Value(net.ip), 32 - net.ones)
  {
    var host := 32 - net.ones;
    var w, u := Pow(2, host), Pow(2, net.ones);
    V4Value(b);
    V4Value(net.ip);
    PowPositive(2, host);
    PowSum(2, net.ones, host);
    ThirtyTwo();
    assert u * w == 0x1_0000_0000;
    Reorder(0xFFFF, u, w);
    assert HostBits(96 + net.ones) == host;
    FrontCancels(0xFFFF, u, w, Value(b), Value(net.ip));
  }

  lemma {:induction false} ThirtyTwo()
    ensures Pow(2, 32) == 0x1_0000_0000
  {
    Pow256(4);
    SmallPowers();
  }

  /** And no other address. */
  lemma {:induction false} V4NetworkOnly(net: IPNet, ip: seq<byte>)
    requires |net.ip| == 4 && net.bits == 32 && net.ones <= 32 && |ip| == 16 && InNetwork(Cidr(net), Value(ip))
    ensures ip[..12] == V4_PREFIX
  {
    var host := 32 - net.ones;
    var w, u := Pow(2, host), Pow(2, net.ones);
    V4Value(net.ip);
    V4PrefixValue();
    V4Value(ip[12..]);
    assert ip == ip[..12] + ip[12..];
    ValueOfConcat(ip[..12], ip[12..]);
    SmallPowers();
    ThirtyTwo();
    PowPositive(2, host);
    PowPositive(2, net.ones);
    PowSum(2, net.ones, host);
    assert HostBits(96 + net.ones) == host;
    SameFront(Value(ip[..12]), Value(ip[12..]), 0xFFFF, Value(net.ip), u, w);
    ValueInjective(ip[..12], V4_PREFIX);
  }

  lemma {:induction false} SameFront(p: nat, x: nat, q: nat, y: nat, u: nat, w: nat)
    requires u > 0 && w > 0 && x < u * w && y < u * w && (p * (u * w) + x) / w == (q * (u * w) + y) / w
    ensures p == q
  {
    FrontOf(p, x, u, w);
    FrontOf(q, y, u, w);
    SameBlock(p, x / w, q, y / w, u);
  }

  lemma {:induction false} FrontOf(p: nat, x: nat, u: nat, w: nat)
    requires u > 0 && w > 0 && x < u * w
    ensures (p * (u * w) + x) / w == p * u + x / w && 0 <= x / w < u
  {
    Reorder(p, u, w);
    FrontQuotient(p * u, w, x);
    QuotientBelow(x, u, w);
  }

  lemma {:induction false} QuotientBelow(x: nat, u: nat, w: nat)
    requires w > 0 && x < u * w
    ensures x / w < u
  {
    var d, r := Divide(x, w);
    if u <= d {
      Scale(u, d, w);
    }
  }

  /** A sixteen-byte network takes the addresses whose first bits agree. */
  lemma {:induction false} V6Network(net: IPNet, a: nat)
    requires |net.ip| == 16 && net.bits == 128 && net.ones <= 128
    ensures InNetwork(Cidr(net), a) <==> Agree(a, Value(net.ip), 128 - net.ones)
  {
    assert HostBits(net.ones) == 128 - net.ones;
  }
}
