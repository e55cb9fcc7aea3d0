/** Bytes and two-byte big-endian numbers. */
module Bytes {
  type byte = x: int | 0 <= x < 256

  const U16_LIMIT: nat := 65536

  /** `binary.BigEndian.PutUint16(b, uint16(n))`. */
  function BE16(n: nat): (s: seq<byte>)
    ensures |s| == 2
  {
    [n / 256 % 256, n % 256]
  }

  /** `binary.BigEndian.Uint16(s)`. */
  function U16(s: seq<byte>): (n: nat)
    requires |s| >= 2
    ensures n < U16_LIMIT
  {
    s[0] as int * 256 + s[1] as int
  }

  lemma {:induction false} U16RoundTrip(n: nat)
    requires n < U16_LIMIT
    ensures U16(BE16(n)) == n
  {
  }

  const U32_LIMIT: nat := 0x1_0000_0000

  function BE32(n: nat): (s: seq<byte>)
    ensures |s| == 4
  {
    BE16(n / 65536 % 65536) + BE16(n % 65536)
  }

  function U32(s: seq<byte>): (n: nat)
    requires |s| >= 4
    ensures n < U32_LIMIT
  {
    U16(s[0..2]) * 65536 + U16(s[2..4])
  }

  lemma {:induction false} U32RoundTrip(n: nat)
    requires n < U32_LIMIT
    ensures U32(BE32(n)) == n
  {
    U16RoundTrip(n / 65536 % 65536);
    U16RoundTrip(n % 65536);
    assert BE32(n)[0..2] == BE16(n / 65536 % 65536) && BE32(n)[2..4] == BE16(n % 65536);
  }

  function Zeros(n: nat): seq<byte> {
    seq(n, _ => 0)
  }

  lemma {:induction false} Associate(a: seq<byte>, b: seq<byte>, c: seq<byte>)
    ensures a + (b + c) == a + b + c
  {
  }
}
