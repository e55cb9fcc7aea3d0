/** Powers, and the quotients of numbers written in a power as base. */
module Powers {
  function Pow(b: nat, n: nat): nat {
    if n == 0 then 1 else Pow(b, n - 1) * b
  }

  lemma {:induction false} PowPositive(b: nat, n: nat)
    requires b > 0
    ensures Pow(b, n) > 0
  {
    if n == 0 {
    } else {
      PowPositive(b, n - 1);
    }
  }

  lemma {:induction false} PowSum(b: nat, m: nat, n: nat)
    ensures Pow(b, m + n) == Pow(b, m) * Pow(b, n)
  {
    if n == 0 {
    } else {
      PowSum(b, m, n - 1);
      calc {
        Pow(b, m + n);
        Pow(b, m + (n - 1)) * b;
        Pow(b, m) * Pow(b, n - 1) * b;
        Pow(b, m) * Pow(b, n);
      }
    }
  }

  lemma {:induction false} Pow256(n: nat)
    ensures Pow(256, n) == Pow(2, 8 * n)
  {
    if n == 0 {
    } else {
      Pow256(n - 1);
      PowSum(2, 8 * (n - 1), 8);
      SmallPowers();
    }
  }

  lemma {:induction false} SmallPowers()
    ensures Pow(2, 1) == 2 && Pow(2, 2) == 4 && Pow(2, 3) == 8 && Pow(2, 4) == 16
    ensures Pow(2, 5) == 32 && Pow(2, 6) == 64 && Pow(2, 7) == 128 && Pow(2, 8) == 256
    ensures Pow(256, 1) == 256 && Pow(256, 2) == 0x1_0000 && Pow(256, 3) == 0x100_0000
    ensures Pow(256, 4) == 0x1_0000_0000 && Pow(256, 5) == 0x100_0000_0000
    ensures Pow(256, 7) == 0x100_0000_0000_0000 && Pow(256, 8) == 0x1_0000_0000_0000_0000
  {
    assert Pow(2, 2) == 4 && Pow(2, 4) == 16 && Pow(2, 6) == 64;
    assert Pow(256, 2) == 0x1_0000 && Pow(256, 4) == 0x1_0000_0000 && Pow(256, 6) == 0x1_0000_0000_0000;
  }

  lemma {:induction false} Scale(x: int, y: int, m: int)
    requires x <= y && m >= 0
    ensures x * m <= y * m
  {
  }

  /** Division with remainder. */
  lemma {:induction false} Divide(a: int, m: int) returns (q: int, r: int)
    requires m > 0
    ensures a == q * m + r && 0 <= r < m && q == a / m && r == a % m
  {
    q, r := a / m, a % m;
  }

  /** Quotient and remainder are unique. */
  lemma {:induction false} QuotientIs(a: int, q: int, r: int, m: int)
    requires m > 0 && a == q * m + r && 0 <= r < m
    ensures a / m == q && a % m == r
  {
    var d, t := Divide(a, m);
    SameBlock(d, t, q, r, m);
  }

  lemma {:induction false} SameBlock(d: int, t: int, q: int, r: int, m: int)
    requires d * m + t == q * m + r && 0 <= t < m && 0 <= r < m
    ensures d == q && t == r
  {
    if d < q {
      Scale(d + 1, q, m);
      AddOne(d, m);
    } else if q < d {
      Scale(q + 1, d, m);
      AddOne(q, m);
    }
  }

  lemma {:induction false} AddOne(d: int, m: int)
    ensures (d + 1) * m == d * m + m
  {
  }

  lemma {:induction false} AddLeft(a: int, b: int, m: int)
    ensures (a + b) * m == a * m + b * m
  {
  }

  lemma {:induction false} Reorder(a: int, b: int, m: int)
    ensures (a * b) * m == a * (b * m)
  {
  }

  lemma {:induction false} NextQuotient(a: int, m: int)
    requires m > 0
    ensures (a + m) / m == a / m + 1
  {
    var q, r := Divide(a, m);
    AddOne(q, m);
    QuotientIs(a + m, q + 1, r, m);
  }

  lemma {:induction false} HalfQuotient(a: int, m: int)
    requires m > 0
    ensures a / (2 * m) == a / m / 2
  {
    var q, r := Divide(a, m);
    var h, e := Divide(q, 2);
    AddLeft(h * 2, e, m);
    Reorder(h, 2, m);
    assert e * m == if e == 0 then 0 else m;
    QuotientIs(a, h, e * m + r, 2 * m);
  }
}
