/// Machine integers, and small facts about products, quotients and powers, that several
/// modules share.

module Arithmetic {

  // ------------------------------------------------------- machine integers

  type Half = x: int | 0 <= x < 0x1_0000

  type Short = x: int | -0x8000 <= x < 0x8000

  type Word = x: int | 0 <= x < 0x1_0000_0000

  function Min(a: int, b: int): int { if a < b then a else b }

  function Max(a: int, b: int): int { if a < b then b else a }

  /** Two's complement on 16 bits. */
  function Wrap16(x: int): Short { (x + 0x8000) % 0x1_0000 - 0x8000 }

  /** Two's complement on 32 bits. */
  function Wrap32(x: int): int { (x + 0x8000_0000) % 0x1_0000_0000 - 0x8000_0000 }

  /** The representative modulo 2^16 or 2^32 that the type holds. */
  lemma WrapCongruent(x: int)
    ensures -0x8000 <= Wrap16(x) < 0x8000 && (x - Wrap16(x)) % 0x1_0000 == 0
    ensures -0x8000_0000 <= Wrap32(x) < 0x8000_0000 && (x - Wrap32(x)) % 0x1_0000_0000 == 0
  {
  }

  lemma WrapAdds(x: int, y: int)
    ensures Wrap32(Wrap32(x) + y) == Wrap32(x + y)
    ensures Wrap32(x + Wrap32(y)) == Wrap32(x + y)
    ensures -0x8000_0000 <= x < 0x8000_0000 ==> Wrap32(x) == x
  {
  }

  // --------------------------------------------------- products and quotients

  lemma MulMonotone(x: int, y: int, z: nat)
    requires x <= y
    ensures x * z <= y * z
  {
  }

  lemma MulDistributes(x: int, y: int, z: int)
    ensures (x + y) * z == x * z + y * z
    ensures (x - y) * z == x * z - y * z
  {
  }

  lemma MulAssociates(x: int, y: int, z: int)
    ensures (x * y) * z == x * (y * z)
  {
  }

  /** The only quotient and remainder. */
  lemma DivModUnique(a: int, d: nat, q: int, r: int)
    requires 0 <= r < d && a == q * d + r
    ensures a / d == q && a % d == r
  {
    var q', r' := a / d, a % d;
    assert a == q' * d + r';
    MulDistributes(q', q, d);
    if q' > q {
      MulMonotone(1, q' - q, d);
    } else if q' < q {
      MulMonotone(q' - q, -1, d);
    }
  }

  lemma QuotientTwice(n: nat, b: nat, p: nat)
    requires b > 0 && p > 0
    ensures b * p > 0 && n / b / p == n / (b * p)
  {
    var m, r := n / b, n % b;
    var q, s := m / p, m % p;
    assert n == m * b + r && m == q * p + s;
    MulDistributes(q * p, s, b);
    MulMonotone(s + 1, p, b);
    MulDistributes(s, 1, b);
    assert q * p * b == q * (b * p);
    MulMonotone(1, p, b);
    DivModUnique(n, b * p, q, s * b + r);
  }

  /** Quotient and remainder of a counter that goes up by one. */
  lemma CountUp(i: nat, s: nat)
    requires s > 0
    ensures (i + 1) % s == (if i % s == s - 1 then 0 else i % s + 1)
    ensures (i + 1) / s == (if i % s == s - 1 then i / s + 1 else i / s)
  {
    var q, r := i / s, i % s;
    if r == s - 1 {
      MulDistributes(q, 1, s);
      DivModUnique(i + 1, s, q + 1, 0);
    } else {
      DivModUnique(i + 1, s, q, r + 1);
    }
  }

  function Power(b: nat, n: nat): (r: nat)
    requires b > 0
    ensures r > 0
  {
    if n == 0 then 1 else b * Power(b, n - 1)
  }

  function Pow2(n: nat): (r: nat)
    ensures r > 0
  {
    if n == 0 then 1 else 2 * Pow2(n - 1)
  }

  lemma Pow2Step(n: nat)
    ensures Pow2(0) == 1 && (n > 0 ==> Pow2(n) == 2 * Pow2(n - 1))
  {
  }

  lemma {:induction false} Pow2Adds(a: nat, b: nat)
    ensures Pow2(a + b) == Pow2(a) * Pow2(b)
    decreases a
  {
    hide Pow2;
    Pow2Step(a);
    Pow2Step(a + b);
    if a > 0 {
      Pow2Adds(a - 1, b);
      assert a + b - 1 == a - 1 + b;
      MulAssociates(2, Pow2(a - 1), Pow2(b));
    }
  }

  lemma {:induction false} Pow2Monotone(a: nat, b: nat)
    requires a <= b
    ensures Pow2(a) <= Pow2(b)
  {
    if a < b { Pow2Monotone(a, b - 1); }
  }
}
