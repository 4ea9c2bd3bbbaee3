/** Facts about multiplication, division and powers of two that the solver does not find. */
module Arith {

  const TWO_64: nat := 0x1_0000_0000_0000_0000

  function Pow2(k: nat): (r: nat)
    ensures r > 0
  {
    if k == 0 then 1 else 2 * Pow2(k - 1)
  }

  lemma MulMono(a: int, b: int, d: int)
    requires a <= b && 0 <= d
    ensures a * d <= b * d
  {
  }

  lemma Distrib(a: int, b: int, d: int)
    ensures (a + b) * d == a * d + b * d
    ensures (a - b) * d == a * d - b * d
    ensures d * (a + b) == d * a + d * b
  {
  }

  lemma DivMod(x: int, d: int)
    requires d > 0
    ensures x == (x / d) * d + x % d && 0 <= x % d < d
  {
  }

  /** Quotient and remainder are determined by the division equation. */
  lemma DivUnique(x: int, d: int, q: int, r: int)
    requires d > 0 && x == q * d + r && 0 <= r < d
    ensures x / d == q && x % d == r
  {
    var q' := x / d;
    DivMod(x, d);
    if q' < q {
      MulMono(q' + 1, q, d);
      Distrib(q', 1, d);
    } else if q' > q {
      MulMono(q + 1, q', d);
      Distrib(q, 1, d);
    }
  }

  lemma DivBelow(x: int, d: int, b: int)
    requires d > 0 && x < b * d
    ensures x / d < b
  {
    DivMod(x, d);
    if b <= x / d {
      MulMono(b, x / d, d);
    }
  }

  lemma DivAtLeast(x: int, d: int, b: int)
    requires d > 0 && b * d <= x
    ensures b <= x / d
  {
    DivMod(x, d);
    if x / d < b {
      MulMono(x / d + 1, b, d);
      Distrib(x / d, 1, d);
    }
  }

  /** Rounding down twice is rounding down once. */
  lemma DivDiv(x: nat, p: nat, q: nat)
    requires p > 0 && q > 0
    ensures p * q > 0
    ensures x / p / q == x / (p * q)
  {
    var y, r := x / p, x % p;
    DivMod(x, p);
    var z, s := y / q, y % q;
    DivMod(y, q);
    MulMono(1, p, q);
    calc {
      x;
      (z * q + s) * p + r;
      { Distrib(z * q, s, p); }
      z * q * p + s * p + r;
      { assert z * q * p == z * (p * q); }
      z * (p * q) + (s * p + r);
    }
    MulMono(s + 1, q, p);
    Distrib(s, 1, p);
    assert q * p == p * q;
    MulMono(0, s, p);
    DivUnique(x, p * q, z, s * p + r);
  }

  /** x >> k for an unsigned x. */
  function Shr(x: nat, k: nat): nat {
    DivNat(x, Pow2(k))
  }

  function DivNat(x: nat, d: nat): (r: nat)
    requires d > 0
    ensures r == x / d
  {
    DivAtLeast(x, d, 0);
    x / d
  }

  lemma ShrStep(x: nat, k: nat)
    ensures Shr(x, 0) == x
    ensures Shr(x, k) / 2 == Shr(x, k + 1)
  {
    var p := Pow2(k);
    DivDiv(x, p, 2);
    assert p * 2 == Pow2(k + 1);
    DivUnique(x, 1, x, 0);
  }

  lemma ShrBelow(x: nat, k: nat, b: nat)
    ensures Shr(x, k) < b <==> x < b * Pow2(k)
  {
    if x < b * Pow2(k) {
      DivBelow(x, Pow2(k), b);
    } else {
      DivAtLeast(x, Pow2(k), b);
    }
  }

  lemma DoubleProduct(x: nat, y: nat)
    ensures 2 * (x * y) == (2 * x) * y
  {
  }

  lemma NonNegative(x: real, y: real)
    requires 0.0 <= x && 0.0 <= y
    ensures 0.0 <= x * y
  {
  }

  lemma {:induction false} Pow2Add(a: nat, b: nat)
    ensures Pow2(a + b) == Pow2(a) * Pow2(b)
  {
    if a > 0 {
      Pow2Add(a - 1, b);
      DoubleProduct(Pow2(a - 1), Pow2(b));
    }
  }

  lemma {:induction false} Pow2Mono(a: nat, b: nat)
    requires a <= b
    ensures Pow2(a) <= Pow2(b)
  {
    if a < b {
      Pow2Mono(a, b - 1);
    }
  }

  /** Comparing quotients is comparing cross products. */
  lemma QuotientOver(a: real, b: real, c: real, d: real)
    requires 0.0 < b && 0.0 < d
    ensures a / b > c / d <==> a * d > c * b
  {
    var q, r := a / b, c / d;
    assert a * d == q * (b * d) && c * b == r * (b * d);
    if q > r {
      assert (q - r) * (b * d) > 0.0;
    } else {
      NonNegative(r - q, b * d);
    }
  }

  lemma ProductAsReal(a: int, b: int)
    ensures (a * b) as real == a as real * b as real
  {
  }
}
