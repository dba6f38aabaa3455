/** Exact real arithmetic used by the lease engine: natural powers (the
    engine's `Math.pow` with a whole-number exponent) and the clamp at zero
    (`Math.max(0, x)`). */
module RealMath {

  /** x raised to the natural power n, by repeated multiplication. */
  function Pow(x: real, n: nat): (r: real)
    ensures x != 0.0 ==> r != 0.0
  {
    if n == 0 then 1.0 else x * Pow(x, n - 1)
  }

  /** A power of a positive number is positive. */
  lemma {:induction false} PowPositive(x: real, n: nat)
    requires x > 0.0
    ensures Pow(x, n) > 0.0
  {
    if n > 0 {
      PowPositive(x, n - 1);
    }
  }

  /** A power of a non-negative number is non-negative. */
  lemma {:induction false} PowNonNegative(x: real, n: nat)
    requires x >= 0.0
    ensures Pow(x, n) >= 0.0
  {
    if n > 0 {
      PowNonNegative(x, n - 1);
    }
  }

  /** Every power of one is one. */
  lemma {:induction false} PowOne(n: nat)
    ensures Pow(1.0, n) == 1.0
  {
    if n > 0 {
      PowOne(n - 1);
    }
  }

  /** A base no larger in size than f has powers no larger in size than
      those of f. */
  lemma {:induction false} PowBounded(g: real, f: real, n: nat)
    requires -f <= g <= f
    ensures -Pow(f, n) <= Pow(g, n) <= Pow(f, n)
  {
    if n > 0 {
      PowBounded(g, f, n - 1);
      ProductBounded(g, Pow(g, n - 1), f, Pow(f, n - 1));
    }
  }

  /** |g| <= f and |x| <= y give |g * x| <= f * y. */
  lemma ProductBounded(g: real, x: real, f: real, y: real)
    requires -f <= g <= f && -y <= x <= y
    ensures -(f * y) <= g * x <= f * y
  {
    assert y >= 0.0;
    if g >= 0.0 {
      NonNegativeProduct(f - g, y);
      NonNegativeProduct(g, y - x);
      NonNegativeProduct(g, y + x);
      assert f * y - g * x == (f - g) * y + g * (y - x);
      assert f * y + g * x == (f - g) * y + g * (y + x);
    } else {
      NonNegativeProduct(f + g, y);
      NonNegativeProduct(-g, y + x);
      NonNegativeProduct(-g, y - x);
      assert f * y - g * x == (f + g) * y + (-g) * (y + x);
      assert f * y + g * x == (f + g) * y + (-g) * (y - x);
    }
  }

  lemma NonNegativeProduct(a: real, b: real)
    requires a >= 0.0 && b >= 0.0
    ensures a * b >= 0.0
  {
  }

  /** The larger of zero and x: what is reported for a running balance. */
  function Max0(x: real): (r: real)
    ensures r >= 0.0 && r >= x
    ensures r == x || r == 0.0
  {
    if x < 0.0 then 0.0 else x
  }

  /** Clamping at zero preserves order. */
  lemma Max0Monotone(x: real, y: real)
    requires x <= y
    ensures Max0(x) <= Max0(y)
  {
  }

  /** The smaller of two integers (`Math.min`). */
  function MinInt(a: int, b: int): (r: int)
    ensures r <= a && r <= b
    ensures r == a || r == b
  {
    if a <= b then a else b
  }
}
