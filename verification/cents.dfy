/** Rounding to two decimal places, as `Number.prototype.toFixed(2)` does it
    and as `parseFloat` reads the resulting text back. The value is treated as
    an exact real: toFixed picks the whole number of cents closest to the
    magnitude, the larger one on a tie, and prefixes the sign of a negative
    value, so halves round away from zero. */
module Cents {

  /** A whole number of cents. */
  predicate IsCents(x: real) {
    (x * 100.0).Floor as real == x * 100.0
  }

  /** The distance between two reals. */
  function Dist(x: real, y: real): (r: real)
    ensures r >= 0.0
    ensures r == 0.0 <==> x == y
  {
    if x < y then y - x else x - y
  }

  /** Rounding of a non-negative magnitude, halves up. */
  function RoundMagnitude(x: real): (r: real)
    requires x >= 0.0
    ensures IsCents(r)
    ensures r >= 0.0
    ensures x - 0.005 < r <= x + 0.005
  {
    var n := (x * 100.0 + 0.5).Floor;
    assert n as real * 0.01 * 100.0 == n as real;
    n as real * 0.01
  }

  /** `toFixed(2)` followed by `parseFloat`. */
  function RoundCents(x: real): (r: real)
    ensures IsCents(r)
    ensures Dist(r, x) <= 0.005
    ensures x >= 0.0 ==> r >= 0.0
    ensures x <= 0.0 ==> r <= 0.0
    ensures Dist(r, x) == 0.005 ==> (x >= 0.0 ==> r > x) && (x < 0.0 ==> r < x)
  {
    if x < 0.0 then
      var m := RoundMagnitude(-x);
      NegatedCents(m);
      -m
    else
      RoundMagnitude(x)
  }

  /** The negation of a whole number of cents is one too. */
  lemma NegatedCents(c: real)
    requires IsCents(c)
    ensures IsCents(-c)
  {
    var k := (c * 100.0).Floor;
    assert -c * 100.0 == (-k) as real;
  }

  /** A value that is already a whole number of cents is left alone, so
      reading back a rounded figure and rounding it again changes nothing. */
  lemma RoundCentsOfCents(c: real)
    requires IsCents(c)
    ensures RoundCents(c) == c
  {
    var k := (c * 100.0).Floor;
    if c < 0.0 {
      var m := (-c * 100.0 + 0.5).Floor;
      assert -c * 100.0 + 0.5 == (-k) as real + 0.5;
      assert m == -k;
    } else {
      var m := (c * 100.0 + 0.5).Floor;
      assert c * 100.0 + 0.5 == k as real + 0.5;
      assert m == k;
    }
  }

  /** Rounding twice is rounding once. */
  lemma RoundCentsIdempotent(x: real)
    ensures RoundCents(RoundCents(x)) == RoundCents(x)
  {
    RoundCentsOfCents(RoundCents(x));
  }

  /** Rounding is symmetric about zero: halves go away from zero on both
      sides. */
  lemma RoundCentsOdd(x: real)
    ensures RoundCents(-x) == -RoundCents(x)
  {
  }

  /** The rounded value is a closest whole number of cents: no cents value is
      nearer to x. */
  lemma RoundCentsNearest(x: real, c: real)
    requires IsCents(c)
    ensures Dist(RoundCents(x), x) <= Dist(c, x)
  {
    var k := (c * 100.0).Floor;
    assert c == k as real * 0.01;
    if x >= 0.0 {
      NearestMagnitude(x, k);
    } else {
      NearestMagnitude(-x, -k);
      assert -c == (-k) as real * 0.01;
    }
  }

  lemma {:induction false} NearestMagnitude(x: real, k: int)
    requires x >= 0.0
    ensures Dist(RoundMagnitude(x), x) <= Dist(k as real * 0.01, x)
  {
    var n := (x * 100.0 + 0.5).Floor;
    assert RoundMagnitude(x) == n as real * 0.01;
    if k > n {
      assert k as real >= n as real + 1.0;
    } else if k < n {
      assert k as real <= n as real - 1.0;
    }
  }
}
