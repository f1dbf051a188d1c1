/**
 * Rounding of an integer quotient to the nearest integer with ties rounded
 * up: JavaScript's `Math.round(n / d)`, and `(n / d).toFixed(0)` when `n` is
 * not negative.
 */
module Rounding {

  function RoundHalfUp(n: int, d: nat): (r: int)
    requires d > 0
    ensures 2 * d * r <= 2 * n + d < 2 * d * (r + 1)
    ensures n >= 0 ==> r >= 0
  {
    (2 * n + d) / (2 * d)
  }

  /** A quotient between `lo` and `hi` still lies between them once rounded. */
  lemma RoundHalfUpWithin(n: int, d: nat, lo: int, hi: int)
    requires d > 0 && d * lo <= n <= d * hi
    ensures lo <= RoundHalfUp(n, d) <= hi
  {
    var r := RoundHalfUp(n, d);
    assert 2 * d * (hi + 1) == 2 * (d * hi) + 2 * d;
    assert 2 * d * lo == 2 * (d * lo);
    LessByFactor(2 * d, r, hi + 1);
    LessByFactor(2 * d, lo, r + 1);
  }

  lemma MultiplyMonotone(k: nat, a: int, b: int)
    ensures a <= b ==> k * a <= k * b
  {
    if a <= b {
      assert k * b - k * a == k * (b - a);
    }
  }

  lemma LessByFactor(k: nat, a: int, b: int)
    requires k * a < k * b
    ensures a < b
  {
    MultiplyMonotone(k, b, a);
  }
}
