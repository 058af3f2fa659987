/**
 * The integer content of the few `Math` calls the quiz core makes on
 * quotients of integers. Floating point is replaced by exact arithmetic.
 */
module JsMath {

  /**
   * `Math.round(a / b)` for a positive divisor: the nearest integer to the
   * exact quotient, halves rounded upwards (JavaScript rounds ties towards
   * positive infinity).
   */
  function RoundDiv(a: int, b: int): (r: int)
    requires b > 0
    ensures b * (2 * r - 1) <= 2 * a < b * (2 * r + 1)
  {
    (2 * a + b) / (2 * b)
  }

  /** Only one integer satisfies the rounding bracket of `RoundDiv`. */
  lemma RoundDivUnique(a: int, b: int, r: int)
    requires b > 0
    requires b * (2 * r - 1) <= 2 * a < b * (2 * r + 1)
    ensures r == RoundDiv(a, b)
  {
  }

  /** Rounding a quotient is monotone in the numerator. */
  lemma RoundDivMonotone(a: int, a': int, b: int)
    requires b > 0 && a <= a'
    ensures RoundDiv(a, b) <= RoundDiv(a', b)
  {
  }

  /** A quotient whose exact value lies in [lo, hi] rounds into [lo, hi]. */
  lemma RoundDivBetween(a: int, b: int, lo: int, hi: int)
    requires b > 0 && b * lo <= a <= b * hi
    ensures lo <= RoundDiv(a, b) <= hi
  {
    RoundDivMonotone(b * lo, a, b);
    RoundDivMonotone(a, b * hi, b);
    RoundDivUnique(b * lo, b, lo);
    RoundDivUnique(b * hi, b, hi);
  }

  /** `Math.ceil(n * 1.5)`. */
  function CeilThreeHalves(n: int): (r: int)
    ensures 3 * n <= 2 * r < 3 * n + 2
  {
    (3 * n + 1) / 2
  }

  function Max(a: int, b: int): int { if a >= b then a else b }

  function Min(a: int, b: int): int { if a <= b then a else b }
}
