/** Math.round applied to an exact ratio of integers. The application rounds
    quotients such as `totalScore / questionCount`; here the quotient is the
    exact rational, so the binary floating-point error at exact halves is not
    modelled. Math.round(x) is floor(x + 1/2): halves round up, towards
    positive infinity, also for negative x. */
module Rounding {

  /** Math.round(a / b) for a positive divisor: the unique integer r with
      r - 1/2 <= a/b < r + 1/2, written without fractions. */
  function RoundDiv(a: int, b: int): (r: int)
    requires b > 0
    ensures 2 * b * r - b <= 2 * a < 2 * b * r + b
  {
    var q := (2 * a + b) / (2 * b);
    assert 2 * b * q <= 2 * a + b < 2 * b * q + 2 * b by {
      var m := (2 * a + b) % (2 * b);
      assert 2 * a + b == (2 * b) * q + m && 0 <= m < 2 * b;
    }
    q
  }

  /** Math.round(a / b) for any non-zero divisor. */
  function RoundRatio(a: int, b: int): (r: int)
    requires b != 0
    ensures b > 0 ==> 2 * b * r - b <= 2 * a < 2 * b * r + b
    ensures b < 0 ==> 2 * b * r - b >= 2 * a > 2 * b * r + b
  {
    if b > 0 then RoundDiv(a, b) else RoundDiv(-a, -b)
  }

  /** Cancels a positive factor from a strict bound. */
  lemma CancelBelow(b: int, x: int)
    requires b > 0
    requires b * x < b
    ensures x < 1
  {
  }

  /** The characterisation pins the result down: only one integer lies within
      half a unit of the ratio in the rounding direction. */
  lemma RoundDivUnique(a: int, b: int, r: int)
    requires b > 0
    requires 2 * b * r - b <= 2 * a < 2 * b * r + b
    ensures RoundDiv(a, b) == r
  {
    var q := RoundDiv(a, b);
    assert b * (q - r) < b;
    CancelBelow(b, q - r);
    assert b * (r - q) < b;
    CancelBelow(b, r - q);
  }

  /** Rounding an exact multiple returns the multiplier. */
  lemma RoundDivExact(k: int, b: int)
    requires b > 0
    ensures RoundDiv(k * b, b) == k
  {
    RoundDivUnique(k * b, b, k);
  }

  /** Rounding preserves the order of numerators over a common divisor. */
  lemma RoundDivMonotone(a1: int, a2: int, b: int)
    requires b > 0
    requires a1 <= a2
    ensures RoundDiv(a1, b) <= RoundDiv(a2, b)
  {
    var r1 := RoundDiv(a1, b);
    var r2 := RoundDiv(a2, b);
    assert b * (r1 - r2) < b;
    CancelBelow(b, r1 - r2);
  }

  /** A ratio within [0, 1], scaled by n, rounds into [0, n]. */
  lemma RoundDivScaledFraction(x: int, b: int, n: nat)
    requires b > 0
    requires 0 <= x <= b
    ensures 0 <= RoundDiv(n * x, b) <= n
  {
    assert 0 <= n * x <= n * b by {
      assert n * x <= n * b;
    }
    RoundDivMonotone(0, n * x, b);
    RoundDivMonotone(n * x, n * b, b);
    RoundDivExact(0, b);
    RoundDivExact(n, b);
  }
}
