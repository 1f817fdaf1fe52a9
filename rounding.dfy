/** Integer arithmetic of the percentage formulas: JavaScript's
    `Math.round(n / d)` and `Math.min(Math.round(n / d * 100), 100)`,
    computed exactly on integers. */
module Rounding {

  function Min(a: int, b: int): (m: int)
    ensures m <= a && m <= b && (m == a || m == b)
  {
    if a <= b then a else b
  }

  /** The floor of n / d, for a divisor of either sign (Dafny's own `/` is
      Euclidean and differs from the floor when d < 0). */
  function FloorDiv(n: int, d: int): (q: int)
    requires d != 0
    ensures d > 0 ==> d * q <= n < d * q + d
    ensures d < 0 ==> d * q >= n > d * q + d
  {
    if d > 0 then n / d else (-n) / (-d)
  }

  /** r is `Math.round(n / d)`: the integer with r - 1/2 <= n / d < r + 1/2,
      so that halves go towards positive infinity. */
  ghost predicate IsRounded(r: int, n: int, d: int)
    requires d != 0
  {
    if d > 0 then d * (2 * r - 1) <= 2 * n < d * (2 * r + 1)
    else d * (2 * r - 1) >= 2 * n > d * (2 * r + 1)
  }

  /** `Math.round(n / d)`, as floor(n / d + 1/2) = floor((2n + d) / 2d). */
  function RoundDiv(n: int, d: int): (r: int)
    requires d != 0
    ensures IsRounded(r, n, d)
  {
    FloorDiv(2 * n + d, 2 * d)
  }

  /** At most one integer is the rounded quotient, so IsRounded specifies
      RoundDiv completely. */
  lemma RoundedUnique(r: int, s: int, n: int, d: int)
    requires d != 0
    requires IsRounded(r, n, d) && IsRounded(s, n, d)
    ensures r == s
  {
    if d > 0 {
      if r < s { MulMonotone(d, 2 * r + 1, 2 * s - 1); }
      if s < r { MulMonotone(d, 2 * s + 1, 2 * r - 1); }
    } else {
      if r < s { MulMonotone(-d, 2 * r + 1, 2 * s - 1); }
      if s < r { MulMonotone(-d, 2 * s + 1, 2 * r - 1); }
    }
  }

  lemma MulMonotone(k: int, a: int, b: int)
    requires k > 0 && a <= b
    ensures k * a <= k * b
  {
  }

  /** A rounded quotient of a numerator between d * lo and d * hi, for a
      positive d, lies between lo and hi. */
  lemma RoundedBetween(n: int, d: int, lo: int, hi: int)
    requires d > 0 && d * lo <= n <= d * hi
    ensures lo <= RoundDiv(n, d) <= hi
  {
    var r := RoundDiv(n, d);
    if r < lo { MulMonotone(d, 2 * r + 1, 2 * lo - 1); }
    if r > hi { MulMonotone(d, 2 * hi + 1, 2 * r - 1); }
  }

  /** `Math.min(Math.round(total / target * 100), 100)`: the rounded
      percentage of total against target, capped at 100 but not floored. */
  function CappedPercent(total: int, target: int): (p: int)
    requires target != 0
    ensures p <= 100
    ensures p < 100 ==> IsRounded(p, 100 * total, target)
    ensures p == 100 <==> RoundDiv(100 * total, target) >= 100
  {
    Min(RoundDiv(100 * total, target), 100)
  }

  /** With a positive target, a non-negative total gives a percentage in
      0..100, and a total that reaches the target gives exactly 100. */
  lemma CappedPercentRange(total: int, target: int)
    requires target > 0 && total >= 0
    ensures 0 <= CappedPercent(total, target) <= 100
    ensures total >= target ==> CappedPercent(total, target) == 100
  {
    var r := RoundDiv(100 * total, target);
    if r < 0 { MulMonotone(target, 2 * r + 1, -1); }
    if total >= target && r < 100 { MulMonotone(target, 2 * r + 1, 199); }
  }
}
