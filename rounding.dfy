/** `Math.round((part / whole) * 100)`, the percentage every panel of the
    application shows, in exact integer arithmetic. */
module Rounding {

  /** `Math.round(num / den)` for non-negative operands: the integer nearest to
      the quotient, halves rounded up. */
  function RoundHalfUp(num: nat, den: nat): (r: nat)
    requires den > 0
    ensures 2 * den * r <= 2 * num + den < 2 * den * (r + 1)
  {
    var q := (2 * num + den) / (2 * den);
    assert 2 * den * q <= 2 * num + den < 2 * den * (q + 1) by {
      DivBounds(2 * num + den, 2 * den);
    }
    q
  }

  lemma DivBounds(n: nat, d: nat)
    requires d > 0
    ensures d * (n / d) <= n < d * (n / d + 1)
  {
  }

  /** The rounded percentage of `whole` that `part` makes up: the integer
      nearest to `100 * part / whole`, halves rounded up. */
  function Percent(part: nat, whole: nat): (r: nat)
    requires whole > 0
    ensures 2 * whole * r <= 200 * part + whole < 2 * whole * (r + 1)
    ensures part <= whole ==> r <= 100
    ensures part == whole ==> r == 100
    ensures part == 0 ==> r == 0
  {
    var r := RoundHalfUp(100 * part, whole);
    PercentBounds(part, whole, r);
    r
  }

  lemma PercentBounds(part: nat, whole: nat, r: nat)
    requires whole > 0
    requires 2 * whole * r <= 200 * part + whole < 2 * whole * (r + 1)
    ensures part <= whole ==> r <= 100
    ensures part == whole ==> r == 100
    ensures part == 0 ==> r == 0
  {
    if part <= whole {
      MulLessCancel(2 * whole, r, 101);
    }
    if part == whole {
      MulLessCancel(2 * whole, 100, r + 1);
    }
    if part == 0 {
      MulLessCancel(2 * whole, r, 1);
    }
  }

  /** The rounding bounds leave one candidate: any `r` within them is the
      percentage. */
  lemma PercentUnique(part: nat, whole: nat, r: nat)
    requires whole > 0
    requires 2 * whole * r <= 200 * part + whole < 2 * whole * (r + 1)
    ensures r == Percent(part, whole)
  {
    var q := Percent(part, whole);
    MulLessCancel(2 * whole, r, q + 1);
    MulLessCancel(2 * whole, q, r + 1);
  }

  /** More done out of the same whole never shows a smaller percentage. */
  lemma PercentMonotone(part1: nat, part2: nat, whole: nat)
    requires whole > 0 && part1 <= part2
    ensures Percent(part1, whole) <= Percent(part2, whole)
  {
    var r1, r2 := Percent(part1, whole), Percent(part2, whole);
    MulLessCancel(2 * whole, r1, r2 + 1);
  }

  /** A positive factor can be cancelled from a strict inequality. */
  lemma MulLessCancel(k: int, a: int, b: int)
    requires k > 0 && k * a < k * b
    ensures a < b
  {
    MulSign(k, b - a);
    assert k * (b - a) == k * b - k * a;
  }

  lemma MulSign(k: int, d: int)
    requires k >= 0
    ensures d <= 0 ==> k * d <= 0
  {
  }
}
