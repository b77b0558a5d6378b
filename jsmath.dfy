/** The JavaScript `Math` operations the core uses, over exact integers. */
module JsMath {

  function Min(a: int, b: int): (r: int)
    ensures r <= a && r <= b && (r == a || r == b)
  {
    if a <= b then a else b
  }

  /** `Math.round(num / den)`: round half toward positive infinity, i.e. floor(num/den + 1/2),
      computed exactly on rationals (the source divides in IEEE-754 doubles first). */
  function RoundHalfUp(num: int, den: int): int
    requires den > 0
  {
    (2 * num + den) / (2 * den)
  }

  /** The defining property of rounding half up: the result r satisfies r - 1/2 <= num/den < r + 1/2. */
  lemma RoundHalfUpBounds(num: int, den: int)
    requires den > 0
    ensures var r := RoundHalfUp(num, den);
      2 * r * den - den <= 2 * num < 2 * r * den + den
  {
    var r := RoundHalfUp(num, den);
    assert 2 * den * r <= 2 * num + den < 2 * den * r + 2 * den;
  }

  /** A non-positive number times a natural number is non-positive. */
  lemma {:induction false} MulSign(a: int, d: nat)
    ensures a <= 0 ==> a * d <= 0
  {
    if a <= 0 && d > 0 {
      MulSign(a, d - 1);
      assert a * d == a * (d - 1) + a;
    }
  }

  /** Integer division by a positive divisor is bounded below by any q with q * d <= x. */
  lemma DivAtLeast(x: int, d: int, q: int)
    requires d > 0 && q * d <= x
    ensures q <= x / d
  {
    var k := x / d;
    assert k * d + x % d == x && x % d < d;
    assert (k + 1 - q) * d == k * d + d - q * d;
    MulSign(k + 1 - q, d);
  }

  /** ... and bounded above by any q with x < (q + 1) * d. */
  lemma DivAtMost(x: int, d: int, q: int)
    requires d > 0 && x < (q + 1) * d
    ensures x / d <= q
  {
    var k := x / d;
    assert k * d + x % d == x && 0 <= x % d;
    assert (q + 1 - k) * d == q * d + d - k * d;
    MulSign(q + 1 - k, d);
  }

  /** A rounded quotient lies between any bounds the numerator respects. */
  lemma RoundHalfUpWithin(num: int, den: int, lo: int, hi: int)
    requires den > 0 && lo * den <= num <= hi * den
    ensures lo <= RoundHalfUp(num, den) <= hi
  {
    DivAtLeast(2 * num + den, 2 * den, lo);
    DivAtMost(2 * num + den, 2 * den, hi);
  }
}
