/**
 * Integer models of the arithmetic the statistics code does with floating point:
 * `Math.round(a / b)` and `Math.round((a / b) * 100)` on non-negative operands,
 * computed here exactly (half-way cases round up, as `Math.round` does).
 */
module Rounding {

  import opened Arith

  /** `Math.round(num / den)` for num >= 0, den > 0: the integer nearest to num/den, halves rounded up. */
  function RoundDiv(num: nat, den: nat): (r: nat)
    requires den > 0
    ensures 2 * den * r <= 2 * num + den < 2 * den * (r + 1)
  {
    var r := (2 * num + den) / (2 * den);
    DivBounds(2 * num + den, 2 * den);
    r
  }

  lemma DivBounds(x: nat, d: nat)
    requires d > 0
    ensures d * (x / d) <= x < d * (x / d + 1)
  {
  }

  /** `Math.round((part / whole) * 100)`: the percentage `part` is of `whole`, to the nearest integer. */
  function Percent(part: nat, whole: nat): (r: nat)
    requires whole > 0
    ensures part <= whole ==> r <= 100
    ensures part == 0 ==> r == 0
    ensures part == whole ==> r == 100
  {
    var r := RoundDiv(100 * part, whole);
    PercentAtMostHundred(part, whole, r);
    PercentOfWhole(part, whole, r);
    r
  }

  lemma PercentAtMostHundred(part: nat, whole: nat, r: nat)
    requires whole > 0
    requires 2 * whole * r <= 200 * part + whole
    ensures part <= whole ==> r <= 100
  {
    MulMonotone(2 * whole, 101, r);
    MulMonotone(200, part, whole);
  }

  lemma PercentOfWhole(part: nat, whole: nat, r: nat)
    requires whole > 0
    requires 2 * whole * r <= 200 * part + whole < 2 * whole * (r + 1)
    ensures part == whole ==> r == 100
  {
    MulMonotone(2 * whole, 101, r);
    MulMonotone(2 * whole, r + 1, 100);
  }

  /** The percentage is the integer nearest to 100 * part / whole, halves rounded up. */
  lemma PercentBracket(part: nat, whole: nat)
    requires whole > 0
    ensures 2 * whole * Percent(part, whole) <= 200 * part + whole < 2 * whole * (Percent(part, whole) + 1)
  {
    assert Percent(part, whole) == RoundDiv(100 * part, whole);
  }

  /** A larger part of the same whole never gets a smaller percentage. */
  lemma PercentMonotone(p: nat, q: nat, whole: nat)
    requires whole > 0 && p <= q
    ensures Percent(p, whole) <= Percent(q, whole)
  {
    var a, b := Percent(p, whole), Percent(q, whole);
    PercentBracket(p, whole);
    PercentBracket(q, whole);
    MulMonotone(2 * whole, b + 1, a);
  }

  /** A share no larger than another (a/b <= c/d) never gets a larger percentage. */
  lemma PercentCrossMonotone(a: nat, b: nat, c: nat, d: nat)
    requires b > 0 && d > 0 && a * d <= c * b
    ensures Percent(a, b) <= Percent(c, d)
  {
    PercentBracket(a, b);
    PercentBracket(c, d);
    BracketsOrdered(a, b, c, d, Percent(a, b), Percent(c, d));
  }

  /** The bracket of a/b lies below the bracket of c/d when a/b <= c/d. */
  lemma BracketsOrdered(a: nat, b: nat, c: nat, d: nat, p: nat, q: nat)
    requires b > 0 && d > 0 && a * d <= c * b
    requires 2 * b * p <= 200 * a + b
    requires 200 * c + d < 2 * d * (q + 1)
    ensures p <= q
  {
    var w := b * d;
    ScaleBy(d, 2 * b * p, 200 * a + b);
    ScaleBy(b, 200 * c + d + 1, 2 * d * (q + 1));
    assert d * (2 * b * p) == 2 * (w * p) by { MulRearrange(d, b, p); }
    assert b * (2 * d * (q + 1)) == 2 * (w * (q + 1)) by { MulRearrange(b, d, q + 1); }
    assert d * (200 * a + b) == 200 * (a * d) + w;
    assert b * (200 * c + d + 1) == 200 * (c * b) + w + b;
    MulMonotone(w, q + 1, p);
  }

  lemma ScaleBy(k: nat, x: int, y: int)
    requires x <= y
    ensures k * x <= k * y
  {
    MulMonotone(k, x, y);
  }

  lemma MulRearrange(x: int, y: int, z: int)
    ensures x * (2 * y * z) == 2 * ((y * x) * z)
  {
  }
}
