/**
 * Python 3's `round(n / d)` for a non-negative integer ratio: the nearest
 * integer, with exact halves going to the even neighbour ("banker's
 * rounding"). Working on the numerator and denominator keeps the model free
 * of floating point.
 */
module Rounding {

  function Dist(a: int, b: int): nat
  {
    if a >= b then a - b else b - a
  }

  /** `round(n / d)`: nearest integer to n/d, halves to the even one. */
  function RoundHalfEven(n: nat, d: nat): (r: nat)
    requires d > 0
    ensures 2 * Dist(n, r * d) <= d
    ensures 2 * Dist(n, r * d) == d ==> r % 2 == 0
  {
    var q, m := n / d, n % d;
    var r := if 2 * m < d then q
             else if 2 * m > d then q + 1
             else if q % 2 == 0 then q
             else q + 1;
    RoundingFacts(n, d, q, m, r);
    r
  }

  lemma RoundingFacts(n: nat, d: nat, q: nat, m: nat, r: nat)
    requires d > 0 && q == n / d && m == n % d
    requires r == if 2 * m < d then q else if 2 * m > d then q + 1 else if q % 2 == 0 then q else q + 1
    ensures 2 * Dist(n, r * d) <= d
    ensures 2 * Dist(n, r * d) == d ==> r % 2 == 0
  {
    var p := q * d;
    assert n == p + m;
    if r == q {
      assert Dist(n, r * d) == m;
    } else {
      assert r * d == p + d;
      assert Dist(n, r * d) == d - m;
    }
  }

  lemma MulMonotone(a: int, b: int, d: nat)
    requires a <= b
    ensures a * d <= b * d
  {
    assert b * d - a * d == (b - a) * d;
  }

  lemma MulDifference(x: int, y: int, d: int)
    ensures (x - y) * d == x * d - y * d
  {
  }

  /** A multiple of d by at least two steps is at least two steps away. */
  lemma MulBound(k: int, d: nat)
    ensures k >= 2 ==> k * d >= 2 * d
    ensures k <= -2 ==> k * d <= -2 * d
  {
    if k >= 2 {
      MulMonotone(2, k, d);
    }
    if k <= -2 {
      MulMonotone(k, -2, d);
    }
  }

  /**
   * The two properties in RoundHalfEven's contract pin the result down: any
   * integer that is nearest to n/d, and even on a tie, is that result.
   */
  lemma RoundHalfEvenUnique(n: nat, d: nat, r: int)
    requires d > 0
    requires 2 * Dist(n, r * d) <= d
    requires 2 * Dist(n, r * d) == d ==> r % 2 == 0
    ensures r == RoundHalfEven(n, d)
  {
    var r0 := RoundHalfEven(n, d);
    var a, b := r * d, r0 * d;
    var k := r - r0;
    MulDifference(r, r0, d);
    MulBound(k, d);
    assert Dist(a, b) <= d;
    assert k == 1 || k == -1 ==> Dist(a, b) == d;
    assert Dist(a, b) == d ==> 2 * Dist(n, a) == d && 2 * Dist(n, b) == d;
  }
}
