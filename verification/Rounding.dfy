/** Python's `round`: to the nearest integer, ties to the even one, in exact arithmetic. */
module Rounding {

  function Min(a: int, b: int): int {
    if a < b then a else b
  }

  function RoundHalfEven(x: real): (n: int)
    ensures n as real - 0.5 <= x <= n as real + 0.5
    ensures x == n as real - 0.5 || x == n as real + 0.5 ==> n % 2 == 0
  {
    var f := x.Floor;
    var d := x - f as real;
    if d < 0.5 then f else if d > 0.5 then f + 1 else if f % 2 == 0 then f else f + 1
  }

  lemma RoundMonotone(x: real, y: real)
    requires x <= y
    ensures RoundHalfEven(x) <= RoundHalfEven(y)
  {}

  lemma RoundFixesIntegers(n: int)
    ensures RoundHalfEven(n as real) == n
  {}

  /** The rounded quotient of a sum by a positive count. */
  function RoundedMean(sum: int, count: nat): int
    requires count > 0
  {
    RoundHalfEven(sum as real / count as real)
  }

  /** Means compare as their cross products do, and rounding respects the comparison. */
  lemma RoundedMeanMonotone(s: int, n: nat, t: int, m: nat)
    requires n > 0 && m > 0 && s * m <= t * n
    ensures RoundedMean(s, n) <= RoundedMean(t, m)
  {
    var x, y := s as real / n as real, t as real / m as real;
    assert x * n as real == s as real && y * m as real == t as real;
    assert x * n as real * m as real <= y * m as real * n as real by {
      assert (s * m) as real <= (t * n) as real;
      assert (s * m) as real == s as real * m as real && (t * n) as real == t as real * n as real;
    }
    if x > y { ScaleStrict(x, y, n as real * m as real); }
    RoundMonotone(x, y);
  }

  lemma ScaleStrict(x: real, y: real, k: real)
    requires k > 0.0 && x > y
    ensures x * k > y * k
  {
    assert (x - y) * k > 0.0;
  }
}
