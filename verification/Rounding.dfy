/** Python's round() on exact numbers: to the nearest integer, ties to even. Rounding to n digits is rounding in units
    of the last digit. */
module Rounding {
  import opened Wrappers

  function RoundHalfEven(x: real): int {
    var below := x.Floor;
    var rest := x - below as real;
    if rest < 0.5 || (rest == 0.5 && below % 2 == 0) then below else below + 1
  }

  /** n is the integer nearest to x, the even one of two. */
  predicate Nearest(n: int, x: real) {
    && -0.5 <= n as real - x <= 0.5
    && (n as real - x == 0.5 || n as real - x == -0.5 ==> n % 2 == 0)
  }

  lemma RoundsToNearest(n: int, x: real)
    ensures Nearest(n, x) <==> n == RoundHalfEven(x)
  {
    var below := x.Floor;
    assert below as real <= x < below as real + 1.0;
    if Nearest(n, x) {
      assert below <= n <= below + 1;
    }
  }

  lemma RoundingIsMonotone(x: real, y: real)
    requires x <= y
    ensures RoundHalfEven(x) <= RoundHalfEven(y)
  {
    assert x.Floor <= y.Floor;
  }

  /** What rounds to at least zero: half a unit below is still a tie with zero, which is even. */
  lemma RoundsToNonNegative(x: real)
    ensures RoundHalfEven(x) >= 0 <==> x >= -0.5
  {}

  function RoundOption(x: Option<real>, unit: real): Option<int> {
    match x case None => None case Some(v) => Some(RoundHalfEven(v * unit))
  }
}
