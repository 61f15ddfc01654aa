/**
 * Python's `round` on reals (nearest integer, ties to the even one) and the
 * solver's display rule built on it.
 */
module Rounding {

  /** `int(round(x))`: the nearest integer, and the even one on a tie. */
  function RoundHalfEven(x: real): (n: int)
    ensures -0.5 <= n as real - x <= 0.5
    ensures (n as real - x == 0.5 || x - n as real == 0.5) ==> n % 2 == 0
  {
    var f := x.Floor;
    var d := x - f as real;
    if d < 0.5 then f
    else if d > 0.5 then f + 1
    else if f % 2 == 0 then f else f + 1
  }

  /** The two properties of RoundHalfEven determine it: any integer that has them is the result. */
  lemma RoundHalfEvenUnique(x: real, m: int)
    requires -0.5 <= m as real - x <= 0.5
    requires (m as real - x == 0.5 || x - m as real == 0.5) ==> m % 2 == 0
    ensures m == RoundHalfEven(x)
  {
  }

  /** Rounding never goes backwards: a larger input never rounds to a smaller integer. */
  lemma RoundHalfEvenMonotone(x: real, y: real)
    requires x <= y
    ensures RoundHalfEven(x) <= RoundHalfEven(y)
  {
  }

  /** An integer-valued real. */
  predicate IsWhole(r: real) {
    r.Floor as real == r
  }

  /** `round(x, 1) if x < 10 else int(round(x))`, the display rule of the solver. */
  function RoundRule(x: real): (r: real)
    ensures x < 10.0 ==> IsWhole(r * 10.0) && -0.05 <= r - x <= 0.05
    ensures 10.0 <= x ==> IsWhole(r) && -0.5 <= r - x <= 0.5
    ensures 0.0 <= x ==> 0.0 <= r
  {
    if x < 10.0 then RoundHalfEven(x * 10.0) as real / 10.0
    else RoundHalfEven(x) as real
  }

  /** The three boundary cases of the display rule: 9.96 shows as 10.0, 10.0 as 10, 9.949 as 9.9. */
  lemma RoundRuleBoundaries()
    ensures RoundRule(9.96) == 10.0
    ensures RoundRule(10.0) == 10.0
    ensures RoundRule(9.949) == 9.9
  {
    assert RoundHalfEven(99.6) == 100;
    assert RoundHalfEven(99.49) == 99;
  }
}
