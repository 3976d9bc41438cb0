/**
 Python's `round` on exact numbers: to the nearest integer, ties to even, and
 the same at a fixed number of decimals.
 */
module Rounding {

  /** `round(x)`: the nearest integer, the even one of two equally near. */
  function RoundHalfEven(x: real): (n: int)
    ensures -0.5 <= n as real - x <= 0.5
    ensures n as real - x == 0.5 || x - n as real == 0.5 ==> n % 2 == 0
  {
    var below := x.Floor;
    var rest := x - below as real;
    if rest < 0.5 then below
    else if rest > 0.5 then below + 1
    else if below % 2 == 0 then below
    else below + 1
  }

  /** The two facts above determine the rounded value. */
  lemma RoundHalfEvenUnique(x: real, n: int)
    requires -0.5 <= n as real - x <= 0.5
    requires n as real - x == 0.5 || x - n as real == 0.5 ==> n % 2 == 0
    ensures n == RoundHalfEven(x)
  {
  }

  /** `round(x, 4)`. */
  function Round4(x: real): (r: real)
    ensures -0.00005 <= r - x <= 0.00005
    ensures r * 10000.0 == (r * 10000.0).Floor as real
  {
    RoundHalfEven(x * 10000.0) as real / 10000.0
  }

  /** `round(x, 6)`. */
  function Round6(x: real): (r: real)
    ensures -0.0000005 <= r - x <= 0.0000005
    ensures r * 1000000.0 == (r * 1000000.0).Floor as real
  {
    RoundHalfEven(x * 1000000.0) as real / 1000000.0
  }

  /** Numbers that have four decimals already are kept. */
  lemma Round4Exact(n: int)
    ensures Round4(n as real / 10000.0) == n as real / 10000.0
  {
    RoundHalfEvenUnique(n as real / 10000.0 * 10000.0, n);
  }
}
