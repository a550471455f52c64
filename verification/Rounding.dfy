/** The rounding functions of Python's math module and of numpy, over the reals. */
module Rounding {

  function Ceil(x: real): int { -((-x).Floor) }

  /** `round` and `np.rint`: the nearest integer, and the even one of two. */
  function RoundHalfEven(x: real): int {
    var below := x.Floor;
    var fraction := x - below as real;
    if fraction < 0.5 then below
    else if fraction > 0.5 then below + 1
    else if below % 2 == 0 then below
    else below + 1
  }

  function Abs(x: real): real { if x < 0.0 then -x else x }

  /** A quotient in terms of the product it undoes. */
  lemma Quotient(n: real, d: real, q: real)
    requires d != 0.0
    ensures n / d == q <==> q * d == n
  {
  }

  lemma RoundIsNearest(x: real)
    ensures Abs(RoundHalfEven(x) as real - x) <= 0.5
  {
  }

  lemma RoundInteger(n: int)
    ensures RoundHalfEven(n as real) == n
  {
  }

  /** A value half way between two integers goes to the even one. */
  lemma HalvesToEven(n: int)
    ensures RoundHalfEven(n as real + 0.5) % 2 == 0
    ensures RoundHalfEven(n as real + 0.5) in {n, n + 1}
  {
  }

  lemma RoundOdd(x: real)
    ensures RoundHalfEven(-x) == -RoundHalfEven(x)
  {
  }

}
