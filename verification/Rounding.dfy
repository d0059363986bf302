/** Python's `round`, on exact reals. */
module Rounding {

  /** The nearest integer, an even one when two are equally near. */
  function RoundHalfEven(x: real): int {
    var below := x.Floor;
    var rest := x - below as real;
    if rest < 0.5 then below
    else if rest > 0.5 then below + 1
    else if below % 2 == 0 then below
    else below + 1
  }

  lemma RoundIsMonotone(x: real, y: real)
    requires x <= y
    ensures RoundHalfEven(x) <= RoundHalfEven(y)
  {
    assert x.Floor <= y.Floor;
  }

  /** The result is the only integer within one half of `x`, or the even one of two. */
  lemma RoundIsNearest(x: real, n: int)
    ensures RoundHalfEven(x) == n <==>
            || (-0.5 < x - n as real < 0.5)
            || ((x - n as real == 0.5 || x - n as real == -0.5) && n % 2 == 0)
  {
    var rest := x - x.Floor as real;
    assert 0.0 <= rest < 1.0;
    assert n < x.Floor ==> n + 1 <= x.Floor;
    assert n > x.Floor + 1 ==> n >= x.Floor + 2;
  }

  lemma SignOfProduct(a: real, total: real)
    requires total > 0.0
    ensures a * total >= 0.0 <==> a >= 0.0
  {
  }
}
