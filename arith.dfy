/**
 * Integer facts shared by the codec, the resampler and the energy detector:
 * positive integers, absolute value, and how integer division relates to the
 * floor of a quotient.
 */
module Arith {

  type pos = x: int | x > 0 witness 1

  /** `Math.abs` on integers. */
  function Abs(x: int): nat { if x < 0 then -x else x }

  /** Multiplying by a non-negative factor keeps the order. */
  lemma MulMono(a: int, b: int, d: int)
    requires a <= b && d >= 0
    ensures a * d <= b * d
  {
  }

  /** `q` is the floor of `x / d`. */
  predicate IsFloor(q: int, x: int, d: pos)
  {
    q * d <= x < (q + 1) * d
  }

  /** Integer division by a positive divisor is the floor. */
  lemma DivIsFloor(x: int, d: pos)
    ensures IsFloor(x / d, x, d)
  {
  }

  /** Conversely, the bracket `q * d <= n < q * d + d` pins the quotient down to `q`. */
  lemma DivIs(n: int, d: pos, q: int)
    requires q * d <= n < q * d + d
    ensures n / d == q
  {
    var q' := n / d;
    if q' < q {
      MulMono(q' + 1, q, d);
    } else if q' > q {
      MulMono(q + 1, q', d);
    }
  }
}
