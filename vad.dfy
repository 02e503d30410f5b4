/**
 * The energy detector of `src/audio/vad.ts`.
 *
 * `computeRms` returns `Math.sqrt(sum / sampleCount)`. The session only
 * compares that value with non-negative thresholds, and for `T >= 0` the test
 * `sqrt(m) >= T` is `m >= T * T`, so the model computes the mean square
 * exactly (a real number) and leaves the square root out.
 */
module Vad {
  import opened Arith
  import opened Pcm

  function Square(x: int): nat { x * x }

  /** The sum of the squared samples: 0 for no samples, and at least the square of any one of them. */
  function SumSquares(s: seq<int16>): (r: nat)
    ensures |s| == 0 ==> r == 0
    ensures forall i :: 0 <= i < |s| ==> Square(s[i]) <= r
  {
    if |s| == 0 then 0 else SumSquares(s[..|s| - 1]) + Square(s[|s| - 1])
  }

  /** The mean of the squared samples, 0 for no samples: the square of the RMS. */
  function MeanSquare(s: seq<int16>): (m: real)
    ensures m >= 0.0
  {
    if |s| == 0 then 0.0 else SumSquares(s) as real / |s| as real
  }

  /**
   * `rms >= threshold`, for a non-negative threshold, stated on the mean
   * square; only a frame with some energy passes a positive threshold.
   */
  predicate RmsAtLeast(meanSquare: real, threshold: nat)
    ensures RmsAtLeast(meanSquare, threshold) && threshold > 0 ==> meanSquare > 0.0
  {
    meanSquare >= (threshold * threshold) as real
  }

  /**
   * The test on the mean square is the test on its square root: for the
   * non-negative `root` with `root * root == meanSquare`, `RmsAtLeast` holds
   * exactly when `root >= threshold`.
   */
  lemma RmsAtLeastOfRoot(root: real, threshold: nat)
    requires root >= 0.0
    ensures RmsAtLeast(root * root, threshold) <==> root >= threshold as real
  {
    var t := threshold as real;
    assert (threshold * threshold) as real == t * t;
    if root >= t {
      assert root * root >= t * root >= t * t;
    } else {
      assert root * root <= t * root;
      assert t * root < t * t;
    }
  }

  /**
   * `computeRms`: 0 for an empty buffer; otherwise the loop sums the squares
   * of the `Int16Array` view and divides by the sample count.
   */
  method ComputeRms(buffer: seq<byte>) returns (meanSquare: real)
    requires |buffer| % 2 == 0
    ensures meanSquare == MeanSquare(Samples(buffer))
  {
    var sampleCount := |buffer| / 2;
    if sampleCount == 0 {
      return 0.0;
    }
    var view := Samples(buffer);
    var sum := 0;
    for i := 0 to |view|
      invariant sum == SumSquares(view[..i])
    {
      assert view[..i + 1][..i] == view[..i];
      sum := sum + Square(view[i]);
    }
    assert view[..|view|] == view;
    meanSquare := sum as real / sampleCount as real;
  }

  /** The sum of squares is zero exactly when every sample is zero. */
  lemma {:induction false} SumSquaresZeroIff(s: seq<int16>)
    ensures SumSquares(s) == 0 <==> forall i :: 0 <= i < |s| ==> s[i] == 0
  {
    if |s| > 0 {
      var init := s[..|s| - 1];
      SumSquaresZeroIff(init);
      assert forall i :: 0 <= i < |init| ==> init[i] == s[i];
      if s[|s| - 1] != 0 {
        SquarePositive(s[|s| - 1]);
      }
    }
  }

  lemma SquarePositive(x: int)
    requires x != 0
    ensures Square(x) > 0
  {
  }

  /** An all-zero frame (and the empty frame) has energy exactly 0, and no other frame does. */
  lemma MeanSquareZeroIff(s: seq<int16>)
    ensures MeanSquare(s) == 0.0 <==> forall i :: 0 <= i < |s| ==> s[i] == 0
  {
    SumSquaresZeroIff(s);
  }

  /** Each squared sample is at most the largest squared magnitude `bound * bound`. */
  lemma {:induction false} SumSquaresBounded(s: seq<int16>, bound: nat)
    requires forall i :: 0 <= i < |s| ==> Abs(s[i]) <= bound
    ensures SumSquares(s) <= |s| * (bound * bound)
  {
    if |s| > 0 {
      var init := s[..|s| - 1];
      var b2 := bound * bound;
      assert SumSquares(init) <= |init| * b2 by {
        assert forall i :: 0 <= i < |init| ==> init[i] == s[i];
        SumSquaresBounded(init, bound);
      }
      assert Square(s[|s| - 1]) <= b2 by {
        SquareBounded(s[|s| - 1], bound);
      }
      assert |s| * b2 == |init| * b2 + b2;
    }
  }

  lemma SquareBounded(x: int, bound: nat)
    requires Abs(x) <= bound
    ensures Square(x) <= bound * bound
  {
    var a := Abs(x);
    assert Square(x) == a * a;
    MulLe(a, bound, a);
    MulLe(a, bound, bound);
  }

  lemma MulLe(a: nat, b: nat, c: nat)
    requires a <= b
    ensures c * a <= c * b
  {
  }

  /**
   * The RMS never exceeds the largest sample magnitude: if no sample has a
   * magnitude above `bound` then the mean square is at most `bound * bound`. With
   * 16-bit samples the RMS is at most 32768.
   */
  lemma MeanSquareBounded(s: seq<int16>, bound: nat)
    requires forall i :: 0 <= i < |s| ==> Abs(s[i]) <= bound
    ensures MeanSquare(s) <= (bound * bound) as real
  {
    if |s| > 0 {
      var n := |s| as real;
      var b2 := (bound * bound) as real;
      assert SumSquares(s) as real <= n * b2 by {
        SumSquaresBounded(s, bound);
        assert (|s| * (bound * bound)) as real == n * b2;
      }
      RealQuotientAtMost(SumSquares(s) as real, n, b2);
    }
  }

  /** `x / n <= b` over the reals when `x <= n * b` and `n > 0`. */
  lemma RealQuotientAtMost(x: real, n: real, b: real)
    requires n > 0.0 && x <= n * b
    ensures x / n <= b
  {
    assert (x / n) * n == x;
  }

  /**
   * The comparison the session makes, `rms >= threshold`, in integers: false
   * for an empty frame unless the threshold is 0, and otherwise
   * `sum >= threshold * threshold * n`.
   */
  lemma RmsAtLeastIff(s: seq<int16>, threshold: nat)
    ensures RmsAtLeast(MeanSquare(s), threshold)
        <==> (if |s| == 0 then threshold == 0 else SumSquares(s) >= threshold * threshold * |s|)
  {
    if |s| > 0 {
      var t := threshold * threshold;
      RealQuotientAtLeast(SumSquares(s), |s|, t);
    }
  }

  /** `x / n >= t` over the reals is `x >= t * n` over the integers, for `n > 0`. */
  lemma RealQuotientAtLeast(x: nat, n: nat, t: nat)
    requires n > 0
    ensures x as real / n as real >= t as real <==> x >= t * n
  {
    var q := x as real / n as real;
    assert q * n as real == x as real;
    assert (t * n) as real == t as real * n as real;
    if q >= t as real {
      assert q * n as real >= t as real * n as real;
    } else {
      assert q * n as real < t as real * n as real;
    }
  }
}
