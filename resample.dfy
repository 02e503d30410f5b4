/**
 * The linear-interpolation resampler of `src/audio/resample.ts`.
 *
 * The source works in floating point: `ratio = toRate / fromRate`, the source
 * position of output sample `i` is `i / ratio`, and the interpolated value is
 * rounded with `Math.round`. Here the same quantities are exact: the source
 * position is the rational `i * fromRate / toRate`, so its floor is the integer
 * quotient `(i * fromRate) / toRate` and its fractional part is
 * `((i * fromRate) % toRate) / toRate`; `Math.round(x)` is `floor(x + 1/2)`.
 */
module Resample {
  import opened Arith
  import opened Pcm

  function Min(a: int, b: int): int { if a <= b then a else b }
  function Max(a: int, b: int): int { if a >= b then a else b }

  /** `Math.max(1, Math.floor(inputSamples * ratio))`. */
  function OutputCount(n: nat, fromRate: pos, toRate: pos): nat
  {
    Max(1, n * toRate / fromRate)
  }

  /**
   * The output has the whole number of samples that `n` input samples span
   * at the new rate, and at least one.
   */
  lemma OutputCountIsFloor(n: nat, fromRate: pos, toRate: pos)
    ensures OutputCount(n, fromRate, toRate) >= 1
    ensures n * toRate >= fromRate ==> IsFloor(OutputCount(n, fromRate, toRate), n * toRate, fromRate)
    ensures n * toRate < fromRate ==> OutputCount(n, fromRate, toRate) == 1
  {
    DivIsFloor(n * toRate, fromRate);
  }

  /** `Math.floor(i / ratio)`: the input sample at or before output sample `i`. */
  function SourceIndex(i: nat, fromRate: pos, toRate: pos): nat
  {
    i * fromRate / toRate
  }

  /** The numerator of the fractional part of `i / ratio`, over the denominator `toRate`. */
  function FracNumerator(i: nat, fromRate: pos, toRate: pos): nat
  {
    i * fromRate % toRate
  }

  /**
   * Output sample `i` sits at source position `i * fromRate / toRate`:
   * `SourceIndex` is its whole part and `FracNumerator / toRate` the
   * fraction beyond it, which is less than one.
   */
  lemma SourcePosition(i: nat, fromRate: pos, toRate: pos)
    ensures IsFloor(SourceIndex(i, fromRate, toRate), i * fromRate, toRate)
    ensures FracNumerator(i, fromRate, toRate) < toRate
    ensures SourceIndex(i, fromRate, toRate) * toRate + FracNumerator(i, fromRate, toRate) == i * fromRate
  {
    DivIsFloor(i * fromRate, toRate);
  }

  /**
   * `Math.round(num / den)`: the integer nearest to `num / den`, halves
   * rounding up, that is `r - 1/2 <= num / den < r + 1/2`.
   */
  function RoundHalfUp(num: int, den: pos): (r: int)
    ensures 2 * den * r - den <= 2 * num < 2 * den * r + den
  {
    DivIsFloor(2 * num + den, 2 * den);
    (2 * num + den) / (2 * den)
  }

  /**
   * `Math.round(a + frac * (b - a))` with `frac = rem / den`: the integer
   * nearest to the point `rem / den` of the way from `a` to `b`, halves
   * rounding up.
   */
  function Lerp(a: int, b: int, rem: nat, den: pos): (r: int)
    ensures 2 * den * r - den <= 2 * (den * a + rem * (b - a)) < 2 * den * r + den
  {
    RoundHalfUp(den * a + rem * (b - a), den)
  }

  /** Every input index the loop reads is in range, so `input[srcIndex]` is never out of bounds. */
  lemma SourceIndexInRange(n: nat, fromRate: pos, toRate: pos, i: nat)
    requires n > 0 && i < OutputCount(n, fromRate, toRate)
    ensures SourceIndex(i, fromRate, toRate) < n
  {
    if i > 0 {
      var k := n * toRate / fromRate;
      assert i < k;
      assert k * fromRate <= n * toRate;
      MulLess(i, k, fromRate);
      assert i * fromRate < n * toRate;
      DivLess(i * fromRate, toRate, n);
    }
  }

  lemma MulLess(a: int, b: int, c: pos)
    requires a < b
    ensures a * c < b * c
  {
  }

  lemma DivLess(x: nat, d: pos, n: nat)
    requires x < n * d
    ensures x / d < n
  {
  }

  /**
   * Interpolating between `a` and `b` at `rem / den` (with `0 <= rem < den`)
   * and rounding stays between `a` and `b`, and is exactly `a` when `rem == 0`.
   */
  lemma {:induction false} InterpolationBetween(a: int, b: int, rem: nat, den: pos)
    requires rem < den
    ensures Min(a, b) <= Lerp(a, b, rem, den) <= Max(a, b)
    ensures rem == 0 ==> Lerp(a, b, rem, den) == a
  {
    if a <= b {
      LerpRising(a, b, rem, den);
    } else {
      LerpFalling(a, b, rem, den);
    }
    if rem == 0 {
      LerpAtZero(a, b, den);
    }
  }

  /** Rising segment: the rounded value lies in `a..b`. */
  lemma LerpRising(a: int, b: int, rem: nat, den: pos)
    requires rem < den && a <= b
    ensures a <= Lerp(a, b, rem, den) <= b
  {
    var d := b - a;
    var t := rem * d;
    var da := den * a;
    var num := 2 * (da + t) + den;
    MulMono(rem, den, d);
    var dd := den * d;
    assert 0 <= t <= dd;
    assert a * (2 * den) == 2 * da;
    assert (a + d + 1) * (2 * den) == 2 * da + 2 * dd + 2 * den;
    Bracket(num, 2 * den, a, a + d);
  }

  /** Falling segment: the rounded value lies in `b..a`. */
  lemma LerpFalling(a: int, b: int, rem: nat, den: pos)
    requires rem < den && b < a
    ensures b <= Lerp(a, b, rem, den) <= a
  {
    var d := b - a;
    var t := rem * d;
    var da := den * a;
    var num := 2 * (da + t) + den;
    MulMono(rem, den, -d);
    var dd := den * d;
    assert dd <= t <= 0;
    assert (a + d) * (2 * den) == 2 * da + 2 * dd;
    assert (a + 1) * (2 * den) == 2 * da + 2 * den;
    Bracket(num, 2 * den, a + d, a);
  }

  /** At a whole source position the rounded value is the left sample itself. */
  lemma LerpAtZero(a: int, b: int, den: pos)
    ensures Lerp(a, b, 0, den) == a
  {
    var da := den * a;
    assert a * (2 * den) == 2 * da;
    assert (a + 1) * (2 * den) == 2 * da + 2 * den;
    Bracket(2 * da + den, 2 * den, a, a);
  }

  /** When `lo * d <= n < (hi + 1) * d`, the quotient `n / d` lies in `lo..hi`. */
  lemma Bracket(n: int, d: pos, lo: int, hi: int)
    requires lo * d <= n < (hi + 1) * d
    ensures lo <= n / d <= hi
  {
    var q := n / d;
    assert q * d <= n < q * d + d;
    if q < lo {
      MulMono(q + 1, lo, d);
    } else if q > hi {
      MulMono(hi + 1, q, d);
    }
  }

  /**
   * Output sample `i`: the bracketing input samples are `srcIndex` and
   * `srcNext = min(n - 1, srcIndex + 1)`, the value is interpolated between
   * them and rounded. It lies between the two bracketing samples, so it is a
   * 16-bit sample; when the source position is a whole number it is that
   * input sample exactly.
   */
  function Interpolated(s: seq<int16>, fromRate: pos, toRate: pos, i: nat): (v: int16)
    requires |s| > 0 && i < OutputCount(|s|, fromRate, toRate)
    ensures SourceIndex(i, fromRate, toRate) < |s|
    ensures var idx := SourceIndex(i, fromRate, toRate);
            var next := Min(|s| - 1, idx + 1);
            Min(s[idx], s[next]) <= v <= Max(s[idx], s[next])
    ensures FracNumerator(i, fromRate, toRate) == 0 ==> v == s[SourceIndex(i, fromRate, toRate)]
  {
    SourceIndexInRange(|s|, fromRate, toRate, i);
    var idx := SourceIndex(i, fromRate, toRate);
    var next := Min(|s| - 1, idx + 1);
    var rem := FracNumerator(i, fromRate, toRate);
    var a, b := s[idx], s[next];
    InterpolationBetween(a, b, rem, toRate);
    Lerp(a, b, rem, toRate)
  }

  /** The samples the resampler produces from `s` when the rates differ. */
  function Resampled(s: seq<int16>, fromRate: pos, toRate: pos): (r: seq<int16>)
    ensures |s| == 0 ==> r == []
    ensures |s| > 0 ==> |r| == OutputCount(|s|, fromRate, toRate) >= 1
    ensures |s| > 0 ==> forall i :: 0 <= i < |r| ==> r[i] == Interpolated(s, fromRate, toRate, i)
  {
    if |s| == 0 then []
    else
      seq(OutputCount(|s|, fromRate, toRate),
          i requires 0 <= i < OutputCount(|s|, fromRate, toRate) => Interpolated(s, fromRate, toRate, i))
  }

  /** The bytes `resampleBuffer` returns. */
  function ResampledBytes(buffer: seq<byte>, fromRate: pos, toRate: pos): (r: seq<byte>)
    requires fromRate != toRate ==> |buffer| % 2 == 0
    ensures fromRate == toRate ==> r == buffer
    ensures fromRate != toRate ==> |r| % 2 == 0 && Samples(r) == Resampled(Samples(buffer), fromRate, toRate)
    ensures fromRate != toRate && |buffer| > 0 ==> |r| == 2 * OutputCount(|buffer| / 2, fromRate, toRate)
    ensures |buffer| == 0 ==> r == []
  {
    if fromRate == toRate then buffer
    else
      var r := FromSamples(Resampled(Samples(buffer), fromRate, toRate));
      SamplesOfFromSamples(Resampled(Samples(buffer), fromRate, toRate));
      r
  }

  /**
   * `resampleBuffer`: the input itself when the rates agree, an empty buffer
   * for an input with no samples, and otherwise a freshly written buffer of
   * `max(1, floor(n * toRate / fromRate))` samples, each interpolated from
   * the input.
   */
  method ResampleBuffer(buffer: seq<byte>, fromRate: pos, toRate: pos) returns (output: seq<byte>)
    requires fromRate != toRate ==> |buffer| % 2 == 0
    ensures output == ResampledBytes(buffer, fromRate, toRate)
  {
    if fromRate == toRate {
      return buffer;
    }
    var inputSamples := |buffer| / 2;
    if inputSamples == 0 {
      return [];
    }
    var outputSamples := OutputCount(inputSamples, fromRate, toRate);
    var input := Samples(buffer);
    ghost var expected := Resampled(input, fromRate, toRate);
    var out := new byte[2 * outputSamples];
    for i := 0 to outputSamples
      invariant forall k :: 0 <= k < i ==> ReadInt16LE(out[2 * k], out[2 * k + 1]) == expected[k]
    {
      var value := OutputSample(input, fromRate, toRate, i);
      var bytes := Int16LE(value);
      out[2 * i] := bytes[0];
      out[2 * i + 1] := bytes[1];
    }
    output := out[..];
    WrittenIsResampled(buffer, fromRate, toRate, output);
  }

  /** A buffer holding every interpolated sample, in order, is the resampled buffer. */
  lemma WrittenIsResampled(buffer: seq<byte>, fromRate: pos, toRate: pos, output: seq<byte>)
    requires fromRate != toRate && |buffer| % 2 == 0 && |buffer| > 0
    requires |output| == 2 * OutputCount(|buffer| / 2, fromRate, toRate)
    requires forall k :: 0 <= k < |output| / 2 ==>
               ReadInt16LE(output[2 * k], output[2 * k + 1]) == Resampled(Samples(buffer), fromRate, toRate)[k]
    ensures output == ResampledBytes(buffer, fromRate, toRate)
  {
    SamplesOfWritten(output, Resampled(Samples(buffer), fromRate, toRate));
    SamplesInjective(output, ResampledBytes(buffer, fromRate, toRate));
  }

  /**
   * The body of the source's loop for output sample `i` (bracket, interpolate,
   * round), computed step by step and proved equal to `Interpolated`.
   */
  method OutputSample(input: seq<int16>, fromRate: pos, toRate: pos, i: nat) returns (value: int16)
    requires |input| > 0 && i < OutputCount(|input|, fromRate, toRate)
    ensures value == Interpolated(input, fromRate, toRate, i)
  {
    SourceIndexInRange(|input|, fromRate, toRate, i);
    var srcIndex := SourceIndex(i, fromRate, toRate);
    var srcNext := Min(|input| - 1, srcIndex + 1);
    var frac := FracNumerator(i, fromRate, toRate);
    var a, b := input[srcIndex], input[srcNext];
    InterpolationBetween(a, b, frac, toRate);
    value := Lerp(a, b, frac, toRate);
  }

  /** Resampling no samples gives none. */
  lemma ResampledOfEmpty(fromRate: pos, toRate: pos)
    ensures Resampled([], fromRate, toRate) == []
  {
  }

  /** One input sample always yields at least one output sample. */
  lemma {:induction false} ResampledOfOneSample(x: int16, fromRate: pos, toRate: pos)
    ensures |Resampled([x], fromRate, toRate)| >= 1
    ensures Resampled([x], fromRate, toRate)[0] == x
  {
    assert SourceIndex(0, fromRate, toRate) == 0;
  }

  /** Every output sample is bounded by the extreme input samples. */
  lemma {:induction false} ResampledWithinInputRange(s: seq<int16>, fromRate: pos, toRate: pos, lo: int, hi: int)
    requires forall j :: 0 <= j < |s| ==> lo <= s[j] <= hi
    ensures forall i :: 0 <= i < |Resampled(s, fromRate, toRate)| ==> lo <= Resampled(s, fromRate, toRate)[i] <= hi
  {
    var r := Resampled(s, fromRate, toRate);
    forall i | 0 <= i < |r|
      ensures lo <= r[i] <= hi
    {
      var v := Interpolated(s, fromRate, toRate, i);
      var idx := SourceIndex(i, fromRate, toRate);
      var next := Min(|s| - 1, idx + 1);
      assert lo <= s[idx] <= hi && lo <= s[next] <= hi;
      assert r[i] == v;
    }
  }

  lemma DivExact(x: int, d: pos)
    ensures (x * d) / d == x && (x * d) % d == 0
  {
    assert (x + 1) * d == x * d + d;
    Bracket(x * d, d, x, x);
  }

  /**
   * Where the source position is a whole number the resampler copies the
   * input sample; in particular upsampling by an integer factor `k`
   * reproduces input sample `j` at output position `k * j`.
   */
  lemma {:induction false} UpsampleKeepsInputSamples(s: seq<int16>, fromRate: pos, k: pos, j: nat)
    requires j < |s|
    ensures k * j < |Resampled(s, fromRate, k * fromRate)|
    ensures Resampled(s, fromRate, k * fromRate)[k * j] == s[j]
  {
    var toRate := k * fromRate;
    var n := |s|;
    assert n * toRate == (n * k) * fromRate;
    DivExact(n * k, fromRate);
    assert OutputCount(n, fromRate, toRate) == Max(1, n * k);
    MulLess(j, n, k);
    assert k * j < n * k;
    assert (k * j) * fromRate == j * toRate;
    DivExact(j, toRate);
    assert SourceIndex(k * j, fromRate, toRate) == j;
    assert FracNumerator(k * j, fromRate, toRate) == 0;
    var v := Interpolated(s, fromRate, toRate, k * j);
  }
}
