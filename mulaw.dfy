/**
 * The mu-law codec of `src/audio/mulaw.ts`: 8-bit mu-law codes to 16-bit
 * little-endian PCM and back, using the sign / 3-bit exponent / 4-bit
 * mantissa layout and the bias 0x84 of the mu-law companding in ITU-T
 * Recommendation G.711.
 *
 * The bit operations of the source act on small non-negative integers and are
 * written here as their integer equivalents: `~v & 0xff` is `255 - v`,
 * `v >> k` is `v / 2^k`, `v & 0x0f` is `v % 16`, `x << k` is `x * 2^k`, and
 * or-ing fields that occupy disjoint bits is adding them.
 *
 * The encoder is modelled as written. It picks the exponent as the least `e`
 * with `biased <= 0x1F << (e + 3)`, which is not the G.711 segment: a biased
 * magnitude just below a power of two gets the next exponent. The lemmas at
 * the end of this module say exactly where the round trip is within half a
 * quantisation step and where it is not.
 */
module MuLaw {
  import opened Arith
  import opened Pcm

  const MU_LAW_BIAS: nat := 0x84
  const MU_LAW_CLIP: nat := 32635

  function Pow2(n: nat): (p: nat)
    ensures p >= 1
  {
    if n == 0 then 1 else 2 * Pow2(n - 1)
  }

  // ---------------------------------------------------------------- decoding

  /** The bit-inverted code, whose fields are sign (bit 7), exponent (bits 4-6) and mantissa (bits 0-3). */
  function Inverted(code: byte): byte { 255 - code }

  function SignBit(v: byte): bool { v >= 128 }
  function ExponentField(v: byte): nat { (v / 16) % 8 }
  function MantissaField(v: byte): nat { v % 16 }

  /** Magnitude of a decoded sample: `(mantissa << (exponent + 3)) + (BIAS << exponent) - BIAS`. */
  function DecodedMagnitude(exponent: nat, mantissa: nat): (m: int)
    ensures m + MU_LAW_BIAS == (8 * mantissa + MU_LAW_BIAS) * Pow2(exponent)
    ensures m >= 8 * mantissa
  {
    var E := Pow2(exponent);
    Pow2Shift(exponent, 3);
    assert Pow2(3) == 8;
    assert (8 * mantissa + MU_LAW_BIAS) * E == 8 * mantissa * E + MU_LAW_BIAS * E;
    MulMono(1, E, 8 * mantissa + MU_LAW_BIAS);
    mantissa * Pow2(exponent + 3) + MU_LAW_BIAS * E - MU_LAW_BIAS
  }

  /** The largest magnitude any code decodes to: exponent 7, mantissa 15. */
  lemma {:induction false} DecodedMagnitudeBounds(exponent: nat, mantissa: nat)
    requires exponent <= 7 && mantissa <= 15
    ensures 0 <= DecodedMagnitude(exponent, mantissa) <= 32124
    ensures DecodedMagnitude(exponent, mantissa) == 0 <==> exponent == 0 && mantissa == 0
  {
    assert Pow2(0) == 1 && Pow2(1) == 2 && Pow2(2) == 4 && Pow2(3) == 8;
    assert Pow2(4) == 16 && Pow2(5) == 32 && Pow2(6) == 64 && Pow2(7) == 128;
    assert Pow2(8) == 256 && Pow2(9) == 512 && Pow2(10) == 1024;
  }

  /**
   * `muLawToLinear`: the linear sample a code stands for. Every result fits
   * in 16 bits, so `writeInt16LE` never throws; it is negative exactly when
   * the inverted sign bit is set and the magnitude is not zero, and it is
   * zero exactly for the two codes 0xFF and 0x7F.
   */
  function MuLawToLinear(code: byte): (sample: int16)
    ensures -32124 <= sample <= 32124
    ensures sample < 0 <==> SignBit(Inverted(code)) && code != 0x7F
    ensures sample == 0 <==> code == 0xFF || code == 0x7F
  {
    var v := Inverted(code);
    var magnitude := DecodedMagnitude(ExponentField(v), MantissaField(v));
    DecodedMagnitudeBounds(ExponentField(v), MantissaField(v));
    FieldsZero(v);
    if SignBit(v) then -magnitude else magnitude
  }

  /** Exponent and mantissa are both zero only for the two inverted codes 0x00 and 0x80. */
  lemma FieldsZero(v: byte)
    ensures ExponentField(v) == 0 && MantissaField(v) == 0 <==> v == 0 || v == 128
  {
    assert v == 128 * (v / 128) + 16 * ExponentField(v) + MantissaField(v);
  }

  /** The samples `decodeMuLaw` writes: one per code, in order. */
  function DecodedSamples(codes: seq<byte>): (s: seq<int16>)
    ensures |s| == |codes|
    ensures forall i :: 0 <= i < |codes| ==> s[i] == MuLawToLinear(codes[i])
  {
    seq(|codes|, i requires 0 <= i < |codes| => MuLawToLinear(codes[i]))
  }

  /**
   * `decodeMuLaw`: fills a buffer of twice the input length, writing the
   * sample of code `i` at byte offset `2 * i`.
   */
  method DecodeMuLaw(codes: seq<byte>) returns (pcm: seq<byte>)
    ensures |pcm| == 2 * |codes|
    ensures forall i :: 0 <= i < |codes| ==> pcm[2 * i..2 * i + 2] == Int16LE(MuLawToLinear(codes[i]))
    ensures Samples(pcm) == DecodedSamples(codes)
    ensures pcm == FromSamples(DecodedSamples(codes))
  {
    var decoded := new byte[2 * |codes|];
    for i := 0 to |codes|
      invariant forall k :: 0 <= k < i ==> decoded[2 * k..2 * k + 2] == Int16LE(MuLawToLinear(codes[k]))
    {
      var bytes := Int16LE(MuLawToLinear(codes[i]));
      decoded[2 * i] := bytes[0];
      decoded[2 * i + 1] := bytes[1];
      assert decoded[2 * i..2 * i + 2] == bytes;
    }
    pcm := decoded[..];
    forall i | 0 <= i < |codes|
      ensures Samples(pcm)[i] == DecodedSamples(codes)[i]
    {
      assert pcm[2 * i..2 * i + 2] == decoded[2 * i..2 * i + 2];
      assert pcm[2 * i] == pcm[2 * i..2 * i + 2][0] && pcm[2 * i + 1] == pcm[2 * i..2 * i + 2][1];
    }
    FromSamplesOfSamples(pcm);
  }

  // ---------------------------------------------------------------- encoding

  /** The clipped magnitude plus the bias: `min(|sample|, CLIP) + BIAS`. */
  function Biased(sample: int16): (b: nat)
    ensures MU_LAW_BIAS <= b <= MU_LAW_CLIP + MU_LAW_BIAS
    ensures b <= 32767
  {
    (if Abs(sample) > MU_LAW_CLIP then MU_LAW_CLIP else Abs(sample)) + MU_LAW_BIAS
  }

  /**
   * The encoder's test for exponent `e`: `biased <= 0x1F << (e + 3)`. Every
   * magnitude up to `0x1F << 3` passes it for any exponent, and none above
   * `0x1F << 10` passes it for an exponent the search tries.
   */
  predicate Fits(biased: int, e: nat)
    ensures biased <= 0xF8 ==> Fits(biased, e)
    ensures e <= 7 && Fits(biased, e) ==> biased <= 0x7C00
  {
    Pow2Shift(3, e);
    assert Pow2(3) == 8;
    if e <= 7 then
      Pow2Shift(e + 3, 7 - e);
      assert Pow2(10) == 1024;
      MulMono(1, Pow2(7 - e), Pow2(e + 3));
      biased <= 0x1F * Pow2(e + 3)
    else
      biased <= 0x1F * Pow2(e + 3)
  }

  /**
   * The exponent the encoder's search settles on, searching from `from`:
   * the least `e` in `from..7` that fits, and 7 when none does.
   */
  function ExponentFrom(biased: int, from: nat): (e: nat)
    requires from <= 8
    ensures from <= e <= 7 || (from == 8 && e == 7)
    ensures forall k :: from <= k < e ==> !Fits(biased, k)
    ensures e < 7 ==> Fits(biased, e)
    ensures e == 7 && from <= 7 && !Fits(biased, 7) ==> forall k :: from <= k <= 7 ==> !Fits(biased, k)
    decreases 8 - from
  {
    if from == 8 then 7
    else if Fits(biased, from) then from
    else ExponentFrom(biased, from + 1)
  }

  /** The exponent the encoder writes for a biased magnitude. */
  function Exponent(biased: int): (e: nat)
    ensures e <= 7
    ensures forall k :: 0 <= k < e ==> !Fits(biased, k)
    ensures e < 7 ==> Fits(biased, e)
  {
    ExponentFrom(biased, 0)
  }

  /** The exponent is the only one that is the least fit, or 7 when none fits. */
  lemma ExponentUnique(biased: int, e: nat)
    requires e <= 7
    requires forall k :: 0 <= k < e ==> !Fits(biased, k)
    requires e < 7 ==> Fits(biased, e)
    ensures e == Exponent(biased)
  {
  }

  /** The mantissa the encoder writes: `(biased >> (exponent + 3)) & 0x0F`. */
  function Mantissa(biased: nat, e: nat): (m: nat)
    ensures m <= 15
  {
    (biased / Pow2(e + 3)) % 16
  }

  /**
   * `linearToMuLaw` as a value: sign 0x80 for negative samples, the chosen
   * exponent in bits 4-6, the mantissa in bits 0-3, all bits inverted.
   */
  function MuLawCode(sample: int16): (code: byte)
    ensures SignBit(Inverted(code)) <==> sample < 0
    ensures ExponentField(Inverted(code)) == Exponent(Biased(sample))
    ensures MantissaField(Inverted(code)) == Mantissa(Biased(sample), Exponent(Biased(sample)))
  {
    var b := Biased(sample);
    var e := Exponent(b);
    255 - Packed(sample < 0, e, Mantissa(b, e))
  }

  /**
   * The un-inverted code byte: sign in bit 7, exponent in bits 4-6, mantissa
   * in bits 0-3. The fields occupy disjoint bits, so each reads back what was
   * packed.
   */
  function Packed(negative: bool, exponent: nat, mantissa: nat): (v: byte)
    requires exponent <= 7 && mantissa <= 15
    ensures SignBit(v) == negative
    ensures ExponentField(v) == exponent
    ensures MantissaField(v) == mantissa
  {
    var high := (if negative then 8 else 0) + exponent;
    DivIs(16 * high + mantissa, 16, high);
    16 * high + mantissa
  }

  /**
   * `linearToMuLaw`: clip, bias, search the exponent with a loop that stops
   * at the first fit, then pack and invert.
   */
  method LinearToMuLaw(sample: int16) returns (code: byte)
    ensures code == MuLawCode(sample)
  {
    var sign := if sample < 0 then 0x80 else 0x00;
    var pcm := Abs(sample);
    if pcm > MU_LAW_CLIP {
      pcm := MU_LAW_CLIP;
    }
    pcm := pcm + MU_LAW_BIAS;
    var exponent := 7;
    var exp := 0;
    while exp < 8
      invariant 0 <= exp <= 8
      invariant exponent == 7
      invariant forall k :: 0 <= k < exp ==> !Fits(pcm, k)
      decreases 8 - exp
    {
      if Fits(pcm, exp) {
        exponent := exp;
        break;
      }
      exp := exp + 1;
    }
    assert pcm == Biased(sample);
    ExponentUnique(pcm, exponent);
    var mantissa := Mantissa(pcm, exponent);
    assert sign + exponent * 16 + mantissa == Packed(sample < 0, exponent, mantissa);
    code := 255 - (sign + exponent * 16 + mantissa);
  }

  /** The codes `encodeMuLaw` writes for an even-length PCM buffer: one per sample, in order. */
  function EncodedCodes(pcm: seq<byte>): (codes: seq<byte>)
    requires |pcm| % 2 == 0
    ensures |codes| == |pcm| / 2
    ensures forall i :: 0 <= i < |codes| ==> codes[i] == MuLawCode(Samples(pcm)[i])
  {
    var s := Samples(pcm);
    seq(|s|, i requires 0 <= i < |s| => MuLawCode(s[i]))
  }

  /** `encodeMuLaw`: one code byte per 16-bit sample of the input, in order. */
  method EncodeMuLaw(pcm: seq<byte>) returns (codes: seq<byte>)
    requires |pcm| % 2 == 0
    ensures |codes| == |pcm| / 2
    ensures forall i :: 0 <= i < |codes| ==> codes[i] == MuLawCode(ReadInt16LE(pcm[2 * i], pcm[2 * i + 1]))
    ensures codes == EncodedCodes(pcm)
  {
    var encoded := new byte[|pcm| / 2];
    var samples := Samples(pcm);
    for i := 0 to |samples|
      invariant forall k :: 0 <= k < i ==> encoded[k] == MuLawCode(samples[k])
    {
      encoded[i] := LinearToMuLaw(samples[i]);
    }
    codes := encoded[..];
  }

  // ---------------------------------------------------------------- round trip

  /** Zero encodes to 0xFF, which decodes to zero: zero-padding plays as silence. */
  lemma ZeroIsSilence()
    ensures MuLawCode(0) == 0xFF
    ensures MuLawToLinear(MuLawCode(0)) == 0
  {
    assert Exponent(Biased(0)) == 0;
  }

  /** A buffer of zero bytes encodes to 0xFF codes only. */
  lemma {:induction false} ZerosEncodeToSilence(n: nat)
    requires n % 2 == 0
    ensures forall i :: 0 <= i < n / 2 ==> EncodedCodes(Zeros(n))[i] == 0xFF
  {
    SamplesOfZeros(n);
    ZeroIsSilence();
  }

  /** Decoding an encoded sample never flips its sign. */
  lemma SignPreserved(sample: int16)
    ensures sample < 0 ==> MuLawToLinear(MuLawCode(sample)) <= 0
    ensures sample >= 0 ==> MuLawToLinear(MuLawCode(sample)) >= 0
  {
  }

  /** The magnitude `MuLawToLinear(MuLawCode(x))` has, as a function of the chosen fields. */
  lemma RoundTripMagnitude(sample: int16)
    ensures Abs(MuLawToLinear(MuLawCode(sample)))
         == DecodedMagnitude(Exponent(Biased(sample)), Mantissa(Biased(sample), Exponent(Biased(sample))))
  {
    var e := Exponent(Biased(sample));
    DecodedMagnitudeBounds(e, Mantissa(Biased(sample), e));
  }

  /** `2^(e + k) == 2^k * 2^e`. */
  lemma {:induction false} Pow2Shift(e: nat, k: nat)
    ensures Pow2(e + k) == Pow2(k) * Pow2(e)
  {
    if k > 0 {
      Pow2Shift(e, k - 1);
    }
  }

  /**
   * Outside the misfit band (the biased magnitude is at least `2^(e+7)`, so
   * the mantissa keeps the bits G.711 keeps) the round trip reproduces the
   * clipped magnitude to within half a quantisation step, `2^(e+2)`.
   */
  lemma RoundTripWithinHalfStep(sample: int16)
    requires Pow2(Exponent(Biased(sample)) + 7) <= Biased(sample)
    ensures var e := Exponent(Biased(sample));
            var clipped := Biased(sample) - MU_LAW_BIAS;
            var half: int := Pow2(e + 2);
            -half < Abs(MuLawToLinear(MuLawCode(sample))) - clipped <= half
  {
    var b := Biased(sample);
    var e := Exponent(b);
    RoundTripMagnitude(sample);
    HalfStep(b, e);
  }

  lemma {:induction false} HalfStep(b: nat, e: nat)
    requires e <= 7 && Pow2(e + 7) <= b <= 32767
    requires e < 7 ==> Fits(b, e)
    ensures var half: int := Pow2(e + 2);
            -half < DecodedMagnitude(e, Mantissa(b, e)) - (b - MU_LAW_BIAS) <= half
  {
    var E := Pow2(e);
    var P := Pow2(e + 3);
    Pow2Shift(e, 2);
    Pow2Shift(e, 3);
    Pow2Shift(e, 7);
    assert e == 7 ==> E == 128 by {
      if e == 7 { assert Pow2(7) == 128; }
    }
    var q := b / P;
    QuotientInSegment(b, E, q);
    assert Mantissa(b, e) == q - 16;
  }

  /** The arithmetic behind `HalfStep`, with `E = 2^e` and the step `8 * E = 2^(e+3)`. */
  lemma QuotientInSegment(b: int, E: int, q: int)
    requires E >= 1 && q == b / (8 * E)
    requires 128 * E <= b
    requires b <= 248 * E || (E == 128 && b <= 32767)
    ensures 16 <= q <= 31
    ensures -4 * E < (q - 16) * (8 * E) + MU_LAW_BIAS * E - MU_LAW_BIAS - (b - MU_LAW_BIAS) <= 4 * E
  {
    var P := 8 * E;
    var r := b % P;
    assert b == q * P + r && 0 <= r < P;
    assert q >= 16 by {
      if q < 16 { MulMono(q + 1, 16, P); }
    }
    assert q <= 31 by {
      if q > 31 { MulMono(32, q, P); }
    }
    assert (q - 16) * P == q * P - 16 * P;
  }

  /**
   * Inside the misfit band (the biased magnitude lies strictly between
   * `31 * 2^(e+2)` and `2^(e+7)`, which happens only for `e >= 1`) the encoder
   * writes mantissa 15 one exponent too high, and the decoded magnitude
   * overshoots the clipped magnitude by more than `124 * 2^e`: far more than
   * a quantisation step.
   */
  lemma RoundTripOvershootsInBand(sample: int16)
    requires Biased(sample) < Pow2(Exponent(Biased(sample)) + 7)
    ensures var e := Exponent(Biased(sample));
            var clipped := Biased(sample) - MU_LAW_BIAS;
            && e >= 1
            && Mantissa(Biased(sample), e) == 15
            && 31 * Pow2(e + 2) < Biased(sample)
            && Abs(MuLawToLinear(MuLawCode(sample))) - clipped > 124 * Pow2(e)
  {
    var b := Biased(sample);
    var e := Exponent(b);
    RoundTripMagnitude(sample);
    Overshoot(b, e);
  }

  lemma {:induction false} Overshoot(b: nat, e: nat)
    requires e <= 7 && MU_LAW_BIAS <= b < Pow2(e + 7)
    requires forall k :: 0 <= k < e ==> !Fits(b, k)
    ensures e >= 1 && Mantissa(b, e) == 15 && 31 * Pow2(e + 2) < b
    ensures DecodedMagnitude(e, Mantissa(b, e)) - (b - MU_LAW_BIAS) > 124 * Pow2(e)
  {
    var E := Pow2(e);
    var P := Pow2(e + 3);
    Pow2Shift(e, 3);
    Pow2Shift(e, 7);
    assert e >= 1;
    Pow2Shift(e - 1, 3);
    assert Pow2(e - 1 + 3) == Pow2(e + 2);
    assert !Fits(b, e - 1);
    Pow2Shift(e, 2);
    assert 15 * P <= b < 15 * P + P;
    DivIs(b, P, 15);
  }

  /** The band is not empty: sample 117 encodes to 0xE0, which decodes to 372. */
  lemma Sample117Overshoots()
    ensures MuLawCode(117) == 0xE0
    ensures MuLawToLinear(0xE0) == 372
  {
    assert Biased(117) == 249;
    assert !Fits(249, 0) && Fits(249, 1);
    assert Exponent(249) == 1;
    assert Mantissa(249, 1) == 15;
  }
}
