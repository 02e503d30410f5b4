/**
 * Byte buffers and their little-endian 16-bit sample view.
 *
 * A Node `Buffer` is a sequence of bytes. The audio code reads it through an
 * `Int16Array` laid over the same memory (little-endian on the platforms the
 * gateway runs on) and writes samples with `writeInt16LE`. Both are modelled
 * here once, so that the codec, the resampler and the energy detector speak
 * about the same sample sequence.
 */
module Pcm {

  type byte = x: int | 0 <= x < 256
  type int16 = x: int | -32768 <= x < 32768

  /** The two bytes `writeInt16LE(v, off)` stores at `off` and `off + 1`. */
  function Int16LE(v: int16): (bs: seq<byte>)
    ensures |bs| == 2
    ensures ReadInt16LE(bs[0], bs[1]) == v
  {
    var u := if v < 0 then v + 65536 else v;
    [u % 256, u / 256]
  }

  /** The sample an `Int16Array` element holds when its two bytes are `lo`, `hi`. */
  function ReadInt16LE(lo: byte, hi: byte): (v: int16)
    ensures v < 0 <==> hi >= 128
  {
    var u := lo + 256 * hi;
    if u >= 32768 then u - 65536 else u
  }

  /** Reading two bytes back and re-writing them gives the same two bytes. */
  lemma Int16LEOfRead(lo: byte, hi: byte)
    ensures Int16LE(ReadInt16LE(lo, hi)) == [lo, hi]
  {
  }

  /** The `Int16Array` view of an even-length buffer. */
  function Samples(buf: seq<byte>): (s: seq<int16>)
    requires |buf| % 2 == 0
    ensures |s| == |buf| / 2
    ensures forall i :: 0 <= i < |s| ==> s[i] == ReadInt16LE(buf[2 * i], buf[2 * i + 1])
    decreases |buf|
  {
    if |buf| == 0 then []
    else [ReadInt16LE(buf[0], buf[1])] + Samples(buf[2..])
  }

  /** The buffer obtained by writing `s` sample by sample with `writeInt16LE`. */
  function FromSamples(s: seq<int16>): (buf: seq<byte>)
    ensures |buf| == 2 * |s|
    ensures forall i :: 0 <= i < |s| ==> buf[2 * i..2 * i + 2] == Int16LE(s[i])
  {
    if |s| == 0 then []
    else
      var rest := FromSamples(s[1..]);
      var r := Int16LE(s[0]) + rest;
      assert forall i :: 1 <= i < |s| ==> r[2 * i..2 * i + 2] == rest[2 * (i - 1)..2 * (i - 1) + 2];
      r
  }

  /** Writing samples and viewing them again gives back the samples. */
  lemma {:induction false} SamplesOfFromSamples(s: seq<int16>)
    ensures Samples(FromSamples(s)) == s
  {
    var buf := FromSamples(s);
    forall i | 0 <= i < |s|
      ensures Samples(buf)[i] == s[i]
    {
      assert buf[2 * i..2 * i + 2] == Int16LE(s[i]);
      assert buf[2 * i] == Int16LE(s[i])[0] && buf[2 * i + 1] == Int16LE(s[i])[1];
    }
  }

  /** Viewing an even-length buffer as samples and writing them back gives the same bytes. */
  lemma {:induction false} FromSamplesOfSamples(buf: seq<byte>)
    requires |buf| % 2 == 0
    ensures FromSamples(Samples(buf)) == buf
  {
    var s := Samples(buf);
    var r := FromSamples(s);
    forall j | 0 <= j < |buf|
      ensures r[j] == buf[j]
    {
      var i := j / 2;
      Int16LEOfRead(buf[2 * i], buf[2 * i + 1]);
      assert r[2 * i..2 * i + 2] == [buf[2 * i], buf[2 * i + 1]];
      assert r[j] == r[2 * i..2 * i + 2][j - 2 * i];
    }
  }

  /** The byte-level view determines the buffer: two buffers with the same samples are equal. */
  lemma SamplesInjective(a: seq<byte>, b: seq<byte>)
    requires |a| % 2 == 0 && |b| % 2 == 0
    requires Samples(a) == Samples(b)
    ensures a == b
  {
    FromSamplesOfSamples(a);
    FromSamplesOfSamples(b);
  }

  /** A buffer whose byte pairs read as `expected` is the buffer of those samples. */
  lemma SamplesOfWritten(buf: seq<byte>, expected: seq<int16>)
    requires |buf| == 2 * |expected|
    requires forall k :: 0 <= k < |expected| ==> ReadInt16LE(buf[2 * k], buf[2 * k + 1]) == expected[k]
    ensures |buf| % 2 == 0 && Samples(buf) == expected
  {
  }

  /** `Buffer.concat`: the bytes of every buffer, in order. */
  function Concat(bufs: seq<seq<byte>>): (r: seq<byte>)
    ensures |bufs| == 0 ==> r == []
    ensures forall k :: 0 <= k < |bufs| ==> |bufs[k]| <= |r|
    ensures r == [] <==> forall k :: 0 <= k < |bufs| ==> bufs[k] == []
  {
    if |bufs| == 0 then []
    else Concat(bufs[..|bufs| - 1]) + bufs[|bufs| - 1]
  }

  /** Buffers of whole 16-bit samples concatenate to a buffer of whole samples. */
  lemma {:induction false} ConcatEven(bufs: seq<seq<byte>>)
    requires forall k :: 0 <= k < |bufs| ==> |bufs[k]| % 2 == 0
    ensures |Concat(bufs)| % 2 == 0
  {
    if |bufs| > 0 {
      ConcatEven(bufs[..|bufs| - 1]);
    }
  }

  /** `Buffer.alloc(n)`: `n` zero bytes. */
  function Zeros(n: nat): (r: seq<byte>)
    ensures |r| == n && forall i :: 0 <= i < n ==> r[i] == 0
  {
    seq(n, _ => 0)
  }

  /** Zero bytes are silent samples. */
  lemma {:induction false} SamplesOfZeros(n: nat)
    requires n % 2 == 0
    ensures forall i :: 0 <= i < n / 2 ==> Samples(Zeros(n))[i] == 0
  {
  }
}
