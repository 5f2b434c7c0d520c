/**
 * The integer part of the loudness metric: a fragment arrives as raw bytes,
 * is unpacked into signed 16-bit little-endian samples, and the squares of
 * the samples are summed. The normalisation by 32768, the division by the
 * sample count and the square root are floating point and stay outside the
 * model; `MeanSquare` gives their exact real-valued counterpart.
 */
module Samples {

  type Byte = b: int | 0 <= b < 256

  /** One raw fragment as read from the audio device. */
  type Block = seq<Byte>

  /** A signed 16-bit sample. */
  type Sample = v: int | -32768 <= v < 32768

  /** 32768 * 32768: the square of the normalisation constant. */
  const FullScaleSquared: nat := 1073741824

  /** Why the loudness of a block could not be computed. */
  datatype RmsError =
    | StructError        // the block holds an odd number of bytes
    | ZeroDivisionError  // the block is empty, so the mean divides by zero

  datatype Result<T> = Success(value: T) | Failure(error: RmsError)

  /** The exact ingredients of a block's RMS: the sample count and the sum of squared samples. */
  datatype Energy = Energy(count: nat, sumSquares: nat)

  /** Decodes the little-endian byte pair (lo, hi) as a two's-complement 16-bit value. */
  function DecodeSample(lo: Byte, hi: Byte): (v: Sample)
    ensures (v - (lo + 256 * hi)) % 65536 == 0
    ensures v < 0 <==> hi >= 128
  {
    var u := lo + 256 * hi;
    if u < 32768 then u else u - 65536
  }

  /** The byte pair (lo, hi) that stores the sample `v`. */
  function EncodeSample(v: Sample): (p: (Byte, Byte))
    ensures DecodeSample(p.0, p.1) == v
  {
    var u := if v < 0 then v + 65536 else v;
    (u % 256, u / 256)
  }

  lemma SampleBytesRoundTrip(lo: Byte, hi: Byte)
    ensures EncodeSample(DecodeSample(lo, hi)) == (lo, hi)
  {
  }

  /** Unpacks a block of even length into `|block| / 2` samples, in order. */
  function DecodeAll(block: Block): (r: seq<Sample>)
    requires |block| % 2 == 0
    ensures |r| == |block| / 2
    ensures forall i :: 0 <= i < |r| ==> r[i] == DecodeSample(block[2 * i], block[2 * i + 1])
    decreases |block|
  {
    if |block| == 0 then []
    else [DecodeSample(block[0], block[1])] + DecodeAll(block[2..])
  }

  /** Packs samples into little-endian bytes: the inverse of `DecodeAll`. */
  function EncodeAll(xs: seq<Sample>): (b: Block)
    ensures |b| == 2 * |xs|
    decreases |xs|
  {
    if xs == [] then []
    else [EncodeSample(xs[0]).0, EncodeSample(xs[0]).1] + EncodeAll(xs[1..])
  }

  lemma {:induction false} DecodeEncode(xs: seq<Sample>)
    ensures DecodeAll(EncodeAll(xs)) == xs
    decreases |xs|
  {
    if xs != [] {
      var b := EncodeAll(xs);
      assert b[2..] == EncodeAll(xs[1..]);
      DecodeEncode(xs[1..]);
    }
  }

  lemma {:induction false} EncodeDecode(block: Block)
    requires |block| % 2 == 0
    ensures EncodeAll(DecodeAll(block)) == block
    decreases |block|
  {
    if |block| != 0 {
      var xs := DecodeAll(block);
      assert xs[1..] == DecodeAll(block[2..]);
      SampleBytesRoundTrip(block[0], block[1]);
      EncodeDecode(block[2..]);
      assert block == [block[0], block[1]] + block[2..];
    }
  }

  lemma SquareBound(x: int)
    requires -32768 <= x < 32768
    ensures 0 <= x * x <= FullScaleSquared
  {
    var m := if x >= 0 then x else -x;
    assert x * x == m * m;
    MulMono(m, 32768, m);
    MulMono(m, 32768, 32768);
  }

  lemma MulMono(a: int, b: int, c: int)
    requires 0 <= a <= b && 0 <= c
    ensures a * c <= b * c
  {
  }

  /**
   * The sum of squared samples. It is zero exactly for a silent block, and
   * no sample squares to more than 32768 * 32768.
   */
  function SumSquares(xs: seq<Sample>): (r: nat)
    ensures r == 0 <==> forall i :: 0 <= i < |xs| ==> xs[i] == 0
    ensures r <= |xs| * FullScaleSquared
    decreases |xs|
  {
    if xs == [] then 0
    else
      var x: int := xs[|xs| - 1];
      SquareBound(x);
      SumSquares(xs[..|xs| - 1]) + x * x
  }

  /** A block whose every sample has magnitude 32767 has the largest sum a non-clipping block can have. */
  lemma {:induction false} ConstantAmplitude(xs: seq<Sample>)
    requires forall i :: 0 <= i < |xs| ==> xs[i] == 32767 || xs[i] == -32767
    ensures SumSquares(xs) == |xs| * 32767 * 32767
    decreases |xs|
  {
    if xs != [] {
      var p := xs[..|xs| - 1];
      assert forall i :: 0 <= i < |p| ==> p[i] == xs[i];
      ConstantAmplitude(p);
      var x: int := xs[|xs| - 1];
      assert x * x == 32767 * 32767;
    }
  }

  /** The squared RMS of a decoded block, in normalised units (full scale is 1). */
  ghost function MeanSquare(e: Energy): real
    requires e.count > 0
  {
    e.sumSquares as real / (e.count * FullScaleSquared) as real
  }

  /**
   * The loudness ingredients of one block. An odd byte count cannot be
   * unpacked; an empty block unpacks but its mean divides by zero.
   */
  method GetRms(block: Block) returns (r: Result<Energy>)
    ensures r == Failure(StructError) <==> |block| % 2 == 1
    ensures r == Failure(ZeroDivisionError) <==> |block| == 0
    ensures r.Success? ==> r.value.count == |block| / 2 > 0
    ensures r.Success? ==> r.value.sumSquares == SumSquares(DecodeAll(block))
  {
    if |block| % 2 == 1 {
      return Failure(StructError);
    }
    var shorts := DecodeAll(block);
    var sumSquares := 0;
    for i := 0 to |shorts|
      invariant sumSquares == SumSquares(shorts[..i])
    {
      var sample: int := shorts[i];
      assert shorts[..i + 1][..i] == shorts[..i];
      assert SumSquares(shorts[..i + 1]) == SumSquares(shorts[..i]) + sample * sample;
      sumSquares := sumSquares + sample * sample;
    }
    assert shorts[..|shorts|] == shorts;
    if |shorts| == 0 {
      return Failure(ZeroDivisionError);
    }
    return Success(Energy(|shorts|, sumSquares));
  }

  /**
   * A non-empty block whose every sample has magnitude 32767 has mean square
   * (32767 / 32768)^2, so its RMS is 32767 / 32768, just below full scale.
   */
  lemma ConstantAmplitudeMeanSquare(xs: seq<Sample>)
    requires |xs| > 0
    requires forall i :: 0 <= i < |xs| ==> xs[i] == 32767 || xs[i] == -32767
    ensures MeanSquare(Energy(|xs|, SumSquares(xs))) == (32767.0 / 32768.0) * (32767.0 / 32768.0)
  {
    ConstantAmplitude(xs);
    var n := |xs|;
    assert SumSquares(xs) == n * 1073676289;
    CancelCount(n, 1073676289, FullScaleSquared);
  }

  /** Dividing n copies of `k` by n copies of `f` gives k / f. */
  lemma CancelCount(n: int, k: int, f: int)
    requires n > 0 && f > 0
    ensures (n * k) as real / (n * f) as real == k as real / f as real
  {
    var nr, kr, fr := n as real, k as real, f as real;
    assert (n * k) as real == nr * kr;
    assert (n * f) as real == nr * fr;
    assert (kr / fr) * (nr * fr) == nr * kr;
  }

  /** The normalised mean square of any non-empty even-length block lies in [0, 1]. */
  lemma MeanSquareInUnitRange(block: Block)
    requires |block| % 2 == 0 && |block| > 0
    ensures 0.0 <= MeanSquare(Energy(|block| / 2, SumSquares(DecodeAll(block)))) <= 1.0
  {
    var xs := DecodeAll(block);
    var total: int := SumSquares(xs);
    var bound: int := |xs| * FullScaleSquared;
    assert 0 <= total <= bound;
    assert bound > 0 by { MulMono(1, |xs|, FullScaleSquared); }
    RatioAtMostOne(total as real, bound as real);
  }

  lemma RatioAtMostOne(s: real, d: real)
    requires 0.0 <= s <= d && 0.0 < d
    ensures 0.0 <= s / d <= 1.0
  {
  }

  /**
   * An RMS value consistent with a block (its square is the block's mean
   * square) is at most full scale, so it always stays below the sentinel
   * 1000 that the window minimum starts from.
   */
  lemma RmsAtMostFullScale(block: Block, rms: real)
    requires |block| % 2 == 0 && |block| > 0
    requires 0.0 <= rms && rms * rms == MeanSquare(Energy(|block| / 2, SumSquares(DecodeAll(block))))
    ensures rms <= 1.0
  {
    MeanSquareInUnitRange(block);
    if rms > 1.0 {
      assert rms * rms > 1.0 * rms;
    }
  }
}
