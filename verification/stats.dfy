/**
 * Compression statistics of `calculateCompressionStats`, in exact real
 * arithmetic. The compressed size is estimated from the length of the whole
 * data URL (RFC 2397), prefix included, with the 4:3 expansion of base64
 * (section 4 of RFC 4648): `length * 3 / 4` bytes.
 */
module CompressionStats {

  /**
   * The percentage reduction as JavaScript computes it. With an original size
   * of zero, `(0 - c) / 0` is minus infinity when `c > 0` and NaN when `c = 0`.
   */
  datatype Reduction = Percent(value: real) | MinusInfinity | NotANumber

  datatype Stats = Stats(originalSizeKB: real, compressedSizeKB: real, reduction: Reduction)

  /** Bytes the compressed image is taken to occupy: three quarters of the data-URL length. */
  function EstimatedBytes(dataUrlLength: nat): (b: real)
    ensures 4.0 * b == 3.0 * dataUrlLength as real
    ensures b >= 0.0
  {
    dataUrlLength as real * 3.0 / 4.0
  }

  function ReductionOf(originalKB: real, compressedKB: real): (r: Reduction)
    requires originalKB >= 0.0 && compressedKB >= 0.0
    ensures originalKB > 0.0 ==> r.Percent? && r.value * originalKB == (originalKB - compressedKB) * 100.0
    ensures originalKB == 0.0 ==> (compressedKB > 0.0 <==> r.MinusInfinity?)
    ensures originalKB == 0.0 ==> (compressedKB == 0.0 <==> r.NotANumber?)
  {
    if originalKB > 0.0 then Percent((originalKB - compressedKB) / originalKB * 100.0)
    else if compressedKB > 0.0 then MinusInfinity
    else NotANumber
  }

  /** `calculateCompressionStats(originalSize, compressedDataURL)`, given the URL's length. */
  function CalculateCompressionStats(originalSize: nat, dataUrlLength: nat): (s: Stats)
    ensures s.originalSizeKB * 1024.0 == originalSize as real
    ensures s.compressedSizeKB * 1024.0 == EstimatedBytes(dataUrlLength)
    ensures originalSize > 0 ==> s.reduction.Percent?
    ensures originalSize > 0 ==>
      s.reduction.value * s.originalSizeKB == (s.originalSizeKB - s.compressedSizeKB) * 100.0
    ensures originalSize == 0 ==> (dataUrlLength > 0 <==> s.reduction.MinusInfinity?)
    ensures originalSize == 0 ==> (dataUrlLength == 0 <==> s.reduction.NotANumber?)
  {
    var originalKB := originalSize as real / 1024.0;
    var compressedKB := EstimatedBytes(dataUrlLength) / 1024.0;
    Stats(originalKB, compressedKB, ReductionOf(originalKB, compressedKB))
  }

  /**
   * The reduction is not clamped: it is positive exactly when the estimate is
   * smaller than the original, zero when they are equal and negative when
   * compression made the file larger. It never exceeds 100, and reaches 100
   * only for an empty data URL.
   */
  lemma ReductionSign(originalSize: nat, dataUrlLength: nat)
    requires originalSize > 0
    ensures var s := CalculateCompressionStats(originalSize, dataUrlLength);
      && (s.reduction.value > 0.0 <==> s.compressedSizeKB < s.originalSizeKB)
      && (s.reduction.value == 0.0 <==> s.compressedSizeKB == s.originalSizeKB)
      && (s.reduction.value < 0.0 <==> s.compressedSizeKB > s.originalSizeKB)
      && s.reduction.value <= 100.0
      && (s.reduction.value == 100.0 <==> dataUrlLength == 0)
  {
    var s := CalculateCompressionStats(originalSize, dataUrlLength);
    var o, c, p := s.originalSizeKB, s.compressedSizeKB, s.reduction.value;
    assert o > 0.0;
    assert p * o == (o - c) * 100.0;
    SignOfProduct(p, o, o - c);
    assert (p - 100.0) * o == -c * 100.0;
    SignOfProduct(p - 100.0, o, -c);
  }

  /** With `p * o == d * 100` and `o > 0`, `p` and `d` have the same sign. */
  lemma SignOfProduct(p: real, o: real, d: real)
    requires o > 0.0 && p * o == d * 100.0
    ensures (p > 0.0 <==> d > 0.0) && (p == 0.0 <==> d == 0.0) && (p < 0.0 <==> d < 0.0)
  {
    if p > 0.0 { assert p * o > 0.0; }
    if p < 0.0 { assert p * o < 0.0; }
    if p == 0.0 { assert p * o == 0.0; }
  }

  /** The prefix of the data URL `toDataURL('image/jpeg', q)` returns. */
  const JpegDataUrlPrefix: string := "data:image/jpeg;base64,"

  /** Length of the padded base64 text of `n` bytes (section 4 of RFC 4648). */
  function Base64Length(n: nat): nat {
    4 * ((n + 2) / 3)
  }

  /**
   * Applied to a JPEG data URL, the estimate overstates the encoded byte count
   * by the prefix's three-quarter share (17.25 bytes) plus the 0, 1 or 2
   * padding bytes base64 rounds up to: between 17.25 and 19.25 bytes.
   */
  lemma EstimateOfJpegDataUrl(n: nat)
    ensures var e := EstimatedBytes(|JpegDataUrlPrefix| + Base64Length(n));
      17.25 <= e - n as real <= 19.25
  {
    var q := (n + 2) / 3;
    assert 3 * q <= n + 2 < 3 * q + 3;
    var len := |JpegDataUrlPrefix| + Base64Length(n);
    assert len == 23 + 4 * q;
    assert EstimatedBytes(len) == 17.25 + 3.0 * q as real;
  }
}
