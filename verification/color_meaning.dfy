// What the coefficients of the colour transform mean.

module ColorMeaning {
  import opened Basics
  import opened RangeSymbols
  import opened SampleModel
  import opened ColorTransform
  import opened StreamModel
  import opened SliceSchedule

  /** Cr carries red and cb the third colour, each as a difference from the base, with 2^bits for zero; y
      carries the base and a quarter of both, rounded down.  The base is green, or blue between 9 and
      15 bits without an extra plane. */
  predicate IsTransformed(p: Rgb, c: Coefficients, bits: nat, extraPlane: bool) {
    var swapped := 9 <= bits && bits <= 15 && !extraPlane;
    var base, other := if swapped then p.b else p.g, if swapped then p.g else p.b;
    && c.cr - Pow2(bits) == p.r - base
    && c.cb - Pow2(bits) == other - base
    && 4 * (c.y - base) <= c.cb + c.cr - 2 * Pow2(bits) < 4 * (c.y - base) + 4
  }

  lemma QuarterRounded(v: int)
    ensures 4 * ShiftRight(v, 2) <= v < 4 * ShiftRight(v, 2) + 4
  {
    assert ShiftRight(v, 2) == ShiftRight(v / 2, 1) == v / 2 / 2;
  }

  /** The forward transform of a pixel means that. */
  lemma ForwardMeans(p: Rgb, bits: nat, extraPlane: bool)
    requires 1 <= bits <= 16 && IsPixel(p, bits)
    ensures IsTransformed(p, Forward(p, bits, extraPlane), bits, extraPlane)
  {
    hide LowBits, ShiftRight;
    LumaUncut(p, bits, extraPlane);
    var base := if SwapsBlue(bits, extraPlane) then p.b else p.g;
    var other := if SwapsBlue(bits, extraPlane) then p.g else p.b;
    QuarterRounded(other - base + (p.r - base));
  }

  /** Undoing it finds the colours, before they are cut to the sample width, for any coefficients. */
  lemma UnboundedMeans(c: Coefficients, bits: nat, extraPlane: bool)
    ensures IsTransformed(Unbounded(c, bits, extraPlane), c, bits, extraPlane)
  {
    hide ShiftRight;
    QuarterRounded(c.cb - Pow2(bits) + (c.cr - Pow2(bits)));
  }

  /** Both directions are determined by the meaning. */
  lemma MeaningUnique(p: Rgb, q: Rgb, c: Coefficients, d: Coefficients, bits: nat, extraPlane: bool)
    requires IsTransformed(p, c, bits, extraPlane) && IsTransformed(q, d, bits, extraPlane)
    ensures p == q ==> c == d
    ensures c == d ==> p == q
  {
  }

  /** Cutting keeps the low bits. */
  lemma InverseCuts(c: Coefficients, bits: nat, extraPlane: bool, p: Rgb) returns (i: int, j: int, k: int)
    requires 1 <= bits <= 16 && IsTransformed(p, c, bits, extraPlane)
    ensures IsPixel(Inverse(c, bits, extraPlane), bits)
    ensures Inverse(c, bits, extraPlane) == Rgb(p.r - ShiftLeft(i, bits), p.g - ShiftLeft(j, bits), p.b - ShiftLeft(k, bits))
  {
    hide LowBits, ShiftRight, ShiftLeft, IsTransformed;
    UnboundedMeans(c, bits, extraPlane);
    MeaningUnique(p, Unbounded(c, bits, extraPlane), c, c, bits, extraPlane);
    ShiftSplit(p.r, bits);
    ShiftSplit(p.g, bits);
    ShiftSplit(p.b, bits);
    i, j, k := ShiftRight(p.r, bits), ShiftRight(p.g, bits), ShiftRight(p.b, bits);
  }

  /** On the planes of a window: red, green and blue stand in planes 0, 1 and 2, and the coded planes
      are luma, cb and cr in that order; an extra plane is coded as it is. */
  lemma PlanesTransformed(l: Layout, image: Planes, x: nat, y: nat)
    requires IsLayout(l) && l.rgb && IsImage(l, image) && y < l.heights[0] && x < l.widths[0]
    ensures Shaped(l, Transformed(l, image))
    ensures IsTransformed(Rgb(image[0][y][x], image[1][y][x], image[2][y][x]),
                          Coefficients(Transformed(l, image)[0][y][x], Transformed(l, image)[1][y][x], Transformed(l, image)[2][y][x]),
                          l.bits, l.extraPlane)
    ensures |image| == 4 ==> Transformed(l, image)[3] == image[3]
  {
    hide IsTransformed, Forward;
    TransformedShaped(l, image);
    var p := Rgb(image[0][y][x], image[1][y][x], image[2][y][x]);
    assert AllSamples(image[0][y], l.bits) && AllSamples(image[1][y], l.bits) && AllSamples(image[2][y], l.bits);
    var rows := RgbRow(l, image, y);
    assert PixelAt(rows, x) == p;
    ForwardMeans(p, l.bits, l.extraPlane);
    assert CoefficientsAt(ForwardRows(rows, l.bits, l.extraPlane), x) == Forward(p, l.bits, l.extraPlane);
  }
}
