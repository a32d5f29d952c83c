// The reversible colour transform of RGB streams.

module ColorTransform {
  import opened Basics
  import opened GolombRice
  import opened SampleModel

  datatype Rgb = Rgb(r: int, g: int, b: int)
  datatype Coefficients = Coefficients(y: int, cb: int, cr: int)

  /** Between 9 and 15 bits, without an extra plane, blue takes the place of green. */
  predicate SwapsBlue(bits: nat, extraPlane: bool) {
    9 <= bits <= 15 && !extraPlane
  }

  function Forward(p: Rgb, bits: nat, extraPlane: bool): Coefficients {
    if bits == 0 || 16 < bits then Coefficients(0, 0, 0)
    else
      var offset: int := Pow2(bits);
      var base := if SwapsBlue(bits, extraPlane) then p.b else p.g;
      var cb := (if SwapsBlue(bits, extraPlane) then p.g else p.b) - base;
      var cr := p.r - base;
      Coefficients(LowBits(base + ShiftRight(cb + cr, 2), bits + 1), cb + offset, cr + offset)
  }

  /** The colours before they are cut to the sample width. */
  function Unbounded(c: Coefficients, bits: nat, extraPlane: bool): Rgb {
    var offset: int := Pow2(bits);
    var cb, cr := c.cb - offset, c.cr - offset;
    var base := c.y - ShiftRight(cb + cr, 2);
    if SwapsBlue(bits, extraPlane) then Rgb(cr + base, cb + base, base) else Rgb(cr + base, base, cb + base)
  }

  function Inverse(c: Coefficients, bits: nat, extraPlane: bool): Rgb {
    if bits == 0 || 16 < bits then Rgb(0, 0, 0)
    else
      var p := Unbounded(c, bits, extraPlane);
      Rgb(LowBits(p.r, bits), LowBits(p.g, bits), LowBits(p.b, bits))
  }

  predicate IsPixel(p: Rgb, bits: nat) {
    IsSample(p.r, bits) && IsSample(p.g, bits) && IsSample(p.b, bits)
  }

  predicate AreCoefficients(c: Coefficients, bits: nat) {
    IsSample(c.y, bits + 1) && IsSample(c.cb, bits + 1) && IsSample(c.cr, bits + 1)
  }

  /** A quarter of the differences added to the base is a weighted mean of the three colours. */
  lemma MeanInRange(base: int, other: int, red: int, bits: nat)
    requires IsSample(base, bits) && IsSample(other, bits) && IsSample(red, bits)
    ensures IsSample(base + ShiftRight(other - base + (red - base), 2), bits)
  {
    var v := other - base + (red - base);
    assert ShiftRight(v, 2) == ShiftRight(v / 2, 1) == v / 2 / 2;
  }

  /** The mask of the forward transform never cuts anything. */
  lemma LumaUncut(p: Rgb, bits: nat, extraPlane: bool)
    requires 1 <= bits <= 16 && IsPixel(p, bits)
    ensures var base := if SwapsBlue(bits, extraPlane) then p.b else p.g;
            var other := if SwapsBlue(bits, extraPlane) then p.g else p.b;
            && Forward(p, bits, extraPlane).y == base + ShiftRight(other - base + (p.r - base), 2)
            && IsSample(Forward(p, bits, extraPlane).y, bits)
  {
    hide LowBits, ShiftRight;
    var base := if SwapsBlue(bits, extraPlane) then p.b else p.g;
    var other := if SwapsBlue(bits, extraPlane) then p.g else p.b;
    MeanInRange(base, other, p.r, bits);
    LowBitsSmall(base + ShiftRight(other - base + (p.r - base), 2), bits + 1);
  }

  /** One bit more than the samples is enough for every coefficient. */
  lemma CoefficientsFit(p: Rgb, bits: nat, extraPlane: bool)
    requires 1 <= bits <= 16 && IsPixel(p, bits)
    ensures AreCoefficients(Forward(p, bits, extraPlane), bits)
  {
    hide LowBits, ShiftRight;
    LumaUncut(p, bits, extraPlane);
  }

  lemma PixelIsUnbounded(p: Rgb, bits: nat, extraPlane: bool)
    requires 1 <= bits <= 16 && IsPixel(p, bits)
    ensures Unbounded(Forward(p, bits, extraPlane), bits, extraPlane) == p
  {
    hide LowBits, ShiftRight;
    LumaUncut(p, bits, extraPlane);
  }

  /** The inverse transform restores every pixel. */
  lemma PixelRestored(p: Rgb, bits: nat, extraPlane: bool)
    requires 1 <= bits <= 16 && IsPixel(p, bits)
    ensures Inverse(Forward(p, bits, extraPlane), bits, extraPlane) == p
  {
    hide LowBits, ShiftRight;
    PixelIsUnbounded(p, bits, extraPlane);
    LowBitsSmall(p.r, bits);
    LowBitsSmall(p.g, bits);
    LowBitsSmall(p.b, bits);
  }

  /** Coefficients come from a pixel exactly when undoing them stays inside the sample range. */
  lemma CoefficientsRestored(c: Coefficients, bits: nat, extraPlane: bool)
    requires 1 <= bits <= 16 && AreCoefficients(c, bits)
    ensures Forward(Inverse(c, bits, extraPlane), bits, extraPlane) == c <==> IsPixel(Unbounded(c, bits, extraPlane), bits)
  {
    hide LowBits, ShiftRight;
    var p := Unbounded(c, bits, extraPlane);
    if IsPixel(p, bits) {
      LowBitsSmall(p.r, bits);
      LowBitsSmall(p.g, bits);
      LowBitsSmall(p.b, bits);
      LowBitsSmall(c.y, bits + 1);
      assert Forward(p, bits, extraPlane) == c;
    } else if Forward(Inverse(c, bits, extraPlane), bits, extraPlane) == c {
      var back := Inverse(c, bits, extraPlane);
      PixelIsUnbounded(back, bits, extraPlane);
      assert false;
    }
  }

  datatype Rows = Rows(first: seq<int>, second: seq<int>, third: seq<int>)

  predicate Even(rows: Rows) {
    |rows.first| == |rows.second| == |rows.third|
  }

  function PixelAt(rows: Rows, x: nat): Rgb
    requires Even(rows) && x < |rows.first|
  {
    Rgb(rows.first[x], rows.second[x], rows.third[x])
  }

  function CoefficientsAt(rows: Rows, x: nat): Coefficients
    requires Even(rows) && x < |rows.first|
  {
    Coefficients(rows.first[x], rows.second[x], rows.third[x])
  }

  function ForwardRows(rows: Rows, bits: nat, extraPlane: bool): (r: Rows)
    requires Even(rows)
    ensures Even(r) && |r.first| == |rows.first|
    ensures forall x :: 0 <= x < |rows.first| ==> CoefficientsAt(r, x) == Forward(PixelAt(rows, x), bits, extraPlane)
  {
    var n := |rows.first|;
    Rows(seq(n, x requires 0 <= x < n => Forward(PixelAt(rows, x), bits, extraPlane).y),
         seq(n, x requires 0 <= x < n => Forward(PixelAt(rows, x), bits, extraPlane).cb),
         seq(n, x requires 0 <= x < n => Forward(PixelAt(rows, x), bits, extraPlane).cr))
  }

  function InverseRows(rows: Rows, bits: nat, extraPlane: bool): (r: Rows)
    requires Even(rows)
    ensures Even(r) && |r.first| == |rows.first|
    ensures forall x :: 0 <= x < |rows.first| ==> PixelAt(r, x) == Inverse(CoefficientsAt(rows, x), bits, extraPlane)
  {
    var n := |rows.first|;
    Rows(seq(n, x requires 0 <= x < n => Inverse(CoefficientsAt(rows, x), bits, extraPlane).r),
         seq(n, x requires 0 <= x < n => Inverse(CoefficientsAt(rows, x), bits, extraPlane).g),
         seq(n, x requires 0 <= x < n => Inverse(CoefficientsAt(rows, x), bits, extraPlane).b))
  }

  /** Three rows of samples survive the transform, and their coefficients fit one more bit. */
  lemma RowsRestored(rows: Rows, bits: nat, extraPlane: bool)
    requires 1 <= bits <= 16 && Even(rows)
    requires AllSamples(rows.first, bits) && AllSamples(rows.second, bits) && AllSamples(rows.third, bits)
    ensures InverseRows(ForwardRows(rows, bits, extraPlane), bits, extraPlane) == rows
    ensures var c := ForwardRows(rows, bits, extraPlane);
            AllSamples(c.first, bits + 1) && AllSamples(c.second, bits + 1) && AllSamples(c.third, bits + 1)
  {
    hide Forward, Inverse, Pow2;
    var coded := ForwardRows(rows, bits, extraPlane);
    var back := InverseRows(coded, bits, extraPlane);
    forall x | 0 <= x < |rows.first|
      ensures PixelAt(back, x) == PixelAt(rows, x) && AreCoefficients(CoefficientsAt(coded, x), bits)
    {
      PixelRestored(PixelAt(rows, x), bits, extraPlane);
      CoefficientsFit(PixelAt(rows, x), bits, extraPlane);
    }
    forall x | 0 <= x < |rows.first|
      ensures back.first[x] == rows.first[x] && back.second[x] == rows.second[x] && back.third[x] == rows.third[x]
      ensures IsSample(coded.first[x], bits + 1) && IsSample(coded.second[x], bits + 1) && IsSample(coded.third[x], bits + 1)
    {
      assert PixelAt(back, x) == PixelAt(rows, x) && AreCoefficients(CoefficientsAt(coded, x), bits);
    }
    assert back.first == rows.first && back.second == rows.second && back.third == rows.third;
  }
}
