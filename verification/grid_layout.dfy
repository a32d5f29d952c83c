// Where slices lie on the planes and how their headers tell it.

module GridLayout {
  import opened Basics
  import opened RangeSymbols
  import opened RangeContexts
  import opened RangeScript
  import opened RangeNumbers
  import opened StreamModel
  import opened SliceRaster
  import opened SliceCoverage
  import opened SliceGeometry
  import opened SliceHeader
  import opened SliceLayouts
  import opened RangeSliceCodec

  /** A sample right of the position floor(a * extent / count), or at it, is one whose right edge lies
      beyond a * extent / count. */
  lemma PositionReached(extent: nat, count: nat, a: nat, x: nat)
    requires 0 < count
    ensures ScaledGridPosition(extent, count, a) <= x <==> a * extent < count * (x + 1)
  {
    var v := a * extent;
    var q := v / count;
    assert v == count * q + v % count;
    if q <= x {
      MulMonotone(count, q + 1, x + 1);
    } else {
      MulMonotone(count, x + 1, q);
    }
  }

  /** The samples of a slice, without any division: those whose right edge lies beyond the left edge of
      the slice and not beyond its right edge, both measured in the plane's own size; the same for rows. */
  lemma WindowHolds(s: StreamParameters, plane: nat, slice: Rect, x: nat, y: nat)
    requires 0 < s.numHSlices && 0 < s.numVSlices
    ensures Holds(Window(s, plane, slice), x, y) <==>
              && slice.x * PlaneWidth(s, plane) < s.numHSlices * (x + 1) <= (slice.x + slice.width) * PlaneWidth(s, plane)
              && slice.y * PlaneHeight(s, plane) < s.numVSlices * (y + 1) <= (slice.y + slice.height) * PlaneHeight(s, plane)
  {
    hide ScaledGridPosition, PlaneWidth, PlaneHeight;
    PositionReached(PlaneWidth(s, plane), s.numHSlices, slice.x, x);
    PositionReached(PlaneWidth(s, plane), s.numHSlices, slice.x + slice.width, x);
    PositionReached(PlaneHeight(s, plane), s.numVSlices, slice.y, y);
    PositionReached(PlaneHeight(s, plane), s.numVSlices, slice.y + slice.height, y);
  }

  /** Subsampling rounds up. */
  lemma ExtentRoundsUp(value: nat, log2: nat)
    requires log2 < 32
    ensures var e := SubsampledExtent(value, log2);
            Pow2(log2) * e < value + Pow2(log2) && value <= Pow2(log2) * e
  {
    var d := Pow2(log2);
    if log2 == 0 {
      assert d == 1;
    } else {
      var v := value + d - 1;
      assert v == d * (v / d) + v % d;
    }
  }

  /** Luma, then both chroma planes if there are any, then the extra plane; only chroma planes of a
      stream without colour transform are subsampled. */
  lemma PlanesStand(s: StreamParameters, p: nat)
    requires p < CodedPlaneCount(s)
    ensures CodedPlaneCount(s) == (if s.chromaPlanes then 3 else 1) + (if s.extraPlane then 1 else 0)
    ensures var chroma := s.chromaPlanes && 1 <= p <= 2;
            && PlaneWidth(s, p) == (if chroma && s.colorspaceType == 0 then SubsampledExtent(s.width, s.log2HChromaSubsample) else s.width)
            && PlaneHeight(s, p) == (if chroma && s.colorspaceType == 0 then SubsampledExtent(s.height, s.log2VChromaSubsample) else s.height)
            && (s.version <= 3 ==> PlaneSlot(s, p) == (if p == 0 then 0 else if chroma then 1 else 2))
            && (s.version <= 3 ==> QuantTableSetIndexCount(s) == if s.extraPlane then 3 else 2)
  {
  }

  predicate IsNumber(op: Operation, value: nat) {
    op == Operation(SymbolRequest(0, 0, false), value)
  }

  lemma {:induction false} NumbersPlaced(values: seq<nat>, i: nat)
    requires i < |values|
    ensures IsNumber(Numbers(values)[i], values[i])
    decreases |values|
  {
    if i > 0 {
      NumbersPlaced(values[1..], i - 1);
    }
  }

  /** A header is column, row, width and height less one, the table choices, the picture structure and
      the aspect ratio, all unsigned numbers in one context. */
  lemma HeaderPlaced(s: StreamParameters, v: HeaderValues)
    requires HeaderScript(s, v).Ok?
    ensures var ops, n := HeaderScript(s, v).value, |v.indexes|;
            && 0 < v.width && 0 < v.height && n == QuantTableSetIndexCount(s) && |ops| == n + 7
            && IsNumber(ops[0], v.x) && IsNumber(ops[1], v.y) && IsNumber(ops[2], v.width - 1) && IsNumber(ops[3], v.height - 1)
            && (forall i :: 0 <= i < n ==> IsNumber(ops[i + 4], v.indexes[i]))
            && IsNumber(ops[n + 4], v.pictureStructure) && IsNumber(ops[n + 5], v.sarNum) && IsNumber(ops[n + 6], v.sarDen)
  {
    hide Numbers, IsNumber;
    var values := HeaderNumbers(v);
    var n := |v.indexes|;
    forall i | 0 <= i < |values|
      ensures IsNumber(Numbers(values)[i], values[i])
    {
      NumbersPlaced(values, i);
    }
    assert forall i :: 0 <= i < n ==> values[i + 4] == v.indexes[i];
    assert values[n + 4] == v.pictureStructure && values[n + 5] == v.sarNum && values[n + 6] == v.sarDen;
  }

  /** Before the header of a frame's first slice stands one bit, whether the frame is a keyframe, after
      which the context starts anew. */
  lemma DescriptionPlaced(s: StreamParameters, v: HeaderValues, first: bool, keyframe: bool)
    requires HeaderScript(s, v).Ok?
    ensures DescriptionOps(s, v, first, keyframe).Ok?
    ensures var ops := DescriptionOps(s, v, first, keyframe).value;
            if first then
              && ops == [ops[0], ops[1]] + HeaderScript(s, v).value
              && ops[0] == Operation(BoolRequest, if keyframe then 1 else 0)
              && ops[1] == Operation(ReconfigureRequest([1], []), 0)
            else ops == HeaderScript(s, v).value
  {
    hide HeaderScript;
    if !first {
      assert OpeningOps(first, keyframe) + HeaderScript(s, v).value == HeaderScript(s, v).value;
    }
  }

  /** Which headers are accepted. */
  lemma RasterExactly(s: StreamParameters, v: HeaderValues)
    ensures RasterStatus(s, v).Ok? <==>
              && 0 < v.width && 0 < v.height
              && v.x + v.width <= s.numHSlices && v.y + v.height <= s.numVSlices
              && v.indexes != [] && (forall i <- v.indexes :: i < |s.quantTableSets|) && v.pictureStructure <= 3
  {
  }

  /** A frame's slices may not exceed a quarter of its cells from version 3 on, if it is larger than CIF. */
  lemma QuarterRule(version: nat, width: nat, height: nat, columns: nat, rows: nat, r: Rect)
    ensures Acceptable(r, columns, rows, LimitsArea(version, width, height)) <==>
              && 0 < r.width && 0 < r.height && r.x + r.width <= columns && r.y + r.height <= rows
              && (3 <= version && 352 * 288 < width * height ==> 4 * (r.width * r.height) <= columns * rows)
  {
  }
}
