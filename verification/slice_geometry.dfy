// From cells of the slice raster to samples of the planes.

module SliceGeometry {
  import opened Basics
  import opened StreamModel
  import opened SliceRaster
  import opened SliceCoverage

  /** floor(position * extent / count): where a grid line falls. */
  function ScaledGridPosition(extent: nat, count: nat, position: nat): nat {
    if count == 0 then 0 else position * extent / count
  }

  /** The part of a plane that belongs to a slice.  The positions of luma and colour planes come
      from the frame's size, those of chroma planes from the plane's own. */
  function Window(s: StreamParameters, plane: nat, slice: Rect): (w: Rect)
    requires 0 < s.numHSlices && 0 < s.numVSlices
  {
    var x0 := ScaledGridPosition(PlaneWidth(s, plane), s.numHSlices, slice.x);
    var x1 := ScaledGridPosition(PlaneWidth(s, plane), s.numHSlices, slice.x + slice.width);
    var y0 := ScaledGridPosition(PlaneHeight(s, plane), s.numVSlices, slice.y);
    var y1 := ScaledGridPosition(PlaneHeight(s, plane), s.numVSlices, slice.y + slice.height);
    PositionMonotone(PlaneWidth(s, plane), s.numHSlices, slice.x, slice.x + slice.width);
    PositionMonotone(PlaneHeight(s, plane), s.numVSlices, slice.y, slice.y + slice.height);
    Rect(x0, y0, x1 - x0, y1 - y0)
  }

  function Windows(s: StreamParameters, plane: nat, slices: seq<Rect>): (w: seq<Rect>)
    requires 0 < s.numHSlices && 0 < s.numVSlices
    ensures |w| == |slices|
  {
    seq(|slices|, i requires 0 <= i < |slices| => Window(s, plane, slices[i]))
  }

  lemma DivMonotone(a: nat, b: nat, d: nat)
    requires a <= b && 0 < d
    ensures a / d <= b / d
  {
    var q, r := a / d, b / d;
    assert d * q <= a <= b < d * (r + 1);
    MulMonotone(d, r + 1, Max(q, r + 1));
  }

  lemma PositionMonotone(extent: nat, count: nat, a: nat, b: nat)
    requires 0 < count && a <= b
    ensures ScaledGridPosition(extent, count, a) <= ScaledGridPosition(extent, count, b)
  {
    MulMonotone(extent, a, b);
    DivMonotone(a * extent, b * extent, count);
  }

  /** The grid begins and ends with the plane. */
  lemma PositionEnds(extent: nat, count: nat)
    requires 0 < count
    ensures ScaledGridPosition(extent, count, 0) == 0
    ensures ScaledGridPosition(extent, count, count) == extent
  {
    DivUnique(count * extent, count, extent, 0);
    DivUnique(0, count, 0, 0);
  }

  /** The last grid cell not right of `limit` that begins at or before the sample. */
  function CellBefore(extent: nat, count: nat, sample: nat, limit: nat): (cell: nat)
    requires 0 < count
    ensures cell <= limit
  {
    if limit == 0 || ScaledGridPosition(extent, count, limit) <= sample then limit
    else CellBefore(extent, count, sample, limit - 1)
  }

  lemma {:induction false} CellBeforeHolds(extent: nat, count: nat, sample: nat, limit: nat)
    requires 0 < count && limit <= count
    requires sample < ScaledGridPosition(extent, count, limit)
    ensures var cell := CellBefore(extent, count, sample, limit);
            && cell < limit
            && ScaledGridPosition(extent, count, cell) <= sample < ScaledGridPosition(extent, count, cell + 1)
    decreases limit
  {
    hide ScaledGridPosition;
    PositionEnds(extent, count);
    if sample < ScaledGridPosition(extent, count, limit - 1) {
      CellBeforeHolds(extent, count, sample, limit - 1);
    }
  }

  /** The one cell of the grid a sample falls into. */
  function CellOf(extent: nat, count: nat, sample: nat): (cell: nat)
    requires 0 < count
  {
    CellBefore(extent, count, sample, count)
  }

  /** A sample lies between two grid lines exactly when its cell does. */
  lemma BetweenLines(extent: nat, count: nat, sample: nat, from: nat, to: nat)
    requires 0 < count && sample < extent && from <= to
    ensures CellOf(extent, count, sample) < count
    ensures ScaledGridPosition(extent, count, from) <= sample < ScaledGridPosition(extent, count, to)
       <==> from <= CellOf(extent, count, sample) < to
  {
    hide ScaledGridPosition;
    PositionEnds(extent, count);
    CellBeforeHolds(extent, count, sample, count);
    var cell := CellOf(extent, count, sample);
    if from <= cell {
      PositionMonotone(extent, count, from, cell);
    } else {
      PositionMonotone(extent, count, cell + 1, from);
    }
    if cell < to {
      PositionMonotone(extent, count, cell + 1, to);
    } else {
      PositionMonotone(extent, count, to, cell);
    }
  }

  /** A sample belongs to a slice exactly when its cell does. */
  lemma SampleBelongs(s: StreamParameters, plane: nat, slice: Rect, x: nat, y: nat)
    requires 0 < s.numHSlices && 0 < s.numVSlices && x < PlaneWidth(s, plane) && y < PlaneHeight(s, plane)
    ensures Holds(Window(s, plane, slice), x, y) <==>
            Holds(slice, CellOf(PlaneWidth(s, plane), s.numHSlices, x), CellOf(PlaneHeight(s, plane), s.numVSlices, y))
  {
    hide ScaledGridPosition, CellOf, PlaneWidth, PlaneHeight;
    BetweenLines(PlaneWidth(s, plane), s.numHSlices, x, slice.x, slice.x + slice.width);
    BetweenLines(PlaneHeight(s, plane), s.numVSlices, y, slice.y, slice.y + slice.height);
  }

  /** An exact tiling of the raster tiles every plane exactly, subsampled ones included: every
      sample is coded by exactly one slice. */
  lemma PlaneTiled(s: StreamParameters, plane: nat, slices: seq<Rect>)
    requires 0 < s.numHSlices && 0 < s.numVSlices
    requires ExactCover(slices, s.numHSlices, s.numVSlices)
    ensures ExactCover(Windows(s, plane, slices), PlaneWidth(s, plane), PlaneHeight(s, plane))
  {
    hide CellOf, Window, PlaneWidth, PlaneHeight, Holds;
    var windows := Windows(s, plane, slices);
    forall x: nat, y: nat | x < PlaneWidth(s, plane) && y < PlaneHeight(s, plane)
      ensures CoveredOnce(windows, x, y)
    {
      var column := CellOf(PlaneWidth(s, plane), s.numHSlices, x);
      var row := CellOf(PlaneHeight(s, plane), s.numVSlices, y);
      BetweenLines(PlaneWidth(s, plane), s.numHSlices, x, 0, 0);
      BetweenLines(PlaneHeight(s, plane), s.numVSlices, y, 0, 0);
      assert CoveredOnce(slices, column, row);
      var i :| OnlyOne(slices, i, column, row);
      forall j | 0 <= j < |slices|
        ensures Holds(windows[j], x, y) <==> Holds(slices[j], column, row)
      {
        SampleBelongs(s, plane, slices[j], x, y);
      }
      assert OnlyOne(windows, i, x, y);
    }
  }

  /** No cell of the grid is empty exactly when the plane has a sample for each of them. */
  lemma NoCellEmpty(extent: nat, count: nat)
    requires 0 < count
    ensures count <= extent <==>
            forall i: nat :: i < count ==> ScaledGridPosition(extent, count, i) < ScaledGridPosition(extent, count, i + 1)
  {
    hide ScaledGridPosition;
    PositionEnds(extent, count);
    if count <= extent {
      forall i: nat | i < count
        ensures ScaledGridPosition(extent, count, i) < ScaledGridPosition(extent, count, i + 1)
      {
        WideCell(extent, count, i);
      }
    } else if forall i: nat :: i < count ==> ScaledGridPosition(extent, count, i) < ScaledGridPosition(extent, count, i + 1) {
      LinesSpread(extent, count, count);
    }
  }

  lemma WideCell(extent: nat, count: nat, i: nat)
    requires 0 < count <= extent
    ensures ScaledGridPosition(extent, count, i) < ScaledGridPosition(extent, count, i + 1)
  {
    assert (i + 1) * extent == i * extent + extent;
    DivMonotone(i * extent + count, (i + 1) * extent, count);
    var q, r := i * extent / count, i * extent % count;
    DivUnique(i * extent + count, count, q + 1, r);
  }

  lemma {:induction false} LinesSpread(extent: nat, count: nat, n: nat)
    requires 0 < count && n <= count
    requires forall i: nat :: i < count ==> ScaledGridPosition(extent, count, i) < ScaledGridPosition(extent, count, i + 1)
    ensures n <= ScaledGridPosition(extent, count, n)
  {
    hide ScaledGridPosition;
    if n > 0 {
      LinesSpread(extent, count, n - 1);
      assert ScaledGridPosition(extent, count, n - 1) < ScaledGridPosition(extent, count, n - 1 + 1);
    }
  }
}
