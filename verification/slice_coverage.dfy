// The validator as a whole: what it accepts is exactly what tiles the raster.

module SliceCoverage {
  import opened Basics
  import opened SliceRaster

  const CIF_PIXELS: nat := 101376

  function Area(r: Rect): nat {
    r.width * r.height
  }

  /** Larger than CIF, version 3: no slice may cover more than a quarter of the raster. */
  predicate LimitsArea(version: nat, width: nat, height: nat) {
    3 <= version && CIF_PIXELS < width * height
  }

  predicate Acceptable(r: Rect, columns: nat, rows: nat, limited: bool) {
    Inside(r, columns, rows) && (limited ==> Area(r) <= columns * rows / 4)
  }

  /** The area covered so far, and whether the raster's area was ever exceeded. */
  datatype Coverage = Coverage(area: nat, exceeded: bool)

  function Count(rects: seq<Rect>, n: nat, cells: nat): (c: Coverage)
    requires n <= |rects|
    ensures c.area <= cells
  {
    if n == 0 then Coverage(0, false)
    else
      var c := Count(rects, n - 1, cells);
      if cells - c.area < Area(rects[n - 1]) then c.(exceeded := true)
      else c.(area := c.area + Area(rects[n - 1]))
  }

  function TotalArea(rects: seq<Rect>, n: nat): nat
    requires n <= |rects|
  {
    if n == 0 then 0 else TotalArea(rects, n - 1) + Area(rects[n - 1])
  }

  /** The sweep over the sorted events, from an empty map. */
  ghost predicate PassesSweep(rects: seq<Rect>) {
    SortedComplete(rects);
    Sweep(rects, Sort(EventsOf(rects, |rects|)), 0, [])
  }

  ghost function Validated(columns: nat, rows: nat, limited: bool, rects: seq<Rect>): Status {
    if columns == 0 || rows == 0 then Err(InvalidState)
    else if exists i :: 0 <= i < |rects| && !Acceptable(rects[i], columns, rows, limited) then Err(SyntaxError)
    else if !PassesSweep(rects) then Err(SyntaxError)
    else
      var c := Count(rects, |rects|, columns * rows);
      if c.exceeded || c.area != columns * rows then Err(SyntaxError) else Ok(())
  }

  /** Every cell of the raster lies in exactly one rectangle. */
  ghost predicate ExactCover(rects: seq<Rect>, columns: nat, rows: nat) {
    forall column: nat, row: nat :: column < columns && row < rows ==> CoveredOnce(rects, column, row)
  }

  ghost predicate CoveredOnce(rects: seq<Rect>, column: nat, row: nat) {
    exists i :: OnlyOne(rects, i, column, row)
  }

  ghost predicate OnlyOne(rects: seq<Rect>, i: int, column: nat, row: nat) {
    && 0 <= i < |rects| && Holds(rects[i], column, row)
    && forall j :: 0 <= j < |rects| && Holds(rects[j], column, row) ==> j == i
  }

  /** The flag never hides a shortfall: the totals agree exactly when nothing was exceeded. */
  lemma {:induction false} CountExact(rects: seq<Rect>, n: nat, cells: nat)
    requires n <= |rects|
    ensures var c := Count(rects, n, cells);
            && c.exceeded <==> cells < TotalArea(rects, n)
  {
    hide Area;
    if n > 0 {
      CountExact(rects, n - 1, cells);
      CountTotal(rects, n - 1, cells);
    }
  }

  lemma {:induction false} CountTotal(rects: seq<Rect>, n: nat, cells: nat)
    requires n <= |rects|
    ensures !Count(rects, n, cells).exceeded ==> Count(rects, n, cells).area == TotalArea(rects, n)
  {
    hide Area;
    if n > 0 {
      CountTotal(rects, n - 1, cells);
    }
  }

  type Cell = (nat, nat)

  ghost function Column(x: nat, y: nat, height: nat): set<Cell> {
    set row: nat | y <= row < y + height :: (x, row)
  }

  ghost function Cells(r: Rect): set<Cell> {
    set column: nat, row: nat | r.x <= column < r.x + r.width && r.y <= row < r.y + r.height :: (column, row)
  }

  lemma {:induction false} ColumnSize(x: nat, y: nat, height: nat)
    ensures |Column(x, y, height)| == height
    decreases height
  {
    if height == 0 {
      assert Column(x, y, height) == {};
    } else {
      ColumnSize(x, y, height - 1);
      assert Column(x, y, height) == Column(x, y, height - 1) + {(x, y + height - 1)};
    }
  }

  lemma CellsGrow(r: Rect)
    requires 0 < r.width
    ensures Cells(r) == Cells(r.(width := r.width - 1)) + Column(r.x + r.width - 1, r.y, r.height)
    ensures Cells(r.(width := r.width - 1)) !! Column(r.x + r.width - 1, r.y, r.height)
  {
  }

  lemma {:induction false} CellsSize(r: Rect)
    ensures |Cells(r)| == Area(r)
    decreases r.width
  {
    hide Column, Cells;
    if r.width == 0 {
      NoCells(r);
    } else {
      CellsGrow(r);
      CellsSize(r.(width := r.width - 1));
      ColumnSize(r.x + r.width - 1, r.y, r.height);
      assert r.width * r.height == (r.width - 1) * r.height + r.height;
    }
  }

  lemma NoCells(r: Rect)
    requires r.width == 0
    ensures Cells(r) == {}
  {
  }

  ghost function Union(rects: seq<Rect>, n: nat): set<Cell>
    requires n <= |rects|
  {
    if n == 0 then {} else Union(rects, n - 1) + Cells(rects[n - 1])
  }

  lemma {:induction false} UnionMember(rects: seq<Rect>, n: nat, cell: Cell)
    requires n <= |rects|
    ensures cell in Union(rects, n) <==> exists i :: 0 <= i < n && Holds(rects[i], cell.0, cell.1)
  {
    if n > 0 {
      UnionMember(rects, n - 1, cell);
      assert cell in Cells(rects[n - 1]) <==> Holds(rects[n - 1], cell.0, cell.1);
    }
  }

  /** Rectangles overlap exactly when they share a cell. */
  lemma OverlapIsShared(a: Rect, b: Rect)
    requires 0 < a.width && 0 < a.height && 0 < b.width && 0 < b.height
    ensures Overlap(a, b) <==> Holds(a, Max(a.x, b.x), Max(a.y, b.y)) && Holds(b, Max(a.x, b.x), Max(a.y, b.y))
    ensures forall column: nat, row: nat :: Holds(a, column, row) && Holds(b, column, row) ==> Overlap(a, b)
  {
  }

  lemma {:induction false} DisjointSize(rects: seq<Rect>, n: nat)
    requires n <= |rects| && Proper(rects) && Disjoint(rects)
    ensures |Union(rects, n)| == TotalArea(rects, n)
  {
    hide Area, Cells;
    if n > 0 {
      DisjointSize(rects, n - 1);
      CellsSize(rects[n - 1]);
      LastApart(rects, n);
    }
  }

  lemma LastApart(rects: seq<Rect>, n: nat)
    requires 0 < n <= |rects| && Proper(rects) && Disjoint(rects)
    ensures Union(rects, n - 1) !! Cells(rects[n - 1])
  {
    hide Union, Cells;
    var m := n - 1;
    forall cell | cell in Union(rects, m)
      ensures cell !in Cells(rects[m])
    {
      UnionMember(rects, m, cell);
      var i :| 0 <= i < m && Holds(rects[i], cell.0, cell.1);
      CellHeld(rects[m], cell);
      OverlapIsShared(rects[i], rects[m]);
    }
  }

  lemma CellHeld(r: Rect, cell: Cell)
    ensures cell in Cells(r) <==> Holds(r, cell.0, cell.1)
  {
  }

  lemma UnionInside(rects: seq<Rect>, columns: nat, rows: nat)
    requires AllInside(rects, columns, rows)
    ensures Union(rects, |rects|) <= Cells(Rect(0, 0, columns, rows))
  {
    hide Cells, Union;
    forall cell | cell in Union(rects, |rects|)
      ensures cell in Cells(Rect(0, 0, columns, rows))
    {
      UnionMember(rects, |rects|, cell);
      CellHeld(Rect(0, 0, columns, rows), cell);
    }
  }

  lemma SubsetOfSize(a: set<Cell>, b: set<Cell>)
    requires a <= b && |a| == |b|
    ensures a == b
  {
    assert |b - a| == |b| - |a|;
  }

  /** Without overlaps, the areas add up to the raster exactly when no cell is missing. */
  lemma CoverIsTiling(rects: seq<Rect>, columns: nat, rows: nat)
    requires AllInside(rects, columns, rows)
    ensures Disjoint(rects) && TotalArea(rects, |rects|) == columns * rows <==> ExactCover(rects, columns, rows)
  {
    hide Cells, Union, TotalArea;
    var grid := Rect(0, 0, columns, rows);
    CellsSize(grid);
    UnionInside(rects, columns, rows);
    if ExactCover(rects, columns, rows) {
      CoverDisjoint(rects, columns, rows);
      forall cell | cell in Cells(grid)
        ensures cell in Union(rects, |rects|)
      {
        CellHeld(grid, cell);
        UnionMember(rects, |rects|, cell);
        assert CoveredOnce(rects, cell.0, cell.1);
      }
      assert Union(rects, |rects|) == Cells(grid);
      DisjointSize(rects, |rects|);
    } else if Disjoint(rects) && TotalArea(rects, |rects|) == columns * rows {
      DisjointSize(rects, |rects|);
      SubsetOfSize(Union(rects, |rects|), Cells(grid));
      forall column: nat, row: nat | column < columns && row < rows
        ensures CoveredOnce(rects, column, row)
      {
        CellHeld(grid, (column, row));
        UnionMember(rects, |rects|, (column, row));
        var i :| 0 <= i < |rects| && Holds(rects[i], column, row);
        HeldOnce(rects, i, column, row);
      }
    }
  }

  lemma HeldOnce(rects: seq<Rect>, i: nat, column: nat, row: nat)
    requires Proper(rects) && Disjoint(rects) && i < |rects| && Holds(rects[i], column, row)
    ensures OnlyOne(rects, i, column, row)
  {
    forall j | 0 <= j < |rects| && Holds(rects[j], column, row)
      ensures j == i
    {
      OverlapIsShared(rects[Min(i, j)], rects[Max(i, j)]);
    }
  }

  lemma CoverDisjoint(rects: seq<Rect>, columns: nat, rows: nat)
    requires AllInside(rects, columns, rows) && ExactCover(rects, columns, rows)
    ensures Disjoint(rects)
  {
    forall i, j | 0 <= i < j < |rects|
      ensures !Overlap(rects[i], rects[j])
    {
      var column, row := Max(rects[i].x, rects[j].x), Max(rects[i].y, rects[j].y);
      OverlapIsShared(rects[i], rects[j]);
      assert column < columns && row < rows ==> CoveredOnce(rects, column, row);
    }
  }

  lemma NothingSwept(rects: seq<Rect>, events: seq<Event>)
    ensures Swept(rects, events, 0, []) && Intervals(rects, []) == []
  {
  }

  lemma SweepDecides(rects: seq<Rect>)
    requires Proper(rects)
    ensures PassesSweep(rects) <==> Disjoint(rects)
  {
    hide Sweep, Complete, Swept, Sort, EventsOf, Disjoint, Intervals;
    SortedComplete(rects);
    var events := Sort(EventsOf(rects, |rects|));
    NothingSwept(rects, events);
    SweepExact(rects, events, 0, []);
  }

  /** The validator accepts a list of slices if and only if every cell of the raster lies in
      exactly one of them, none leaves the raster, and none is too large. */
  lemma ValidatedExactly(columns: nat, rows: nat, limited: bool, rects: seq<Rect>)
    ensures Validated(columns, rows, limited, rects).Ok? <==>
            && 0 < columns && 0 < rows
            && (forall i :: 0 <= i < |rects| ==> Acceptable(rects[i], columns, rows, limited))
            && ExactCover(rects, columns, rows)
  {
    hide PassesSweep, ExactCover, Count, Disjoint, TotalArea, Area;
    if forall i :: 0 <= i < |rects| ==> Acceptable(rects[i], columns, rows, limited) {
      SweepDecides(rects);
      CountExact(rects, |rects|, columns * rows);
      CountTotal(rects, |rects|, columns * rows);
      CoverIsTiling(rects, columns, rows);
    }
  }

  method CollectEvents(rects: seq<Rect>, columns: nat, rows: nat, limited: bool)
    returns (r: Result<Coverage>, events: seq<Event>)
    requires 0 < columns && 0 < rows
    ensures r.Err? <==> exists i :: 0 <= i < |rects| && !Acceptable(rects[i], columns, rows, limited)
    ensures r.Err? ==> r.error == SyntaxError
    ensures r.Ok? ==> events == EventsOf(rects, |rects|) && r.value == Count(rects, |rects|, columns * rows)
  {
    var cells := columns * rows;
    var coverage := Coverage(0, false);
    events := [];
    for p := 0 to |rects|
      invariant forall i :: 0 <= i < p ==> Acceptable(rects[i], columns, rows, limited)
      invariant events == EventsOf(rects, p) && coverage == Count(rects, p, cells)
    {
      var slice := rects[p];
      if slice.width == 0 || slice.height == 0 {
        return Err(SyntaxError), events;
      }
      if slice.x > columns || slice.y > rows || slice.width > columns - slice.x || slice.height > rows - slice.y {
        return Err(SyntaxError), events;
      }
      if limited && Area(slice) > cells / 4 {
        return Err(SyntaxError), events;
      }
      if Area(slice) > cells - coverage.area {
        coverage := coverage.(exceeded := true);
      } else {
        coverage := coverage.(area := coverage.area + Area(slice));
      }
      events := events + [Event(slice.x, p, true), Event(slice.x + slice.width, p, false)];
    }
    r := Ok(coverage);
  }

  method SweepColumns(rects: seq<Rect>, events: seq<Event>) returns (passed: bool)
    requires forall i :: 0 <= i < |events| ==> events[i].position < |rects|
    ensures passed <==> Sweep(rects, events, 0, [])
  {
    var active: seq<Interval> := [];
    for k := 0 to |events|
      invariant Sweep(rects, events, k, active) <==> Sweep(rects, events, 0, [])
    {
      var slice := rects[events[k].position];
      if !events[k].starts {
        active := Erase(active, slice.y);
      } else {
        var end := slice.y + slice.height;
        var next := LowerBound(active, slice.y);
        if (next < |active| && active[next].start < end) || (0 < next && active[next - 1].end > slice.y) {
          return false;
        }
        active := Place(active, slice.y, end);
      }
    }
    passed := true;
  }

  method ValidateCoverage(version: nat, width: nat, height: nat, columns: nat, rows: nat, rects: seq<Rect>) returns (status: Status)
    ensures status == Validated(columns, rows, LimitsArea(version, width, height), rects)
    ensures status.Ok? <==>
            && 0 < columns && 0 < rows
            && (forall i :: 0 <= i < |rects| ==> Acceptable(rects[i], columns, rows, LimitsArea(version, width, height)))
            && ExactCover(rects, columns, rows)
  {
    hide Sweep, ExactCover, Acceptable, Count;
    ValidatedExactly(columns, rows, LimitsArea(version, width, height), rects);
    if columns == 0 || rows == 0 {
      return Err(InvalidState);
    }
    var coverage, events := CollectEvents(rects, columns, rows, LimitsArea(version, width, height));
    if coverage.Err? {
      return Err(SyntaxError);
    }
    SortedComplete(rects);
    var passed := SweepColumns(rects, Sort(events));
    if !passed {
      return Err(SyntaxError);
    }
    if coverage.value.exceeded || coverage.value.area != columns * rows {
      return Err(SyntaxError);
    }
    status := Ok(());
  }
}
