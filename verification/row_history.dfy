// The line buffers never hold anything but the two rows above: coding a slice with them is coding
// every row from its place on the plane.

module RowHistory {
  import opened Basics
  import opened GolombRice
  import opened GolombRun
  import opened RangeScript
  import opened SampleModel
  import opened GolombLine
  import opened RangeLine
  import opened StreamModel
  import opened SliceSchedule
  import opened GolombSlice
  import opened RangeSlice
  import opened Prediction

  /** The line buffers when the first reached[p] rows of every plane p are coded. */
  ghost predicate AreReached(l: Layout, planes: Planes, reached: seq<nat>, lines: seq<Above>)
    requires IsLayout(l) && Shaped(l, planes)
  {
    && |lines| == |reached| == |l.widths|
    && forall p :: 0 <= p < |lines| ==> reached[p] <= |planes[p]| && lines[p] == RowsAbove(planes[p], l.widths[p], reached[p])
  }

  lemma NothingReached(l: Layout, planes: Planes)
    requires IsLayout(l) && Shaped(l, planes)
    ensures AreReached(l, planes, Nothing(l), FreshLines(l))
  {
    forall p | 0 <= p < |l.widths|
      ensures FreshLines(l)[p] == RowsAbove(planes[p], l.widths[p], 0)
    {
      assert BorderRow(l.widths[p]) == seq(l.widths[p], _ => 0);
    }
  }

  /** A row coded from its place on the plane, in its own slot and width. */
  function PlacedSetting(l: Layout, planes: Planes, item: Item): (q: RangeSetting)
    requires IsLayout(l) && Shaped(l, planes) && IsItem(l, item)
    ensures IsSetting(q.row) && Width(q.row) == l.widths[item.plane]
  {
    RangeSetting(RowSetting(l.tables[item.slot], item.bits, RowsAbove(planes[item.plane], l.widths[item.plane], item.y)),
                 !l.rgb && l.bits == 16 && l.mode == RangeMode, item.slot)
  }

  ghost function PlacedOps(l: Layout, items: seq<Item>, planes: Planes): Result<seq<Operation>>
    requires IsLayout(l) && AreItems(l, items) && Shaped(l, planes)
    decreases |items|
  {
    if items == [] then Ok([])
    else
      var ops :- RowOps(PlacedSetting(l, planes, items[0]), planes[items[0].plane][items[0].y], 0);
      Then(ops, PlacedOps(l, items[1..], planes))
  }

  lemma {:induction false} RowsComeFromPlanes(l: Layout, items: seq<Item>, planes: Planes, lines: seq<Above>, reached: seq<nat>)
    requires IsLayout(l) && AreItems(l, items) && Shaped(l, planes) && AreLines(l, lines)
    requires SliceSchedule.Ordered(l, items, reached) && AreReached(l, planes, reached, lines)
    ensures ItemsOps(l, items, planes, lines) == PlacedOps(l, items, planes)
    decreases |items|
  {
    hide RowOps, IsLayout;
    if items != [] {
      var item := items[0];
      RowPassed(l, planes, reached, lines, item);
      RowsComeFromPlanes(l, items[1..], planes, NextLines(lines, item.plane, planes[item.plane][item.y]), reached[item.plane := item.y + 1]);
    }
  }

  lemma RowPassed(l: Layout, planes: Planes, reached: seq<nat>, lines: seq<Above>, item: Item)
    requires IsLayout(l) && Shaped(l, planes) && IsItem(l, item) && AreLines(l, lines) && AreReached(l, planes, reached, lines)
    requires item.y == reached[item.plane]
    ensures LineSetting(l, lines, item) == PlacedSetting(l, planes, item)
    ensures AreReached(l, planes, reached[item.plane := item.y + 1], NextLines(lines, item.plane, planes[item.plane][item.y]))
  {
  }

  /** In range mode the content of a slice is its rows, each coded from its place. */
  lemma ContentComesFromPlanes(l: Layout, image: Planes)
    requires IsLayout(l) && Shaped(l, image)
    ensures Shaped(l, Transformed(l, image)) && AreItems(l, Schedule(l))
    ensures ContentOps(l, image) == PlacedOps(l, Schedule(l), Transformed(l, image))
  {
    hide ItemsOps, PlacedOps, Schedule, Transformed, SliceSchedule.Ordered, AreItems, AreReached;
    ScheduleOrdered(l);
    OrderedAreItems(l, Schedule(l), Nothing(l));
    TransformedShaped(l, image);
    FreshLinesFit(l);
    NothingReached(l, Transformed(l, image));
    RowsComeFromPlanes(l, Schedule(l), Transformed(l, image), FreshLines(l), Nothing(l));
  }

  /** In Golomb-Rice mode as well every row is coded with the two rows above it on its plane. */
  lemma GolombRowPassed(l: Layout, planes: Planes, reached: seq<nat>, st: GolombState, item: Item)
    requires IsLayout(l) && Shaped(l, planes) && IsItem(l, item) && IsGolombState(l, st) && AreReached(l, planes, reached, st.lines)
    requires item.y == reached[item.plane] && CodeItem(l, item, planes[item.plane][item.y], st).Ok?
    ensures Setting(l, st, item) == PlacedSetting(l, planes, item).row
    ensures AreReached(l, planes, reached[item.plane := item.y + 1], CodeItem(l, item, planes[item.plane][item.y], st).value.1.lines)
  {
    hide CodeRow;
  }

  /** Rows of a plane on its own come plane after plane; rows of transformed planes come together. */
  lemma {:induction false} PlanarInOrder(l: Layout, plane: nat, y: nat, i: nat)
    requires IsLayout(l) && plane <= |l.widths| && (plane < |l.widths| ==> y <= l.heights[plane]) && i < |PlanarItems(l, plane, y)|
    ensures var item := PlanarItems(l, plane, y)[i];
            && plane <= item.plane < |l.widths| && (item.plane == plane ==> y <= item.y)
            && item == Item(item.plane, item.y, l.slots[item.plane], item.plane, if l.rgb && (item.plane < 3 || l.mode == GolombRiceMode) then l.bits + 1 else l.bits)
    decreases |l.widths| - plane, if plane < |l.widths| then l.heights[plane] - y else 0
  {
    if plane < |l.widths| {
      if y == l.heights[plane] {
        PlanarInOrder(l, plane + 1, 0, i);
      } else if i > 0 {
        PlanarInOrder(l, plane, y + 1, i - 1);
      }
    }
  }

  lemma {:induction false} PlanarAscends(l: Layout, plane: nat, y: nat, i: nat, j: nat)
    requires IsLayout(l) && plane <= |l.widths| && (plane < |l.widths| ==> y <= l.heights[plane]) && i < j < |PlanarItems(l, plane, y)|
    ensures var a, b := PlanarItems(l, plane, y)[i], PlanarItems(l, plane, y)[j];
            a.plane < b.plane || (a.plane == b.plane && a.y < b.y)
    decreases |l.widths| - plane, if plane < |l.widths| then l.heights[plane] - y else 0
  {
    if plane < |l.widths| {
      if y == l.heights[plane] {
        PlanarAscends(l, plane + 1, 0, i, j);
      } else if i > 0 {
        PlanarAscends(l, plane, y + 1, i - 1, j - 1);
      } else {
        PlanarInOrder(l, plane, y + 1, j - 1);
      }
    }
  }

  lemma {:induction false} RgbInOrder(l: Layout, y: nat, plane: nat, i: nat)
    requires IsLayout(l) && l.rgb && y <= l.heights[0] && plane <= |l.widths| && i < |RgbItems(l, y, plane)|
    ensures var item := RgbItems(l, y, plane)[i];
            && y <= item.y && item.plane < |l.widths| && (item.y == y ==> plane <= item.plane)
            && item == Item(item.plane, item.y, l.slots[item.plane], 0, if item.plane < 3 || l.mode == GolombRiceMode then l.bits + 1 else l.bits)
    decreases l.heights[0] - y, |l.widths| - plane
  {
    if y < l.heights[0] {
      if plane == |l.widths| {
        RgbInOrder(l, y + 1, 0, i);
      } else if i > 0 {
        RgbInOrder(l, y, plane + 1, i - 1);
      }
    }
  }

  lemma {:induction false} RgbAscends(l: Layout, y: nat, plane: nat, i: nat, j: nat)
    requires IsLayout(l) && l.rgb && y <= l.heights[0] && plane <= |l.widths| && i < j < |RgbItems(l, y, plane)|
    ensures var a, b := RgbItems(l, y, plane)[i], RgbItems(l, y, plane)[j];
            a.y < b.y || (a.y == b.y && a.plane < b.plane)
    decreases l.heights[0] - y, |l.widths| - plane
  {
    if y < l.heights[0] {
      if plane == |l.widths| {
        RgbAscends(l, y + 1, 0, i, j);
      } else if i > 0 {
        RgbAscends(l, y, plane + 1, i - 1, j - 1);
      } else {
        RgbInOrder(l, y, plane + 1, j - 1);
      }
    }
  }

  /** Plane by plane without the colour transform, row by row with it; each row with the slot of its
      plane, the run state of its plane or the shared first one, and its own width. */
  lemma ScheduleAscends(l: Layout, i: nat, j: nat)
    requires IsLayout(l) && i < j < |Schedule(l)|
    ensures var a, b := Schedule(l)[i], Schedule(l)[j];
            if l.rgb then a.y < b.y || (a.y == b.y && a.plane < b.plane)
            else a.plane < b.plane || (a.plane == b.plane && a.y < b.y)
  {
    if l.rgb {
      RgbAscends(l, 0, 0, i, j);
    } else {
      PlanarAscends(l, 0, 0, i, j);
    }
  }

  lemma ScheduleItems(l: Layout, i: nat)
    requires IsLayout(l) && i < |Schedule(l)|
    ensures var item := Schedule(l)[i];
            && item.plane < |l.widths| && item.slot == l.slots[item.plane]
            && item.run == (if l.rgb then 0 else item.plane)
            && item.bits == (if l.rgb && (item.plane < 3 || l.mode == GolombRiceMode) then l.bits + 1 else l.bits)
  {
    if l.rgb {
      RgbInOrder(l, 0, 0, i);
    } else {
      PlanarInOrder(l, 0, 0, i);
    }
  }

  /** A row in Golomb-Rice mode, turn by turn.  Where the context is not zero, the symbol of the sample
      in that context; where it is, the longest run of predicted samples and, unless it ends the row, the
      sample that interrupts it, in its own context. */
  lemma TurnPlaced(q: RowSetting, row: seq<int>, x: nat, st: RowState)
    requires GolombLine.IsSetting(q) && x < |row| == GolombLine.Width(q) && IsState(q, st) && CodeRow(q, row, x, st).Ok?
    ensures var n := NeighborsAt(q.above, row, x);
            && DeriveContext(q.tables, n).Ok?
            && var c := DeriveContext(q.tables, n).value;
            if c.index != 0 then
              var symbol := Symbol(st.bank[c.index], q.bits, Sent(row[x], Predict(n), q.bits, c.inverted));
              && symbol.Ok?
              && CodeRow(q, row, x, st) == Prefixed(symbol.value.0, CodeRow(q, row, x + 1, st.(bank := st.bank[c.index := symbol.value.1])))
            else
              var e := RunEnd(q, row, x);
              var run := RunCode(st.run, x, GolombLine.Width(q), e - x);
              && run.Ok?
              && var after := st.(run := run.value.1);
              if e == |row| then CodeRow(q, row, x, st) == Prefixed(run.value.0, Ok(GolombLine.Coded([], after)))
              else
                var m := NeighborsAt(q.above, row, e);
                && DeriveContext(q.tables, m).Ok?
                && var d := DeriveContext(q.tables, m).value;
                var last := Interruption(after.bank[d.index], q.bits, Sent(row[e], Predict(m), q.bits, d.inverted));
                && last.Ok?
                && CodeRow(q, row, x, st) == Prefixed(run.value.0 + last.value.0, CodeRow(q, row, e + 1, after.(bank := after.bank[d.index := last.value.1])))
  {
    hide NeighborsAt, DeriveContext, Predict, Sent, Symbol, Interruption, RunCode, RunEnd;
  }

  /** A row uses the contexts of its slot and its run state, and changes no others. */
  lemma GolombItemPlaced(l: Layout, item: Item, row: seq<int>, st: GolombState)
    requires IsLayout(l) && IsItem(l, item) && IsGolombState(l, st) && |row| == l.widths[item.plane] && CodeItem(l, item, row, st).Ok?
    ensures st.runs[item.run].index < RUN_INDEXES
    ensures var (bits, next) := CodeItem(l, item, row, st).value;
            var coded := CodeRow(Setting(l, st, item), row, 0, RowState(st.banks[item.slot], st.runs[item.run].index));
            && coded.Ok? && bits == coded.value.bits
            && |next.banks| == |st.banks| && |next.runs| == |st.runs|
            && next.banks[item.slot] == coded.value.state.bank && next.runs[item.run].index == coded.value.state.run
            && (forall b :: 0 <= b < |st.banks| && b != item.slot ==> next.banks[b] == st.banks[b])
            && (forall r :: 0 <= r < |st.runs| && r != item.run ==> next.runs[r] == st.runs[r])
  {
    hide CodeRow;
  }
}
