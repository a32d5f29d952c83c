// The loops that write the rows of a slice in range mode.

module RangeSliceCoding {
  import opened Basics
  import opened GolombRice
  import opened SampleModel
  import opened ColorTransform
  import opened GolombLine
  import opened GolombLineCoding
  import opened RangeInterval
  import opened RangeSymbols
  import opened RangeContexts
  import opened RangeScript
  import opened RangeEncoding
  import opened RangeLine
  import opened RangeSlice
  import opened StreamModel
  import opened SliceSchedule
  import opened SliceStates
  import opened SliceWindow

  /** Codes one sample against its prediction. */
  method EncodeSample(writer: RangeEncoder, q: RangeSetting, samples: seq<int>, current: seq<int>, x: nat) returns (status: Status)
    requires writer.Valid()
    requires IsSetting(q.row) && q.row.bits < 31 && x < |samples| == Width(q.row)
    requires Agrees(q.row, current, samples, x)
    modifies writer
    ensures writer.Valid() && writer.initialized == old(writer.initialized) && writer.finalized == old(writer.finalized)
    ensures status.Ok? <==>
              && old(writer.Writable()) && SampleOp(q, samples, x).Ok?
              && Write(old(writer.Value()), SampleOp(q, samples, x).value).Ok?
    ensures status.Ok? ==> Write(old(writer.Value()), SampleOp(q, samples, x).value) == Ok(writer.Value())
  {
    hide NeighborsAt, Folded, WrapDifference, RangePrediction, RangeScript.WriteSymbol, LowBits;
    SameNeighbors(q.row, current, samples, x);
    var neighbors := NeighborsAt(q.row.above, current, x);
    var prediction := RangePrediction(neighbors, q.signed16);
    var context := ComputeContext(q.row.tables, neighbors);
    if context.Err? {
      return Err(context.error);
    }
    var difference := Difference(samples[x], prediction, q.row.bits);
    if context.value.inverted {
      difference := -difference;
    }
    HalfBounded(q.row.bits);
    SentInRange(samples[x], prediction, q.row.bits, context.value.inverted);
    status := writer.WriteSigned(q.bank, context.value.index, difference);
  }

  /** Codes a row; samples beyond `depth` bits are refused when their turn comes. */
  method EncodeRangeRow(writer: RangeEncoder, q: RangeSetting, samples: seq<int>, line: seq<int>, depth: nat)
    returns (status: Status, current: seq<int>)
    requires writer.Valid() && writer.Writable()
    requires IsSetting(q.row) && q.row.bits < 31 && |samples| == |line| == Width(q.row)
    modifies writer
    ensures writer.Valid() && writer.Writable()
    ensures status.Ok? <==> AllSamples(samples, depth) && Attempt(old(writer.Value()), RowOps(q, samples, 0)).Some?
    ensures status.Ok? ==> Attempt(old(writer.Value()), RowOps(q, samples, 0)) == Some(writer.Value()) && current == samples
  {
    hide SampleOp, Write;
    current := line;
    ghost var goal := Attempt(writer.Value(), RowOps(q, samples, 0));
    for x := 0 to |samples|
      invariant writer.Valid() && writer.Writable()
      invariant Agrees(q.row, current, samples, x) && AllSamples(samples[..x], depth)
      invariant Attempt(writer.Value(), RowOps(q, samples, x)) == goal
    {
      if samples[x] < 0 || Pow2(depth) <= samples[x] {
        assert !IsSample(samples[x], depth);
        return Err(InvalidArgument), current;
      }
      ghost var op := SampleOp(q, samples, x);
      if op.Ok? {
        AttemptThen(writer.Value(), [op.value], RowOps(q, samples, x + 1));
        WriteOne(writer.Value(), op.value);
      }
      status := EncodeSample(writer, q, samples, current, x);
      if status.Err? {
        return;
      }
      StoredAgrees(q.row, current, samples, x);
      current := current[x := samples[x]];
    }
    assert samples[..|samples|] == samples && current[..|samples|] == current;
    status := Ok(());
  }

  /** Codes one row into the current line of its plane. */
  method EncodeRangeLine(writer: RangeEncoder, l: Layout, item: Item, samples: seq<int>, depth: nat, state: SliceState, ghost first: nat)
    returns (status: Status)
    requires writer.Valid() && writer.Writable()
    requires IsLayout(l) && state.Fits(l) && IsItem(l, item) && first <= item.plane && |samples| == l.widths[item.plane]
    requires AreLines(l, state.Viewed(first, item.plane))
    modifies writer, state`lines
    ensures writer.Valid() && writer.Writable() && state.Fits(l)
    ensures status.Ok? <==>
              && AllSamples(samples, depth)
              && Attempt(old(writer.Value()), RowOps(LineSetting(l, old(state.Viewed(first, item.plane)), item), samples, 0)).Some?
    ensures status.Ok? ==>
              && Attempt(old(writer.Value()), RowOps(LineSetting(l, old(state.Viewed(first, item.plane)), item), samples, 0))
                 == Some(writer.Value())
              && state.lines == old(state.lines)[item.plane := old(state.lines[item.plane]).(current := samples)]
              && state.Viewed(first, item.plane + 1) == NextLines(old(state.Viewed(first, item.plane)), item.plane, samples)
  {
    hide RowOps, IsTableSet, AllSamples, Attempt;
    var line := state.lines[item.plane];
    var q := RangeSetting(RowSetting(l.tables[item.slot], item.bits, line.above), Signed16(l), item.slot);
    assert q == LineSetting(l, state.Viewed(first, item.plane), item);
    var current;
    status, current := EncodeRangeRow(writer, q, samples, line.current, depth);
    if status.Ok? {
      state.lines := state.lines[item.plane := line.(current := current)];
    }
  }

  /** Where the rows still to be coded lead the encoder. */
  ghost function Destination(writer: RangeEncoder, l: Layout, items: seq<Item>, planes: Planes, lines: seq<Above>): Option<Encoder>
    requires IsLayout(l) && AreItems(l, items) && Shaped(l, planes) && AreLines(l, lines)
    reads writer
  {
    Attempt(writer.Value(), ItemsOps(l, items, planes, lines))
  }

  lemma ItemsOpsStep(e: Encoder, l: Layout, items: seq<Item>, planes: Planes, lines: seq<Above>)
    requires IsLayout(l) && AreItems(l, items) && Shaped(l, planes) && AreLines(l, lines) && items != []
    ensures var row := planes[items[0].plane][items[0].y];
            var next := NextLines(lines, items[0].plane, row);
            && AreLines(l, next) && AreItems(l, items[1..])
            && Attempt(e, ItemsOps(l, items, planes, lines)) ==
               match Attempt(e, RowOps(LineSetting(l, lines, items[0]), row, 0))
               case None => None
               case Some(e') => Attempt(e', ItemsOps(l, items[1..], planes, next))
  {
    hide RowOps, IsTableSet;
    var row := planes[items[0].plane][items[0].y];
    var ops := RowOps(LineSetting(l, lines, items[0]), row, 0);
    if ops.Ok? {
      AttemptThen(e, ops.value, ItemsOps(l, items[1..], planes, NextLines(lines, items[0].plane, row)));
    }
  }

  /** Coding the next row does not change the destination. */
  method EncodeNextRow(writer: RangeEncoder, l: Layout, ghost items: seq<Item>, ghost planes: Planes, item: Item, samples: seq<int>,
                       depth: nat, state: SliceState, ghost first: nat)
    returns (status: Status)
    requires writer.Valid() && writer.Writable()
    requires IsLayout(l) && state.Fits(l) && first <= item.plane
    requires AreItems(l, items) && Shaped(l, planes) && AreLines(l, state.Viewed(first, item.plane))
    requires items != [] && item == items[0] && samples == planes[item.plane][item.y]
    modifies writer, state`lines
    ensures writer.Valid() && writer.Writable() && state.Fits(l)
    ensures status.Err? ==>
              !AllSamples(samples, depth) || old(Destination(writer, l, items, planes, state.Viewed(first, item.plane))) == None
    ensures status.Ok? ==> AllSamples(samples, depth)
    ensures status.Ok? ==> AreItems(l, items[1..]) && AreLines(l, state.Viewed(first, item.plane + 1))
    ensures status.Ok? ==>
              Destination(writer, l, items[1..], planes, state.Viewed(first, item.plane + 1))
              == old(Destination(writer, l, items, planes, state.Viewed(first, item.plane)))
  {
    hide RowOps, IsTableSet, AllSamples, Attempt, ItemsOps;
    ItemsOpsStep(writer.Value(), l, items, planes, state.Viewed(first, item.plane));
    status := EncodeRangeLine(writer, l, item, samples, depth, state, first);
  }

  /** Plane after plane, row after row. */
  method EncodeRangePlanes(writer: RangeEncoder, l: Layout, image: Planes, state: SliceState) returns (status: Status)
    requires writer.Valid() && writer.Writable()
    requires IsLayout(l) && !l.rgb && Shaped(l, image) && state.Fits(l) && AreLines(l, state.Aboves())
    requires AreItems(l, Schedule(l))
    modifies writer, state`lines
    ensures writer.Valid() && writer.Writable() && state.Fits(l)
    ensures status.Ok? <==> IsImage(l, image) && old(Destination(writer, l, Schedule(l), image, state.Aboves())).Some?
    ensures status.Ok? ==> Some(writer.Value()) == old(Destination(writer, l, Schedule(l), image, state.Aboves()))
  {
    hide AllSamples, IsTableSet, IsAbove, Destination, Loaded;
    ghost var goal := Destination(writer, l, PlanarItems(l, 0, 0), image, state.Aboves());
    NothingLoaded(l, image);
    for plane := 0 to |image|
      invariant writer.Valid() && writer.Writable() && state.Fits(l) && AreLines(l, state.Aboves())
      invariant AreItems(l, PlanarItems(l, plane, 0))
      invariant Loaded(l, image, PlanarReached(l, plane, 0))
      invariant Destination(writer, l, PlanarItems(l, plane, 0), image, state.Aboves()) == goal
    {
      for y := 0 to l.heights[plane]
        invariant writer.Valid() && writer.Writable() && state.Fits(l) && AreLines(l, state.Aboves())
        invariant AreItems(l, PlanarItems(l, plane, y))
        invariant Loaded(l, image, PlanarReached(l, plane, y))
        invariant Destination(writer, l, PlanarItems(l, plane, y), image, state.Aboves()) == goal
      {
        var item := Item(plane, y, l.slots[plane], plane, RowBits(l, plane));
        ghost var items := PlanarItems(l, plane, y);
        assert items[0] == item && items[1..] == PlanarItems(l, plane, y + 1);
        status := EncodePlanarRow(writer, l, items, image, item, image[plane][y], state);
        if status.Err? {
          return;
        }
        LoadedNext(l, image, plane, y);
      }
      LoadedPlane(l, image, plane);
    }
    NowhereToGo(writer, l, image, state);
    AllLoaded(l, image, PlanarReached(l, |image|, 0));
    status := Ok(());
  }

  /** A row of a plane coded on its own is swapped at once. */
  method EncodePlanarRow(writer: RangeEncoder, l: Layout, ghost items: seq<Item>, ghost planes: Planes, item: Item, samples: seq<int>,
                         state: SliceState)
    returns (status: Status)
    requires writer.Valid() && writer.Writable()
    requires IsLayout(l) && state.Fits(l)
    requires AreItems(l, items) && Shaped(l, planes) && AreLines(l, state.Aboves())
    requires items != [] && item == items[0] && samples == planes[item.plane][item.y]
    modifies writer, state`lines
    ensures writer.Valid() && writer.Writable() && state.Fits(l)
    ensures status.Err? ==> !AllSamples(samples, l.bits) || old(Destination(writer, l, items, planes, state.Aboves())) == None
    ensures status.Ok? ==> AllSamples(samples, l.bits) && AreItems(l, items[1..]) && AreLines(l, state.Aboves())
    ensures status.Ok? ==>
              Destination(writer, l, items[1..], planes, state.Aboves()) == old(Destination(writer, l, items, planes, state.Aboves()))
  {
    hide AllSamples, IsTableSet, IsAbove, ItemsOps;
    state.NothingSwapped(item.plane);
    status := EncodeNextRow(writer, l, items, planes, item, samples, l.bits, state, item.plane);
    if status.Ok? {
      ghost var viewed := state.Viewed(item.plane, item.plane + 1);
      state.SwapLines(item.plane);
      assert state.Aboves() == viewed;
    }
  }

  lemma NowhereToGo(writer: RangeEncoder, l: Layout, planes: Planes, state: SliceState)
    requires IsLayout(l) && state.Fits(l) && AreLines(l, state.Aboves()) && Shaped(l, planes)
    ensures Destination(writer, l, [], planes, state.Aboves()) == Some(writer.Value())
  {
  }

  /** Rows y of all planes; the lines wait for the last plane to be swapped. */
  method EncodeRangeRgbRow(writer: RangeEncoder, l: Layout, rows: seq<seq<int>>, y: nat, ghost planes: Planes, state: SliceState)
    returns (status: Status)
    requires writer.Valid() && writer.Writable()
    requires IsLayout(l) && l.rgb && state.Fits(l) && y < l.heights[0] && Shaped(l, planes)
    requires |rows| == |l.widths| && forall p :: 0 <= p < |rows| ==> rows[p] == planes[p][y]
    requires forall p :: 0 <= p < 3 ==> AllSamples(rows[p], l.bits + 1)
    requires AreItems(l, RgbItems(l, y, 0)) && AreLines(l, state.Aboves())
    modifies writer, state`lines
    ensures writer.Valid() && writer.Writable() && state.Fits(l)
    ensures status.Err? ==>
              || (3 < |rows| && !AllSamples(rows[3], l.bits))
              || old(Destination(writer, l, RgbItems(l, y, 0), planes, state.Aboves())) == None
    ensures status.Ok? ==> 3 < |rows| ==> AllSamples(rows[3], l.bits)
    ensures status.Ok? ==> AreItems(l, RgbItems(l, y + 1, 0)) && AreLines(l, state.Aboves())
    ensures status.Ok? ==>
              Destination(writer, l, RgbItems(l, y + 1, 0), planes, state.Aboves())
              == old(Destination(writer, l, RgbItems(l, y, 0), planes, state.Aboves()))
  {
    hide AllSamples, IsTableSet, IsAbove, Destination;
    state.NothingSwapped(0);
    ghost var goal := Destination(writer, l, RgbItems(l, y, 0), planes, state.Aboves());
    for plane := 0 to |rows|
      invariant writer.Valid() && writer.Writable() && state.Fits(l) && AreLines(l, state.Viewed(0, plane))
      invariant AreItems(l, RgbItems(l, y, plane))
      invariant 3 < plane ==> AllSamples(rows[3], l.bits)
      invariant Destination(writer, l, RgbItems(l, y, plane), planes, state.Viewed(0, plane)) == goal
    {
      var item := Item(plane, y, l.slots[plane], 0, RowBits(l, plane));
      ghost var items := RgbItems(l, y, plane);
      assert items[0] == item && items[1..] == RgbItems(l, y, plane + 1);
      status := EncodeNextRow(writer, l, items, planes, item, rows[plane], if plane < 3 then l.bits + 1 else l.bits, state, 0);
      if status.Err? {
        return;
      }
    }
    state.SwapAll();
    status := Ok(());
  }

  lemma ColoursInRange(l: Layout, image: Planes, y: nat, p: nat)
    requires IsLayout(l) && Shaped(l, image) && l.rgb && y < l.heights[0] && p < 3
    requires forall k :: 0 <= k < 3 ==> AllSamples(image[k][y], l.bits)
    ensures AllSamples(TransformedPlane(l, image, p)[y], l.bits + 1)
  {
    hide ForwardRows, InverseRows, AllSamples;
    RowsRestored(RgbRow(l, image, y), l.bits, l.extraPlane);
  }

  /** Row after row, the planes interleaved. */
  method EncodeRangeRgb(writer: RangeEncoder, l: Layout, image: Planes, state: SliceState) returns (status: Status)
    requires writer.Valid() && writer.Writable()
    requires IsLayout(l) && l.rgb && Shaped(l, image) && state.Fits(l) && AreLines(l, state.Aboves())
    requires AreItems(l, Schedule(l)) && Shaped(l, Transformed(l, image))
    modifies writer, state`lines
    ensures writer.Valid() && writer.Writable() && state.Fits(l)
    ensures status.Ok? <==>
              IsImage(l, image) && old(Destination(writer, l, Schedule(l), Transformed(l, image), state.Aboves())).Some?
    ensures status.Ok? ==> Some(writer.Value()) == old(Destination(writer, l, Schedule(l), Transformed(l, image), state.Aboves()))
  {
    hide AllSamples, IsTableSet, IsAbove, Destination, Loaded, TransformedPlane;
    ghost var planes := Transformed(l, image);
    ghost var goal := Destination(writer, l, RgbItems(l, 0, 0), planes, state.Aboves());
    NothingLoaded(l, image);
    for y := 0 to l.heights[0]
      invariant writer.Valid() && writer.Writable() && state.Fits(l) && AreLines(l, state.Aboves())
      invariant AreItems(l, RgbItems(l, y, 0))
      invariant Loaded(l, image, RgbReached(l, y, 0))
      invariant Destination(writer, l, RgbItems(l, y, 0), planes, state.Aboves()) == goal
    {
      var rows := LoadRgbRows(l, image, y, 3);
      if rows.Err? {
        return Err(rows.error);
      }
      forall p | 0 <= p < 3
        ensures AllSamples(rows.value[p], l.bits + 1)
      {
        ColoursInRange(l, image, y, p);
      }
      if 3 < |image| {
        AlphaKept(l, image, y);
      }
      status := EncodeRangeRgbRow(writer, l, rows.value, y, planes, state);
      if status.Err? {
        return;
      }
      LoadedRgb(l, image, y);
    }
    NowhereToGo(writer, l, planes, state);
    AllLoaded(l, image, RgbReached(l, l.heights[0], 0));
    status := Ok(());
  }

  lemma AlphaKept(l: Layout, image: Planes, y: nat)
    requires IsLayout(l) && Shaped(l, image) && l.rgb && y < l.heights[0] && 3 < |image|
    ensures TransformedPlane(l, image, 3)[y] == image[3][y]
  {
  }

  /** Codes the samples of a window as symbols of the range coder. */
  method EncodeRangeSamples(writer: RangeEncoder, l: Layout, image: Planes, state: SliceState) returns (status: Status)
    requires writer.Valid() && writer.Writable()
    requires IsLayout(l) && Shaped(l, image) && state.Fits(l) && state.Aboves() == FreshLines(l)
    modifies writer, state`lines
    ensures writer.Valid() && writer.Writable() && state.Fits(l)
    ensures status.Ok? <==> IsImage(l, image) && Attempt(old(writer.Value()), ContentOps(l, image)).Some?
    ensures status.Ok? ==> Attempt(old(writer.Value()), ContentOps(l, image)) == Some(writer.Value())
  {
    hide AllSamples, IsTableSet, TransformedPlane, Schedule, Ordered, AreItems, ItemsOps, Attempt;
    ScheduleOrdered(l);
    OrderedAreItems(l, Schedule(l), Nothing(l));
    TransformedShaped(l, image);
    FreshLinesFit(l);
    if l.rgb {
      status := EncodeRangeRgb(writer, l, image, state);
    } else {
      status := EncodeRangePlanes(writer, l, image, state);
    }
  }
}
