// The loops that read the rows of a slice in range mode.

module RangeSliceDecoding {
  import opened Basics
  import opened GolombRice
  import opened SampleModel
  import opened GolombLine
  import opened GolombLineDecoding
  import opened RangeInterval
  import opened RangeSymbols
  import opened RangeContexts
  import opened RangeScript
  import opened RangeDecoding
  import opened RangeLine
  import opened RangeSlice
  import opened StreamModel
  import opened SliceSchedule
  import opened SliceStates
  import opened SliceWindow

  method DecodeSample(reader: RangeCoder, q: RangeSetting, current: seq<int>, x: nat) returns (r: Result<int>)
    requires reader.Valid() && reader.initialized
    requires IsSetting(q.row) && x < |current| == Width(q.row)
    modifies reader
    ensures reader.Valid() && reader.initialized
    ensures match ReadSample(q, old(reader.Value()), current[..x])
            case Err(error) => r == Err(error)
            case Ok((sample, d)) => r == Ok(sample) && reader.Value() == d
  {
    hide NeighborsAt, Folded, RangePrediction, RangeScript.ReadSymbol, Reconstruct;
    PartialNeighbors(q.row, current, x);
    var neighbors := NeighborsAt(q.row.above, current, x);
    var prediction := RangePrediction(neighbors, q.signed16);
    var context := ComputeContext(q.row.tables, neighbors);
    if context.Err? {
      return Err(context.error);
    }
    var difference := reader.ReadSymbol(q.bank, context.value.index, true);
    if difference.Err? {
      return Err(difference.error);
    }
    var received := if context.value.inverted then -difference.value else difference.value;
    if received < INT32_MIN || INT32_MAX < received {
      return Err(SyntaxError);
    }
    r := Ok(Reconstruct(prediction, received, q.row.bits));
  }

  method DecodeRangeRow(reader: RangeCoder, q: RangeSetting, line: seq<int>) returns (status: Status, current: seq<int>)
    requires reader.Valid() && reader.initialized
    requires IsSetting(q.row) && |line| == Width(q.row)
    modifies reader
    ensures reader.Valid() && reader.initialized
    ensures match ReadRangeRow(q, old(reader.Value()), [])
            case Err(error) => status == Err(error)
            case Ok((row, d)) => status == Ok(()) && current == row && reader.Value() == d
  {
    hide ReadSample;
    current := line;
    ghost var goal := ReadRangeRow(q, reader.Value(), []);
    assert current[..0] == [];
    for x := 0 to |line|
      invariant reader.Valid() && reader.initialized && |current| == |line|
      invariant ReadRangeRow(q, reader.Value(), current[..x]) == goal
    {
      var sample := DecodeSample(reader, q, current, x);
      if sample.Err? {
        return Err(sample.error), current;
      }
      Stored(current, x, sample.value);
      current := current[x := sample.value];
    }
    assert current[..|line|] == current;
    status := Ok(());
  }

  /** Reads one row into the current line of its plane. */
  method DecodeRangeLine(reader: RangeCoder, l: Layout, item: Item, state: SliceState, ghost first: nat) returns (status: Status)
    requires reader.Valid() && reader.initialized
    requires IsLayout(l) && state.Fits(l) && IsItem(l, item) && first <= item.plane
    requires AreLines(l, state.Viewed(first, item.plane))
    modifies reader, state`lines
    ensures reader.Valid() && reader.initialized
    ensures match ReadRangeRow(LineSetting(l, old(state.Viewed(first, item.plane)), item), old(reader.Value()), [])
            case Err(error) => status == Err(error)
            case Ok((row, d)) =>
              && status == Ok(()) && state.Fits(l) && reader.Value() == d
              && state.lines == old(state.lines)[item.plane := old(state.lines[item.plane]).(current := row)]
              && state.Viewed(first, item.plane + 1) == NextLines(old(state.Viewed(first, item.plane)), item.plane, row)
  {
    hide ReadRangeRow, IsTableSet;
    var line := state.lines[item.plane];
    var q := RangeSetting(RowSetting(l.tables[item.slot], item.bits, line.above), Signed16(l), item.slot);
    assert q == LineSetting(l, state.Viewed(first, item.plane), item);
    var current;
    status, current := DecodeRangeRow(reader, q, line.current);
    if status.Ok? {
      state.lines := state.lines[item.plane := line.(current := current)];
    }
  }

  ghost predicate Remaining(l: Layout, items: seq<Item>, reader: RangeCoder, got: Planes, lines: seq<Above>, goal: Result<RangeProgress>)
    requires IsLayout(l)
    reads reader
  {
    && AreItems(l, items) && AreLines(l, lines) && |got| == |l.widths|
    && ReadRangeItems(l, items, RangeProgress(got, reader.Value(), lines)) == goal
  }

  /** Reading the next row does not change the outcome. */
  method DecodeNextRow(reader: RangeCoder, l: Layout, ghost items: seq<Item>, item: Item, state: SliceState, ghost first: nat,
                       ghost got: Planes, ghost goal: Result<RangeProgress>)
    returns (status: Status, ghost more: Planes)
    requires reader.Valid() && reader.initialized
    requires IsLayout(l) && state.Fits(l) && first <= item.plane
    requires items != [] && item == items[0]
    requires Remaining(l, items, reader, got, state.Viewed(first, item.plane), goal)
    modifies reader, state`lines
    ensures reader.Valid() && reader.initialized
    ensures status.Err? ==> goal == Err(status.error)
    ensures status.Ok? ==> state.Fits(l) && item.plane < |got| == |state.lines|
    ensures status.Ok? ==> more == got[item.plane := got[item.plane] + [state.lines[item.plane].current]]
    ensures status.Ok? ==> Remaining(l, items[1..], reader, more, state.Viewed(first, item.plane + 1), goal)
    ensures status.Ok? ==>
              && |state.lines| == old(|state.lines|)
              && forall p :: 0 <= p < |state.lines| && p != item.plane ==> state.lines[p] == old(state.lines)[p]
  {
    hide ReadRangeRow, IsTableSet;
    assert IsItem(l, items[0]);
    status := DecodeRangeLine(reader, l, item, state, first);
    more := got;
    if status.Ok? {
      more := got[item.plane := got[item.plane] + [state.lines[item.plane].current]];
    }
  }

  /** A row of a plane coded on its own: hand out the line, then swap. */
  method DecodePlanarRow(reader: RangeCoder, l: Layout, ghost items: seq<Item>, item: Item, state: SliceState,
                         ghost got: Planes, ghost goal: Result<RangeProgress>)
    returns (r: Result<seq<int>>)
    requires reader.Valid() && reader.initialized
    requires IsLayout(l) && state.Fits(l)
    requires items != [] && item == items[0]
    requires Remaining(l, items, reader, got, state.Aboves(), goal)
    modifies reader, state`lines
    ensures reader.Valid() && reader.initialized
    ensures r.Err? ==> goal == Err(r.error)
    ensures r.Ok? ==> state.Fits(l) && item.plane < |got|
    ensures r.Ok? ==> Remaining(l, items[1..], reader, got[item.plane := got[item.plane] + [r.value]], state.Aboves(), goal)
  {
    hide ReadRangeItems, IsTableSet;
    state.NothingSwapped(item.plane);
    ghost var more;
    var status;
    status, more := DecodeNextRow(reader, l, items, item, state, item.plane, got, goal);
    if status.Err? {
      return Err(status.error);
    }
    var row := state.lines[item.plane].current;
    ghost var viewed := state.Viewed(item.plane, item.plane + 1);
    state.SwapLines(item.plane);
    assert state.Aboves() == viewed;
    r := Ok(row);
  }

  lemma NothingLeft(l: Layout, reader: RangeCoder, got: Planes, lines: seq<Above>, goal: Result<RangeProgress>)
    requires IsLayout(l) && Remaining(l, [], reader, got, lines, goal)
    ensures goal == Ok(RangeProgress(got, reader.Value(), lines))
  {
  }

  /** Plane after plane. */
  method DecodePlanes(reader: RangeCoder, l: Layout, state: SliceState, ghost goal: Result<RangeProgress>) returns (r: Result<Planes>)
    requires reader.Valid() && reader.initialized
    requires IsLayout(l) && !l.rgb && state.Fits(l)
    requires Remaining(l, Schedule(l), reader, NoPlanes(l), state.Aboves(), goal)
    modifies reader, state`lines
    ensures reader.Valid() && reader.initialized
    ensures r.Err? ==> goal == Err(r.error)
    ensures r.Ok? ==> goal == Ok(RangeProgress(r.value, reader.Value(), state.Aboves()))
  {
    hide Remaining, IsTableSet, IsAbove, ReadRangeItems;
    var image := NoPlanes(l);
    for plane := 0 to |l.widths|
      invariant reader.Valid() && reader.initialized && state.Fits(l) && |image| == |l.widths|
      invariant Remaining(l, PlanarItems(l, plane, 0), reader, image, state.Aboves(), goal)
    {
      for y := 0 to l.heights[plane]
        invariant reader.Valid() && reader.initialized && state.Fits(l) && |image| == |l.widths|
        invariant Remaining(l, PlanarItems(l, plane, y), reader, image, state.Aboves(), goal)
      {
        var item := Item(plane, y, l.slots[plane], plane, RowBits(l, plane));
        ghost var items := PlanarItems(l, plane, y);
        assert items[0] == item && items[1..] == PlanarItems(l, plane, y + 1);
        var row := DecodePlanarRow(reader, l, items, item, state, image, goal);
        if row.Err? {
          return Err(row.error);
        }
        image := image[plane := image[plane] + [row.value]];
      }
    }
    NothingLeft(l, reader, image, state.Aboves(), goal);
    r := Ok(image);
  }

  /** Rows y of all planes, into their current lines. */
  method DecodeRgbLine(reader: RangeCoder, l: Layout, y: nat, state: SliceState, ghost got: Planes, ghost goal: Result<RangeProgress>)
    returns (status: Status, ghost more: Planes)
    requires reader.Valid() && reader.initialized
    requires IsLayout(l) && l.rgb && state.Fits(l) && y < l.heights[0] && |got| == |l.widths|
    requires forall p :: 0 <= p < |got| ==> |got[p]| == y
    requires Remaining(l, RgbItems(l, y, 0), reader, got, state.Aboves(), goal)
    modifies reader, state`lines
    ensures reader.Valid() && reader.initialized
    ensures status.Err? ==> goal == Err(status.error)
    ensures status.Ok? ==> state.Fits(l) && Holds(state, more, y)
    ensures status.Ok? ==> |more| == |got| && forall p :: 0 <= p < |got| ==> more[p][..y] == got[p]
    ensures status.Ok? ==> Remaining(l, RgbItems(l, y + 1, 0), reader, more, state.Viewed(0, |l.widths|), goal)
  {
    hide Remaining, IsTableSet, IsAbove, ReadRangeItems;
    more := got;
    state.NothingSwapped(0);
    for plane := 0 to |l.widths|
      invariant reader.Valid() && reader.initialized && state.Fits(l) && |more| == |got|
      invariant forall p :: 0 <= p < |got| ==> more[p] == if p < plane then got[p] + [state.lines[p].current] else got[p]
      invariant Remaining(l, RgbItems(l, y, plane), reader, more, state.Viewed(0, plane), goal)
    {
      var item := Item(plane, y, l.slots[plane], 0, RowBits(l, plane));
      ghost var items := RgbItems(l, y, plane);
      assert items[0] == item && items[1..] == RgbItems(l, y, plane + 1);
      status, more := DecodeNextRow(reader, l, items, item, state, 0, more, goal);
      if status.Err? {
        return;
      }
    }
    status := Ok(());
  }

  /** Row after row, the planes interleaved. */
  method DecodeRgb(reader: RangeCoder, l: Layout, state: SliceState, ghost goal: Result<RangeProgress>)
    returns (r: Result<Planes>, ghost got: Planes)
    requires reader.Valid() && reader.initialized
    requires IsLayout(l) && l.rgb && state.Fits(l)
    requires Remaining(l, Schedule(l), reader, NoPlanes(l), state.Aboves(), goal)
    modifies reader, state`lines
    ensures reader.Valid() && reader.initialized
    ensures r.Err? ==> goal == Err(r.error)
    ensures r.Ok? ==> goal == Ok(RangeProgress(got, reader.Value(), state.Aboves()))
    ensures r.Ok? ==> Shaped(l, got) && r.value == RestoredImage(l, got)
  {
    hide Remaining, IsTableSet, IsAbove, ReadRangeItems, RestoredRow;
    var image := NoPlanes(l);
    got := NoPlanes(l);
    for y := 0 to l.heights[0]
      invariant reader.Valid() && reader.initialized && state.Fits(l) && Handed(l, image, got, y)
      invariant Remaining(l, RgbItems(l, y, 0), reader, got, state.Aboves(), goal)
    {
      var status;
      ghost var more;
      status, more := DecodeRgbLine(reader, l, y, state, got, goal);
      if status.Err? {
        return Err(status.error), got;
      }
      var out := StoreRgbLine(l, state, image, y, more);
      HandedNext(l, image, got, more, out, y);
      image, got := out, more;
    }
    NothingLeft(l, reader, got, state.Aboves(), goal);
    HandedAll(l, image, got);
    r := Ok(image);
  }

  /** Reads the samples of a window. */
  method DecodeRangeSamples(reader: RangeCoder, l: Layout, state: SliceState) returns (r: Result<Planes>)
    requires reader.Valid() && reader.initialized
    requires IsLayout(l) && state.Fits(l) && state.Aboves() == FreshLines(l)
    modifies reader, state`lines
    ensures reader.Valid() && reader.initialized
    ensures match DecodeRangeContent(l, old(reader.Value()))
            case Err(error) => r == Err(error)
            case Ok((image, d)) => r == Ok(image) && reader.Value() == d
  {
    hide IsTableSet, Schedule, Ordered, AreItems, ReadRangeItems, RestoredImage;
    ScheduleOrdered(l);
    OrderedAreItems(l, Schedule(l), Nothing(l));
    FreshLinesFit(l);
    ghost var start := RangeProgress(NoPlanes(l), reader.Value(), FreshLines(l));
    ghost var goal := ReadRangeItems(l, Schedule(l), start);
    if goal.Ok? {
      ReadRangeItemsShape(l, Schedule(l), start, Nothing(l));
    }
    if l.rgb {
      ghost var got;
      r, got := DecodeRgb(reader, l, state, goal);
    } else {
      r := DecodePlanes(reader, l, state, goal);
      if r.Ok? {
        PlanarImage(l, r.value);
      }
    }
  }

  lemma PlanarImage(l: Layout, planes: Planes)
    requires IsLayout(l) && !l.rgb && Shaped(l, planes)
    ensures RestoredImage(l, planes) == planes
  {
  }
}
