// The loops that write the rows of a slice in Golomb-Rice mode.

module GolombSliceCoding {
  import opened Basics
  import opened Bits
  import opened GolombRice
  import opened GolombRun
  import opened SampleModel
  import opened ColorTransform
  import opened GolombLine
  import opened GolombLineCoding
  import opened StreamModel
  import opened SliceSchedule
  import opened GolombSlice
  import opened GolombContent
  import opened SliceStates
  import opened SliceWindow

  /** Codes one row and makes it the first one above the next. */
  method EncodeLine(writer: BitWriter, l: Layout, item: Item, samples: seq<int>, state: SliceState) returns (status: Status)
    requires writer.Valid() && !writer.finalized
    requires IsLayout(l) && state.Fits(l) && IsGolombState(l, state.Golomb())
    requires IsItem(l, item) && |samples| == l.widths[item.plane]
    modifies writer`bytes, writer`bitPosition, state
    ensures writer.Valid()
    ensures match CodeItem(l, item, samples, old(state.Golomb()))
            case Err(error) => status == Err(error)
            case Ok((bits, next)) =>
              && status == Ok(()) && state.Fits(l) && state.Golomb() == next
              && writer.Contents() == old(writer.Contents()) + bits
  {
    hide CodeRow, IsTableSet, IsSample, BitsOf, Packed;
    ghost var start := state.Golomb();
    var line := state.lines[item.plane];
    var q := RowSetting(l.tables[item.slot], item.bits, line.above);
    assert q == Setting(l, start, item);
    var run := state.golombRuns[item.run];
    if run.index >= RUN_INDEXES {
      return Err(InvalidState);
    }
    var r, current := EncodeRow(writer, q, samples, line.current, RowState(state.golombBanks[item.slot], run.index));
    if r.Err? {
      return Err(r.error);
    }
    state.golombBanks := state.golombBanks[item.slot := r.value.bank];
    state.golombRuns := state.golombRuns[item.run := run.(index := r.value.run)];
    state.lines := state.lines[item.plane := line.(current := current)];
    state.SwapLines(item.plane);
    ghost var next := CodeItem(l, item, samples, start).value.1;
    assert state.Golomb().lines == next.lines;
    status := Ok(());
  }

  lemma PrecededTwice(a: seq<bool>, b: seq<bool>, rest: Result<(seq<bool>, GolombState)>)
    ensures Preceded(a, Preceded(b, rest)) == Preceded(a + b, rest)
  {
    if rest.Ok? {
      AppendAssoc(a, b, rest.value.0);
    }
  }

  /** What the rows still to be coded make of what was written and of the states. */
  ghost function Outcome(writer: BitWriter, l: Layout, items: seq<Item>, planes: Planes, state: SliceState): Result<(seq<bool>, GolombState)>
    requires writer.Valid() && IsLayout(l) && state.Fits(l) && IsGolombState(l, state.Golomb())
    requires AreItems(l, items) && Shaped(l, planes)
    reads writer, state
  {
    Preceded(writer.Contents(), CodeItems(l, items, planes, state.Golomb()))
  }

  /** Coding the next row does not change the outcome. */
  method EncodeNext(writer: BitWriter, l: Layout, ghost items: seq<Item>, ghost planes: Planes, item: Item, samples: seq<int>,
                    state: SliceState)
    returns (status: Status)
    requires writer.Valid() && !writer.finalized
    requires IsLayout(l) && state.Fits(l) && IsGolombState(l, state.Golomb())
    requires AreItems(l, items) && Shaped(l, planes)
    requires items != [] && item == items[0] && samples == planes[item.plane][item.y]
    modifies writer`bytes, writer`bitPosition, state
    ensures writer.Valid()
    ensures status.Err? ==> old(Outcome(writer, l, items, planes, state)) == Err(status.error)
    ensures status.Ok? ==> AreItems(l, items[1..]) && state.Fits(l) && IsGolombState(l, state.Golomb())
    ensures status.Ok? ==> Outcome(writer, l, items[1..], planes, state) == old(Outcome(writer, l, items, planes, state))
  {
    hide CodeItem, AllSamples, BitsOf, Packed, IsTableSet, IsAbove;
    ghost var start := state.Golomb();
    ghost var before := writer.Contents();
    if CodeItem(l, item, samples, start).Ok? {
      ghost var (bits, next) := CodeItem(l, item, samples, start).value;
      PrecededTwice(before, bits, CodeItems(l, items[1..], planes, next));
    }
    status := EncodeLine(writer, l, item, samples, state);
  }

  /** Plane after plane, row after row. */
  method EncodePlanes(writer: BitWriter, l: Layout, image: Planes, state: SliceState) returns (status: Status)
    requires writer.Valid() && !writer.finalized
    requires IsLayout(l) && !l.rgb && Shaped(l, image) && state.Fits(l) && IsGolombState(l, state.Golomb())
    requires AreItems(l, Schedule(l))
    modifies writer`bytes, writer`bitPosition, state
    ensures writer.Valid()
    ensures status.Ok? <==> IsImage(l, image) && old(Outcome(writer, l, Schedule(l), image, state)).Ok?
    ensures IsImage(l, image) && status.Err? ==> old(Outcome(writer, l, Schedule(l), image, state)) == Err(status.error)
    ensures status.Ok? ==> state.Fits(l) && IsGolombState(l, state.Golomb())
    ensures status.Ok? ==> Ok((writer.Contents(), state.Golomb())) == old(Outcome(writer, l, Schedule(l), image, state))
  {
    hide CodeItem, AllSamples, BitsOf, Packed, IsTableSet, IsAbove, Outcome, Loaded;
    ghost var goal := Outcome(writer, l, PlanarItems(l, 0, 0), image, state);
    NothingLoaded(l, image);
    for plane := 0 to |image|
      invariant writer.Valid() && !writer.finalized && state.Fits(l) && IsGolombState(l, state.Golomb())
      invariant AreItems(l, PlanarItems(l, plane, 0))
      invariant Loaded(l, image, PlanarReached(l, plane, 0))
      invariant Outcome(writer, l, PlanarItems(l, plane, 0), image, state) == goal
    {
      for y := 0 to l.heights[plane]
        invariant writer.Valid() && !writer.finalized && state.Fits(l) && IsGolombState(l, state.Golomb())
        invariant AreItems(l, PlanarItems(l, plane, y))
        invariant Loaded(l, image, PlanarReached(l, plane, y))
        invariant Outcome(writer, l, PlanarItems(l, plane, y), image, state) == goal
      {
        var samples := LoadRow(image[plane][y], l.bits);
        if samples.Err? {
          return Err(samples.error);
        }
        var item := Item(plane, y, l.slots[plane], plane, RowBits(l, plane));
        ghost var items := PlanarItems(l, plane, y);
        assert items[0] == item && items[1..] == PlanarItems(l, plane, y + 1);
        status := EncodeNext(writer, l, items, image, item, samples.value, state);
        if status.Err? {
          return;
        }
        LoadedNext(l, image, plane, y);
      }
      LoadedPlane(l, image, plane);
    }
    NothingLeft(writer, l, image, state);
    AllLoaded(l, image, PlanarReached(l, |image|, 0));
    status := Ok(());
  }

  lemma NothingLeft(writer: BitWriter, l: Layout, planes: Planes, state: SliceState)
    requires writer.Valid() && IsLayout(l) && state.Fits(l) && IsGolombState(l, state.Golomb()) && Shaped(l, planes)
    ensures Outcome(writer, l, [], planes, state) == Ok((writer.Contents(), state.Golomb()))
  {
    assert writer.Contents() + [] == writer.Contents();
  }

  /** Row after row, the planes interleaved. */
  method EncodeRgb(writer: BitWriter, l: Layout, image: Planes, state: SliceState) returns (status: Status)
    requires writer.Valid() && !writer.finalized
    requires IsLayout(l) && l.rgb && Shaped(l, image) && state.Fits(l) && IsGolombState(l, state.Golomb())
    requires AreItems(l, Schedule(l)) && Shaped(l, Transformed(l, image))
    modifies writer`bytes, writer`bitPosition, state
    ensures writer.Valid()
    ensures status.Ok? <==> IsImage(l, image) && old(Outcome(writer, l, Schedule(l), Transformed(l, image), state)).Ok?
    ensures IsImage(l, image) && status.Err? ==>
              old(Outcome(writer, l, Schedule(l), Transformed(l, image), state)) == Err(status.error)
    ensures status.Ok? ==> state.Fits(l) && IsGolombState(l, state.Golomb())
    ensures status.Ok? ==> Ok((writer.Contents(), state.Golomb())) == old(Outcome(writer, l, Schedule(l), Transformed(l, image), state))
  {
    hide CodeItem, AllSamples, BitsOf, Packed, IsTableSet, IsAbove, Outcome, Loaded, TransformedPlane;
    ghost var planes := Transformed(l, image);
    ghost var goal := Outcome(writer, l, RgbItems(l, 0, 0), planes, state);
    NothingLoaded(l, image);
    for y := 0 to l.heights[0]
      invariant writer.Valid() && !writer.finalized && state.Fits(l) && IsGolombState(l, state.Golomb())
      invariant AreItems(l, RgbItems(l, y, 0))
      invariant Loaded(l, image, RgbReached(l, y, 0))
      invariant Outcome(writer, l, RgbItems(l, y, 0), planes, state) == goal
    {
      var rows := LoadRgbRows(l, image, y, |image|);
      if rows.Err? {
        return Err(rows.error);
      }
      for plane := 0 to |rows.value|
        invariant writer.Valid() && !writer.finalized && state.Fits(l) && IsGolombState(l, state.Golomb())
        invariant AreItems(l, RgbItems(l, y, plane))
        invariant Outcome(writer, l, RgbItems(l, y, plane), planes, state) == goal
      {
        var item := Item(plane, y, l.slots[plane], 0, RowBits(l, plane));
        ghost var items := RgbItems(l, y, plane);
        assert items[0] == item && items[1..] == RgbItems(l, y, plane + 1);
        status := EncodeNext(writer, l, items, planes, item, rows.value[plane], state);
        if status.Err? {
          return;
        }
      }
      LoadedRgb(l, image, y);
    }
    NothingLeft(writer, l, planes, state);
    AllLoaded(l, image, RgbReached(l, l.heights[0], 0));
    status := Ok(());
  }

  /** Whether bytes are the aligned form of the coded content. */
  ghost predicate IsContent(l: Layout, image: Planes, start: GolombState, bytes: seq<byte>, final: GolombState)
    requires IsLayout(l) && Shaped(l, image) && IsGolombState(l, start)
  {
    match CodeContent(l, image, start)
    case Err(_) => false
    case Ok((bits, st)) => BitsOf(bytes) == bits + Zeros(Padding(|bits|)) && st == final
  }

  /** Codes the samples of a window; what is not an image of the configured depth is refused. */
  method EncodeSamples(writer: BitWriter, l: Layout, image: Planes, state: SliceState) returns (status: Status)
    requires writer.Valid() && !writer.finalized && writer.Contents() == []
    requires IsLayout(l) && Shaped(l, image) && state.Fits(l) && IsGolombState(l, state.Golomb())
    modifies writer`bytes, writer`bitPosition, state
    ensures writer.Valid()
    ensures status.Ok? <==> IsImage(l, image) && CodeContent(l, image, old(state.Golomb())).Ok?
    ensures status.Ok? ==> state.Fits(l) && IsGolombState(l, state.Golomb())
    ensures status.Ok? ==> CodeContent(l, image, old(state.Golomb())) == Ok((writer.Contents(), state.Golomb()))
  {
    hide AllSamples, BitsOf, Packed, IsTableSet, IsAbove, TransformedPlane, CodeItems;
    ScheduleOrdered(l);
    OrderedAreItems(l, Schedule(l), Nothing(l));
    TransformedShaped(l, image);
    EmptyStart(CodeContent(l, image, state.Golomb()));
    if l.rgb {
      status := EncodeRgb(writer, l, image, state);
    } else {
      status := EncodePlanes(writer, l, image, state);
    }
  }

  lemma EmptyStart(r: Result<(seq<bool>, GolombState)>)
    ensures Preceded([], r) == r
  {
    if r.Ok? {
      assert [] + r.value.0 == r.value.0;
    }
  }

  /** The whole content of a slice, aligned to bytes. */
  method EncodeContent(l: Layout, image: Planes, state: SliceState) returns (r: Result<seq<byte>>)
    requires IsLayout(l) && Shaped(l, image)
    requires state.Fits(l) && state.Aboves() == FreshLines(l)
    modifies state
    ensures r.Ok? <==>
              var start := Prepared(l, old(state.golombBanks), old(state.golombRuns));
              IsImage(l, image) && start.Ok? && CodeContent(l, image, start.value).Ok?
    ensures r.Ok? ==>
              var start := Prepared(l, old(state.golombBanks), old(state.golombRuns));
              state.Fits(l) && IsContent(l, image, start.value, r.value, state.Golomb())
  {
    hide AllSamples, BitsOf, Packed, IsTableSet, IsAbove, CodeContent;
    PreparedFits(l, state.golombBanks, state.golombRuns);
    var status := state.PrepareGolombRice(l);
    if status.Err? {
      return Err(status.error);
    }
    var writer := new BitWriter();
    status := EncodeSamples(writer, l, image, state);
    if status.Err? {
      return Err(status.error);
    }
    var _ := writer.ByteAlignZero();
    r := writer.Finalize();
  }
}
