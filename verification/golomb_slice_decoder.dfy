// The loops that read the rows of a slice in Golomb-Rice mode.

module GolombSliceDecoding {
  import opened Basics
  import opened Bits
  import opened GolombRice
  import opened GolombRun
  import opened SampleModel
  import opened ColorTransform
  import opened GolombLine
  import GolombLineDecoding
  import opened StreamModel
  import opened SliceSchedule
  import opened GolombSlice
  import opened GolombContent
  import opened SliceStates
  import opened SliceWindow

  /** The states once the lines of the planes `first` .. `done` - 1 will have been swapped. */
  ghost function Viewed(state: SliceState, first: nat, done: nat): GolombState
    reads state
  {
    GolombState(state.Viewed(first, done), state.golombBanks, state.golombRuns)
  }

  lemma NothingSwapped(state: SliceState, first: nat)
    ensures Viewed(state, first, first) == state.Golomb()
  {
    state.NothingSwapped(first);
  }

  /** Reads one row into the current line of its plane. */
  method DecodeLine(reader: BitReader, l: Layout, item: Item, state: SliceState, ghost first: nat) returns (status: Status)
    requires reader.Valid()
    requires IsLayout(l) && state.Fits(l) && IsGolombState(l, Viewed(state, first, item.plane))
    requires IsItem(l, item) && first <= item.plane
    modifies reader`bitPosition, state
    ensures reader.Valid()
    ensures match ReadItem(l, item, reader.Source(), old(reader.bitPosition), old(Viewed(state, first, item.plane)))
            case Err(error) => status == Err(error)
            case Ok((row, position, next)) =>
              && status == Ok(()) && state.Fits(l) && reader.bitPosition == position
              && state.lines == old(state.lines)[item.plane := old(state.lines[item.plane]).(current := row)]
              && next == Viewed(state, first, item.plane + 1)
  {
    hide ReadRow, IsTableSet, BitsOf;
    ghost var start := Viewed(state, first, item.plane);
    var line := state.lines[item.plane];
    var q := RowSetting(l.tables[item.slot], item.bits, line.above);
    assert q == Setting(l, start, item);
    var r, current := GolombLineDecoding.DecodeRow(reader, q, line.current, state.golombBanks[item.slot], state.golombRuns[item.run]);
    if r.Err? {
      return Err(r.error);
    }
    state.golombBanks := state.golombBanks[item.slot := r.value.bank];
    state.golombRuns := state.golombRuns[item.run := r.value.run];
    state.lines := state.lines[item.plane := line.(current := current)];
    ghost var next := ReadItem(l, item, reader.Source(), old(reader.bitPosition), start).value.2;
    assert Viewed(state, first, item.plane + 1).lines == next.lines;
    status := Ok(());
  }

  ghost predicate Remaining(l: Layout, items: seq<Item>, reader: BitReader, got: Planes, st: GolombState, goal: Result<Progress>)
    requires IsLayout(l)
    reads reader
  {
    && AreItems(l, items) && IsGolombState(l, st) && |got| == |l.widths|
    && ReadItems(l, items, reader.Source(), Progress(got, reader.bitPosition, st)) == goal
  }

  /** Reading the next row does not change the outcome. */
  method DecodeNext(reader: BitReader, l: Layout, ghost items: seq<Item>, item: Item, state: SliceState, ghost first: nat,
                    ghost got: Planes, ghost goal: Result<Progress>)
    returns (status: Status, ghost more: Planes)
    requires reader.Valid()
    requires IsLayout(l) && state.Fits(l) && first <= item.plane
    requires items != [] && item == items[0]
    requires Remaining(l, items, reader, got, Viewed(state, first, item.plane), goal)
    modifies reader`bitPosition, state
    ensures reader.Valid()
    ensures status.Err? ==> goal == Err(status.error)
    ensures status.Ok? ==> state.Fits(l) && item.plane < |got| == |state.lines|
    ensures status.Ok? ==> more == got[item.plane := got[item.plane] + [state.lines[item.plane].current]]
    ensures status.Ok? ==> Remaining(l, items[1..], reader, more, Viewed(state, first, item.plane + 1), goal)
    ensures status.Ok? ==>
              && |state.lines| == old(|state.lines|)
              && forall p :: 0 <= p < |state.lines| && p != item.plane ==> state.lines[p] == old(state.lines)[p]
  {
    hide ReadItem, IsTableSet, BitsOf, IsAbove;
    assert IsItem(l, items[0]);
    status := DecodeLine(reader, l, item, state, first);
    more := got;
    if status.Ok? {
      more := got[item.plane := got[item.plane] + [state.lines[item.plane].current]];
    }
  }

  /** A row of a plane coded on its own: hand out the line, then swap. */
  method DecodePlanarRow(reader: BitReader, l: Layout, ghost items: seq<Item>, item: Item, state: SliceState,
                         ghost got: Planes, ghost goal: Result<Progress>)
    returns (r: Result<seq<int>>)
    requires reader.Valid()
    requires IsLayout(l) && state.Fits(l)
    requires items != [] && item == items[0]
    requires Remaining(l, items, reader, got, state.Golomb(), goal)
    modifies reader`bitPosition, state
    ensures reader.Valid()
    ensures r.Err? ==> goal == Err(r.error)
    ensures r.Ok? ==> state.Fits(l) && item.plane < |got|
    ensures r.Ok? ==> Remaining(l, items[1..], reader, got[item.plane := got[item.plane] + [r.value]], state.Golomb(), goal)
  {
    hide ReadItems, IsTableSet, BitsOf;
    NothingSwapped(state, item.plane);
    ghost var more;
    var status;
    status, more := DecodeNext(reader, l, items, item, state, item.plane, got, goal);
    if status.Err? {
      return Err(status.error);
    }
    var row := state.lines[item.plane].current;
    ghost var viewed := Viewed(state, item.plane, item.plane + 1);
    state.SwapLines(item.plane);
    assert state.Golomb().lines == viewed.lines;
    r := Ok(row);
  }

  lemma NothingLeft(l: Layout, reader: BitReader, got: Planes, st: GolombState, goal: Result<Progress>)
    requires IsLayout(l) && Remaining(l, [], reader, got, st, goal)
    ensures goal == Ok(Progress(got, reader.bitPosition, st))
  {
  }

  /** Plane after plane: every row is handed out and its line swapped at once. */
  method DecodePlanes(reader: BitReader, l: Layout, state: SliceState, ghost goal: Result<Progress>) returns (r: Result<Planes>)
    requires reader.Valid()
    requires IsLayout(l) && !l.rgb && state.Fits(l)
    requires Remaining(l, Schedule(l), reader, NoPlanes(l), state.Golomb(), goal)
    modifies reader`bitPosition, state
    ensures reader.Valid()
    ensures r.Err? ==> goal == Err(r.error)
    ensures r.Ok? ==> state.Fits(l) && goal == Ok(Progress(r.value, reader.bitPosition, state.Golomb()))
  {
    hide Remaining, IsTableSet, BitsOf, IsAbove, ReadItems;
    var image := NoPlanes(l);
    for plane := 0 to |l.widths|
      invariant reader.Valid() && state.Fits(l) && |image| == |l.widths|
      invariant forall p :: plane <= p < |image| ==> image[p] == []
      invariant Remaining(l, PlanarItems(l, plane, 0), reader, image, state.Golomb(), goal)
    {
      for y := 0 to l.heights[plane]
        invariant reader.Valid() && state.Fits(l) && |image| == |l.widths|
        invariant forall p :: plane < p < |image| ==> image[p] == []
        invariant Remaining(l, PlanarItems(l, plane, y), reader, image, state.Golomb(), goal)
      {
        var item := Item(plane, y, l.slots[plane], plane, RowBits(l, plane));
        ghost var items := PlanarItems(l, plane, y);
        assert items[0] == item && items[1..] == PlanarItems(l, plane, y + 1);
        var row := DecodePlanarRow(reader, l, items, item, state, image, goal);
        if row.Err? {
          return Err(row.error);
        }
        image := image[plane := image[plane] + [row.value]];
      }
    }
    NothingLeft(l, reader, image, state.Golomb(), goal);
    r := Ok(image);
  }

  /** Rows y of all planes, into their current lines. */
  method DecodeRgbLine(reader: BitReader, l: Layout, y: nat, state: SliceState, ghost got: Planes, ghost goal: Result<Progress>)
    returns (status: Status, ghost more: Planes)
    requires reader.Valid()
    requires IsLayout(l) && l.rgb && state.Fits(l) && y < l.heights[0] && |got| == |l.widths|
    requires forall p :: 0 <= p < |got| ==> |got[p]| == y
    requires Remaining(l, RgbItems(l, y, 0), reader, got, state.Golomb(), goal)
    modifies reader`bitPosition, state
    ensures reader.Valid()
    ensures status.Err? ==> goal == Err(status.error)
    ensures status.Ok? ==> state.Fits(l) && Holds(state, more, y)
    ensures status.Ok? ==> |more| == |got| && forall p :: 0 <= p < |got| ==> more[p][..y] == got[p]
    ensures status.Ok? ==> Remaining(l, RgbItems(l, y + 1, 0), reader, more, Viewed(state, 0, |l.widths|), goal)
  {
    hide Remaining, IsTableSet, BitsOf, IsAbove, ReadItems, Viewed;
    more := got;
    NothingSwapped(state, 0);
    for plane := 0 to |l.widths|
      invariant reader.Valid() && state.Fits(l) && |more| == |got|
      invariant forall p :: 0 <= p < |got| ==> more[p] == if p < plane then got[p] + [state.lines[p].current] else got[p]
      invariant Remaining(l, RgbItems(l, y, plane), reader, more, Viewed(state, 0, plane), goal)
    {
      var item := Item(plane, y, l.slots[plane], 0, RowBits(l, plane));
      ghost var items := RgbItems(l, y, plane);
      assert items[0] == item && items[1..] == RgbItems(l, y, plane + 1);
      status, more := DecodeNext(reader, l, items, item, state, 0, more, goal);
      if status.Err? {
        return;
      }
    }
    status := Ok(());
  }

  /** Row after row, the planes interleaved; lines are swapped when all planes have theirs. */
  method DecodeRgb(reader: BitReader, l: Layout, state: SliceState, ghost goal: Result<Progress>)
    returns (r: Result<Planes>, ghost got: Planes)
    requires reader.Valid()
    requires IsLayout(l) && l.rgb && state.Fits(l)
    requires Remaining(l, Schedule(l), reader, NoPlanes(l), state.Golomb(), goal)
    modifies reader`bitPosition, state
    ensures reader.Valid()
    ensures r.Err? ==> goal == Err(r.error)
    ensures r.Ok? ==> state.Fits(l) && goal == Ok(Progress(got, reader.bitPosition, state.Golomb()))
    ensures r.Ok? ==> Shaped(l, got) && r.value == RestoredImage(l, got)
  {
    hide Remaining, IsTableSet, BitsOf, IsAbove, ReadItems, RestoredRow;
    var image := NoPlanes(l);
    got := NoPlanes(l);
    for y := 0 to l.heights[0]
      invariant reader.Valid() && state.Fits(l) && Handed(l, image, got, y)
      invariant Remaining(l, RgbItems(l, y, 0), reader, got, state.Golomb(), goal)
    {
      var status;
      ghost var more;
      status, more := DecodeRgbLine(reader, l, y, state, got, goal);
      if status.Err? {
        return Err(status.error), got;
      }
      var out := StoreRgbLine(l, state, image, y, more);
      HandedNext(l, image, got, more, out, y);
      image, got := out, more;
    }
    NothingLeft(l, reader, got, state.Golomb(), goal);
    HandedAll(l, image, got);
    r := Ok(image);
  }

  /** Runs end with their slice. */
  method SettleRuns(state: SliceState)
    modifies state`golombRuns
    ensures state.Golomb() == Settled(old(state.Golomb()))
  {
    ghost var before := state.Golomb();
    var runs := state.golombRuns;
    for p := 0 to |runs|
      invariant |state.golombRuns| == |runs| && state.Aboves() == before.lines && state.golombBanks == before.banks
      invariant forall k :: 0 <= k < |runs| ==> state.golombRuns[k] == if k < p then runs[k].(pending := 0) else runs[k]
    {
      state.golombRuns := state.golombRuns[p := runs[p].(pending := 0)];
    }
    assert state.golombRuns == Settled(before).runs;
  }

  method DecodeRows(reader: BitReader, l: Layout, state: SliceState, ghost goal: Result<Progress>)
    returns (r: Result<Planes>, ghost got: Planes)
    requires reader.Valid()
    requires IsLayout(l) && state.Fits(l)
    requires Remaining(l, Schedule(l), reader, NoPlanes(l), state.Golomb(), goal)
    modifies reader`bitPosition, state
    ensures reader.Valid()
    ensures r.Err? ==> goal == Err(r.error)
    ensures r.Ok? ==> state.Fits(l) && goal == Ok(Progress(got, reader.bitPosition, state.Golomb()))
    ensures r.Ok? && Shaped(l, got) ==> r.value == RestoredImage(l, got)
  {
    hide Remaining, Schedule;
    if l.rgb {
      r, got := DecodeRgb(reader, l, state, goal);
    } else {
      r := DecodePlanes(reader, l, state, goal);
      got := if r.Ok? then r.value else [];
    }
  }

  /** The whole content of a slice; unless more bytes are tolerated, nothing may be left after the
      last row. */
  method DecodeSlice(l: Layout, bytes: seq<byte>, state: SliceState, tolerant: bool) returns (r: Result<Planes>)
    requires IsLayout(l)
    requires state.Fits(l) && state.Aboves() == FreshLines(l)
    modifies state
    ensures match Prepared(l, old(state.golombBanks), old(state.golombRuns))
            case Err(error) => r == Err(error)
            case Ok(start) =>
              && IsGolombState(l, start)
              && match DecodeContent(l, bytes, start, tolerant)
                 case Err(error) => r == Err(error)
                 case Ok((image, final)) => r == Ok(image) && state.Golomb() == final
  {
    hide ReadItems, IsTableSet, BitsOf, IsAbove, Schedule, Settled, RestoredImage;
    PreparedFits(l, state.golombBanks, state.golombRuns);
    var status := state.PrepareGolombRice(l);
    if status.Err? {
      return Err(status.error);
    }
    ghost var start := state.Golomb();
    var reader := new BitReader(bytes);
    ScheduleOrdered(l);
    OrderedAreItems(l, Schedule(l), Nothing(l));
    ghost var goal := ReadItems(l, Schedule(l), BitsOf(bytes), Progress(NoPlanes(l), 0, start));
    ghost var got;
    r, got := DecodeRows(reader, l, state, goal);
    if r.Err? {
      return;
    }
    SettleRuns(state);
    reader.ByteAlign();
    if reader.bitPosition < 8 * |bytes| && !tolerant {
      return Err(SyntaxError);
    }
    assert ReadContent(l, bytes, start, tolerant) == Ok((got, state.Golomb()));
    ContentShaped(l, bytes, start, tolerant);
  }
}
