// Whole slice contents in Golomb-Rice mode: from the samples of a window to bytes and back.

module GolombContent {
  import opened Basics
  import opened Bits
  import opened GolombRice
  import opened GolombRun
  import opened SampleModel
  import opened GolombLine
  import opened StreamModel
  import opened SliceSchedule
  import opened GolombSlice

  function FreshBanks(l: Layout): (banks: seq<seq<ContextState>>)
    ensures |banks| == |l.tables|
  {
    seq(|l.tables|, b requires 0 <= b < |l.tables| => seq(l.tables[b].contextCount, _ => INITIAL_STATE))
  }

  function FreshRuns(l: Layout): (runs: seq<RunState>)
    ensures |runs| == |l.widths|
  {
    seq(|l.widths|, _ => RunState(0, 0))
  }

  /** The adaptive state a slice starts from: fresh, or what its predecessor left, if it fits. */
  function Prepared(l: Layout, banks: seq<seq<ContextState>>, runs: seq<RunState>): (r: Result<GolombState>)
    ensures r.Ok? ==> |r.value.banks| == |l.tables|
  {
    if exists b :: 0 <= b < |l.tables| && l.tables[b].contextCount == 0 then Err(InvalidState)
    else if banks == [] && runs == [] then Ok(GolombState(FreshLines(l), FreshBanks(l), FreshRuns(l)))
    else if |banks| != |l.tables| || |runs| != |l.widths| then Err(InvalidState)
    else if exists b :: 0 <= b < |banks| && |banks[b]| != l.tables[b].contextCount then Err(InvalidState)
    else Ok(GolombState(FreshLines(l), banks, FreshRuns(l)))
  }

  lemma PreparedFits(l: Layout, banks: seq<seq<ContextState>>, runs: seq<RunState>)
    requires IsLayout(l)
    ensures Prepared(l, banks, runs).Ok? ==> IsGolombState(l, Prepared(l, banks, runs).value)
  {
  }

  lemma PreparedAdapted(l: Layout, banks: seq<seq<ContextState>>, runs: seq<RunState>)
    requires IsLayout(l)
    requires forall b :: 0 <= b < |banks| ==> AllAdapted(banks[b], DifferenceBits(l))
    requires Prepared(l, banks, runs).Ok?
    ensures IsAdapted(l, Prepared(l, banks, runs).value)
  {
    InitialAdapted(DifferenceBits(l));
  }

  ghost function CodeContent(l: Layout, image: Planes, start: GolombState): (r: Result<(seq<bool>, GolombState)>)
    requires IsLayout(l) && Shaped(l, image) && IsGolombState(l, start)
    ensures r.Ok? ==> IsGolombState(l, r.value.1)
  {
    ScheduleOrdered(l);
    OrderedAreItems(l, Schedule(l), Nothing(l));
    TransformedShaped(l, image);
    CodeItems(l, Schedule(l), Transformed(l, image), start)
  }

  /** At the end of a slice no run continues. */
  function Settled(st: GolombState): GolombState {
    st.(runs := seq(|st.runs|, r requires 0 <= r < |st.runs| => st.runs[r].(pending := 0)))
  }

  function Aligned(position: nat): nat {
    (position + 7) / 8 * 8
  }

  /** Reads a content.  Unless more bytes are tolerated, it must fill them up to the alignment of the
      last one. */
  ghost function ReadContent(l: Layout, bytes: seq<byte>, start: GolombState, tolerant: bool): Result<(Planes, GolombState)>
    requires IsLayout(l) && IsGolombState(l, start)
  {
    ScheduleOrdered(l);
    OrderedAreItems(l, Schedule(l), Nothing(l));
    var p :- ReadItems(l, Schedule(l), BitsOf(bytes), Progress(NoPlanes(l), 0, start));
    if Aligned(p.position) < 8 * |bytes| && !tolerant then Err(SyntaxError)
    else Ok((p.planes, Settled(p.state)))
  }

  /** Every decoded row found its place. */
  lemma {:induction false} ReadItemsShape(l: Layout, items: seq<Item>, s: seq<bool>, p: Progress, reached: seq<nat>)
    requires IsLayout(l) && AreItems(l, items) && IsGolombState(l, p.state) && |p.planes| == |l.widths|
    requires Ordered(l, items, reached)
    requires forall k :: 0 <= k < |p.planes| ==> |p.planes[k]| == reached[k]
    requires forall k, y :: 0 <= k < |p.planes| && 0 <= y < |p.planes[k]| ==> |p.planes[k][y]| == l.widths[k]
    requires ReadItems(l, items, s, p).Ok?
    ensures Shaped(l, ReadItems(l, items, s, p).value.planes)
    decreases |items|
  {
    hide ReadItem, IsLayout, IsItem, IsAbove;
    if items != [] {
      ItemInside(l, items, reached);
      var item := items[0];
      var (row, position, state) := ReadItem(l, item, s, p.position, p.state).value;
      ReadItemsShape(l, items[1..], s, Progress(p.planes[item.plane := p.planes[item.plane] + [row]], position, state),
                     reached[item.plane := item.y + 1]);
    }
  }

  lemma ContentShaped(l: Layout, bytes: seq<byte>, start: GolombState, tolerant: bool)
    requires IsLayout(l) && IsGolombState(l, start)
    requires ReadContent(l, bytes, start, tolerant).Ok?
    ensures Shaped(l, ReadContent(l, bytes, start, tolerant).value.0)
  {
    hide ReadItems, IsGolombState;
    ScheduleOrdered(l);
    OrderedAreItems(l, Schedule(l), Nothing(l));
    ReadItemsShape(l, Schedule(l), BitsOf(bytes), Progress(NoPlanes(l), 0, start), Nothing(l));
  }

  /** From bytes to the image: rows, then the inverse colour transform. */
  ghost function DecodeContent(l: Layout, bytes: seq<byte>, start: GolombState, tolerant: bool): Result<(Planes, GolombState)>
    requires IsLayout(l) && IsGolombState(l, start)
  {
    var (planes, final) :- ReadContent(l, bytes, start, tolerant);
    ContentShaped(l, bytes, start, tolerant);
    Ok((RestoredImage(l, planes), final))
  }

  lemma PaddingAligns(n: nat)
    ensures Aligned(n) == n + Padding(n)
  {
  }

  lemma SettledAdapted(l: Layout, st: GolombState)
    requires IsLayout(l) && IsAdapted(l, st)
    ensures Settled(st) == st
  {
    assert Settled(st).runs == st.runs;
  }

  /** Decoding the byte-aligned output of the encoder gives back the image, uses every byte,
      never meets a pending run, and leaves the encoder's adaptive states. */
  lemma ContentReadsBack(l: Layout, image: Planes, start: GolombState, bits: seq<bool>, final: GolombState, bytes: seq<byte>,
                         tolerant: bool)
    requires IsLayout(l) && l.mode == GolombRiceMode && IsImage(l, image) && IsAdapted(l, start)
    requires CodeContent(l, image, start) == Ok((bits, final))
    requires BitsOf(bytes) == bits + Zeros(Padding(|bits|))
    ensures IsAdapted(l, final)
    ensures DecodeContent(l, bytes, start, tolerant) == Ok((image, final))
  {
    hide ReadItems, CodeItems, IsAdapted, IsLayout, Schedule, Ordered, AreItems, RestoredImage, Transformed, BitsOf, Settled;
    ScheduleOrdered(l);
    OrderedAreItems(l, Schedule(l), Nothing(l));
    TransformedInRange(l, image);
    var planes := Transformed(l, image);
    NothingAgrees(l, planes);
    CarriesBoth(BitsOf(bytes), 0, bits, Zeros(Padding(|bits|)));
    ItemsReadBack(l, Schedule(l), planes, start, Nothing(l), BitsOf(bytes), 0, NoPlanes(l), bits, final);
    PaddingAligns(|bits|);
    SettledAdapted(l, final);
    ImageRestored(l, image);
  }

  /** Every neighbourhood selects a context of the table set. */
  ghost predicate Covers(t: QuantTableSet) {
    IsTableSet(t) && forall n: Neighbors :: DeriveContext(t, n).Ok?
  }

  /** Runs shorter than the longest piece never leave the run table. */
  lemma {:induction false} RunCodes(index: nat, position: nat, width: nat, remaining: nat)
    requires index < RUN_INDEXES && position + remaining <= width && remaining < FullRun(RUN_INDEXES - 1)
    ensures RunCode(index, position, width, remaining).Ok?
    decreases remaining
  {
    hide Log2Run, FixedBits;
    if FullRun(index) <= remaining && position + FullRun(index) != width && index + 1 < RUN_INDEXES {
      RunCodes(index + 1, position + FullRun(index), width, remaining - FullRun(index));
    }
  }

  lemma StepCodes(q: RowSetting, row: seq<int>, x: nat, st: RowState)
    requires IsCodable(q, row) && x < Width(q) && IsState(q, st) && AllAdapted(st.bank, q.bits)
    requires Covers(q.tables) && Width(q) < FullRun(RUN_INDEXES - 1)
    ensures CodeStep(q, row, x, st).Ok?
    ensures AllAdapted(CodeStep(q, row, x, st).value.0.state.bank, q.bits)
  {
    hide FullRun, Folded, NeighborsAt, Median3, RunCode, RunEnd, Symbol, Difference;
    var c := ContextAt(q, row, x).value;
    if c.index == 0 {
      var e := RunEnd(q, row, x);
      RunCodes(st.run, x, Width(q), e - x);
      if e < Width(q) {
        var sent := InterruptionCodes(q, row, e, st);
      }
    } else {
      SymbolWrites(st.bank[c.index], q.bits, Sent(row[x], PredictionAt(q, row, x), q.bits, c.inverted));
    }
  }

  lemma InterruptionCodes(q: RowSetting, row: seq<int>, e: nat, st: RowState) returns (sent: int)
    requires IsCodable(q, row) && e < Width(q) && IsState(q, st) && AllAdapted(st.bank, q.bits)
    requires Covers(q.tables) && row[e] != PredictionAt(q, row, e)
    ensures ContextAt(q, row, e).Ok?
    ensures var c := ContextAt(q, row, e).value;
            && sent == Sent(row[e], PredictionAt(q, row, e), q.bits, c.inverted)
            && Interruption(st.bank[c.index], q.bits, sent).Ok?
            && Adapted(Interruption(st.bank[c.index], q.bits, sent).value.1, q.bits)
  {
    hide Folded, NeighborsAt, Median3, Symbol, WrapDifference;
    NeighborsLocal(q.above, row, e);
    assert AllSamples(row[..e], q.bits);
    PredictionIsSample(q.above, row, e, q.bits);
    var p := PredictionAt(q, row, e);
    DifferenceNonZero(row[e], p, q.bits);
    var c := ContextAt(q, row, e).value;
    sent := Sent(row[e], p, q.bits, c.inverted);
    SymbolWrites(st.bank[c.index], q.bits, if sent > 0 then sent - 1 else sent);
  }

  lemma {:induction false} RowCodes(q: RowSetting, row: seq<int>, x: nat, st: RowState)
    requires IsCodable(q, row) && x <= Width(q) && IsState(q, st) && AllAdapted(st.bank, q.bits)
    requires Covers(q.tables) && Width(q) < FullRun(RUN_INDEXES - 1)
    ensures CodeRow(q, row, x, st).Ok?
    ensures AllAdapted(CodeRow(q, row, x, st).value.state.bank, q.bits)
    decreases Width(q) - x
  {
    hide CodeStep, FullRun, Adapted;
    if x < Width(q) {
      StepCodes(q, row, x, st);
      var (step, next) := CodeStep(q, row, x, st).value;
      RowCodes(q, row, next, step.state);
    }
  }

  /** Tables that cover every neighbourhood, and rows shorter than 2^24. */
  ghost predicate Encodable(l: Layout) {
    && (forall t <- l.tables :: Covers(t))
    && (forall p :: 0 <= p < |l.widths| ==> l.widths[p] < FullRun(RUN_INDEXES - 1))
  }

  lemma ItemCodes(l: Layout, item: Item, row: seq<int>, st: GolombState)
    requires IsLayout(l) && l.mode == GolombRiceMode && Encodable(l) && IsItem(l, item) && IsAdapted(l, st)
    requires |row| == l.widths[item.plane] && AllSamples(row, item.bits)
    ensures CodeItem(l, item, row, st).Ok?
    ensures IsAdapted(l, CodeItem(l, item, row, st).value.1)
  {
    hide CodeRow, Adapted, IsSample, IsTableSet, FullRun, Covers;
    var q := Setting(l, st, item);
    RowCodes(q, row, 0, RowState(st.banks[item.slot], st.runs[item.run].index));
  }

  lemma {:induction false} ItemsCode(l: Layout, items: seq<Item>, planes: Planes, st: GolombState, reached: seq<nat>)
    requires IsLayout(l) && l.mode == GolombRiceMode && Encodable(l)
    requires Ordered(l, items, reached) && AreItems(l, items)
    requires Shaped(l, planes) && InRange(l, planes) && IsAdapted(l, st)
    ensures CodeItems(l, items, planes, st).Ok?
    decreases |items|
  {
    hide CodeItem, AllSamples, AllAdapted, IsLayout, IsItem, IsAbove, DifferenceBits, Encodable;
    if items != [] {
      var item := items[0];
      ItemStands(l, items, planes, reached);
      ItemCodes(l, item, planes[item.plane][item.y], st);
      ItemsCode(l, items[1..], planes, CodeItem(l, item, planes[item.plane][item.y], st).value.1, reached[item.plane := item.y + 1]);
    }
  }

  /** Every image can be coded: no difference, context, k parameter, escape field or run is
      ever out of reach of the code. */
  lemma ContentCodes(l: Layout, image: Planes, start: GolombState)
    requires IsLayout(l) && l.mode == GolombRiceMode && Encodable(l) && IsImage(l, image) && IsAdapted(l, start)
    ensures CodeContent(l, image, start).Ok?
  {
    hide CodeItems, IsLayout, Schedule, Ordered, AreItems, Transformed, Encodable;
    ScheduleOrdered(l);
    OrderedAreItems(l, Schedule(l), Nothing(l));
    TransformedInRange(l, image);
    ItemsCode(l, Schedule(l), Transformed(l, image), start, Nothing(l));
  }
}
