// The frame around the misread slice: the encoder makes it, and the decoder returns another picture
// without noticing.

module MisreadFrame {
  import opened Basics
  import opened Bits
  import opened RangeInterval
  import opened RangeSymbols
  import opened RangeScript
  import opened StateTransition
  import opened SteadyCoding
  import opened GolombRice
  import opened GolombRun
  import opened SampleModel
  import opened GolombLine
  import opened GolombSlice
  import opened GolombContent
  import opened StreamModel
  import opened SliceSchedule
  import opened SliceHeader
  import opened SliceLayouts
  import opened RangeSliceCodec
  import opened GolombSliceCodec
  import opened SliceCodec
  import opened SliceFraming
  import opened CodableSlice
  import opened FrameCodec
  import opened EncoderProfile
  import opened TinySlice
  import opened TinyGolomb

  /** A black row is a run to its end: one bit. */
  lemma BlackRow(q: RowSetting)
    requires IsSetting(q) && Width(q) == 1 && q.bits == 8 && q.tables == ZeroTableSet() && q.above == Above([0], [0])
    ensures CodeRow(q, [0], 0, RowState([INITIAL_STATE], 0)) == Ok(Coded([true], RowState([INITIAL_STATE], 1)))
  {
    hide ZeroTableSet, DeriveContext, NeighborsAt;
    BlackNeighbors();
    ZeroFolded(Neighbors(0, 0, 0, 0, 0, 0));
    assert PredictionAt(q, [0], 0) == 0;
    assert RunEnd(q, [0], 1) == 1;
    assert RunEnd(q, [0], 0) == 1;
    assert Log2Run(0) == 0 && FullRun(0) == 1;
    assert RunCode(0, 0, 1, 1) == Ok(([true], 1));
    var st := RowState([INITIAL_STATE], 0);
    var after := RowState([INITIAL_STATE], 1);
    assert CodeStep(q, [0], 0, st) == Ok((Coded([true], after), 1));
    assert CodeRow(q, [0], 1, after) == Ok(Coded([], after));
    assert [true] + [] == [true];
  }

  lemma BlackNeighbors()
    ensures NeighborsAt(Above([0], [0]), [0], 0) == Neighbors(0, 0, 0, 0, 0, 0)
    ensures Predict(Neighbors(0, 0, 0, 0, 0, 0)) == 0
  {
  }

  /** Coding an item leaves the lines, contexts and runs of the others alone. */
  predicate SameElsewhere(item: Item, st: GolombState, next: GolombState) {
    && |next.lines| == |st.lines| && |next.banks| == |st.banks| && |next.runs| == |st.runs|
    && (forall p :: 0 <= p < |st.lines| && p != item.plane ==> next.lines[p] == st.lines[p])
    && (forall r :: 0 <= r < |st.runs| && r != item.run ==> next.runs[r] == st.runs[r])
    && (forall b :: 0 <= b < |st.banks| && b != item.slot ==> next.banks[b] == st.banks[b])
  }

  /** Nothing above, a fresh context, and no run. */
  predicate IsFreshFor(item: Item, st: GolombState) {
    && item.plane < |st.lines| && st.lines[item.plane] == Above([0], [0])
    && item.slot < |st.banks| && st.banks[item.slot] == [INITIAL_STATE]
    && item.run < |st.runs| && st.runs[item.run] == RunState(0, 0)
  }

  lemma BlackItem(l: Layout, item: Item, st: GolombState) returns (next: GolombState)
    requires IsLayout(l) && IsItem(l, item) && IsGolombState(l, st) && IsFreshFor(item, st)
    requires l.widths[item.plane] == 1 && item.bits == 8 && item.slot < |l.tables| && l.tables[item.slot] == ZeroTableSet()
    ensures CodeItem(l, item, [0], st) == Ok(([true], next)) && IsGolombState(l, next)
    ensures SameElsewhere(item, st, next)
  {
    hide ZeroTableSet, CodeRow, CodeItem, Advanced, IsTableSet;
    BlackRow(Setting(l, st, item));
    next := RowAdvances(l, item, [0], st, Coded([true], RowState([INITIAL_STATE], 1)));
    AdvancedElsewhere(st, item, [0], [INITIAL_STATE], RunState(1, 0));
  }

  lemma AdvancedElsewhere(st: GolombState, item: Item, row: seq<int>, bank: seq<ContextState>, run: RunState)
    requires item.plane < |st.lines| && item.slot < |st.banks| && item.run < |st.runs|
    ensures SameElsewhere(item, st, Advanced(st, item, row, bank, run))
  {
  }

  lemma RowAdvances(l: Layout, item: Item, row: seq<int>, st: GolombState, coded: Coded) returns (next: GolombState)
    requires IsLayout(l) && IsItem(l, item) && IsGolombState(l, st) && |row| == l.widths[item.plane] && item.run < |st.runs|
    requires st.runs[item.run] == RunState(0, 0) && item.slot < |st.banks|
    requires CodeRow(Setting(l, st, item), row, 0, RowState(st.banks[item.slot], 0)) == Ok(coded)
    ensures next == Advanced(st, item, row, coded.state.bank, RunState(coded.state.run, 0))
    ensures CodeItem(l, item, row, st) == Ok((coded.bits, next)) && IsGolombState(l, next)
  {
    hide CodeRow;
    next := Advanced(st, item, row, coded.state.bank, RunState(coded.state.run, 0));
  }

  lemma BlackContent(l: Layout, start: GolombState) returns (final: GolombState)
    requires IsLayout(l) && IsPairLayout(l) && IsGolombState(l, start) && IsPairStart(l, start)
    ensures IsImage(l, BLACK) && CodeContent(l, BLACK, start) == Ok(([true, true], final))
  {
    hide ZeroTableSet, CodeItem, Ordered, AreItems, Schedule, IsGolombState;
    BlackImage(l);
    ScheduleOrdered(l);
    OrderedAreItems(l, Schedule(l), Nothing(l));
    PairSchedule(l);
    TransformedShaped(l, BLACK);
    var a, b := Item(0, 0, 0, 0, 8), Item(1, 0, 2, 1, 8);
    var middle := BlackItem(l, a, start);
    final := BlackItem(l, b, middle);
    assert BLACK[0][0] == [0] && BLACK[1][0] == [0];
    BlackItems(l, a, b, start, middle, final);
  }

  lemma BlackItems(l: Layout, a: Item, b: Item, start: GolombState, middle: GolombState, final: GolombState)
    requires IsLayout(l) && AreItems(l, [a, b]) && IsItem(l, a) && IsItem(l, b) && a.plane == 0 && b.plane == 1 && a.y == 0 && b.y == 0
    requires Shaped(l, BLACK) && IsGolombState(l, start) && IsGolombState(l, middle)
    requires |l.widths| == 2 && l.widths[0] == 1 && l.widths[1] == 1
    requires CodeItem(l, a, [0], start) == Ok(([true], middle)) && CodeItem(l, b, [0], middle) == Ok(([true], final))
    ensures CodeItems(l, [a, b], BLACK, start) == Ok(([true, true], final))
  {
    hide CodeItem, IsLayout, IsGolombState;
    assert [a, b][1..] == [b] && [b][1..] == [];
    assert BLACK[0][0] == [0] && BLACK[1][0] == [0];
    assert CodeItems(l, [], BLACK, final) == Ok(([], final));
    assert [true] + [] == [true] && [true] + [true] == [true, true];
    assert CodeItems(l, [b], BLACK, middle) == Ok(([true], final));
  }

  lemma BlackImage(l: Layout)
    requires IsLayout(l) && IsPairLayout(l)
    ensures IsImage(l, BLACK)
  {
    hide ZeroTableSet;
  }

  lemma BlackBytes()
    ensures BitsOf([0xc0]) == [true, true] + Zeros(Padding(2))
  {
    assert [0xc0][..0] == [];
    assert BitsOf([0xc0]) == [] + Octet(0xc0);
    assert Octet(0xc0) == [true, true] + Zeros(6);
  }

  /** The encoder does code black cells of this stream, in few bytes. */
  lemma BlackCodes(v: HeaderValues, first: bool, keyframe: bool) returns (c: GolombCoded)
    requires IsPairCell(v) && IsPlaced(PairStream(), v)
    ensures IsGolombCoded(PairStream(), v, first, keyframe, BLACK, NOTHING_SAVED, c)
    ensures |PayloadOf(c)| <= MAXIMUM_SLICE_SIZE
  {
    hide DefaultTransition, ZeroTableSet, IsPlain, IsProfileOf, IsSupported, IsPlaced, SliceLayout, DescriptionOps, WriteAll, CodeContent, IsImage,
         BitsOf, Octets, Prepared, IsPairStart, IsPairLayout, IsGolombState, SteadyEncoder;
    var s := PairStream();
    PairConfigured();
    ProfileGuarantees(PAIR_OPTIONS, s);
    PairPlaced(v);
    PairLayout(v);
    var l := SliceLayout(s, v).value;
    PairStarts(l);
    PreparedFits(l, [], []);
    var start := Prepared(l, [], []).value;
    var final := BlackContent(l, start);
    BlackBytes();
    var header := DescriptionWrites(s, v, first, keyframe);
    SliceStartSound(s);
    WriteAllKeepsSound(SliceStart(s), DescriptionOps(s, v, first, keyframe).value);
    var description := PlainExists(header.interval);
    c := GolombCoded(header, description, [0xc0], final);
    HeaderIsShort(s, v, first, keyframe);
    CountOfDescription(s, v, first, keyframe, BLACK, NOTHING_SAVED, c);
  }

  lemma PairCells()
    ensures SliceCount(PairStream()) == 2 && !PairStream().intraOnly && PairStream().entropyMode == GolombRiceMode
    ensures CellHeader(PairStream(), 0) == RIGHT_HEADER.(x := 0) && CellHeader(PairStream(), 1) == RIGHT_HEADER
    ensures IsPairCell(RIGHT_HEADER.(x := 0)) && IsPairCell(RIGHT_HEADER)
  {
    hide DefaultTransition, ZeroTableSet;
    assert CellHeader(PairStream(), 0).indexes == [0, 0, 0];
    assert CellHeader(PairStream(), 1).indexes == [0, 0, 0];
  }

  lemma BlackFrameCodes() returns (f: FrameCoding)
    ensures IsFrameEncoded(PairStream(), true, [], f) && f.images == [BLACK, BLACK]
  {
    hide PairStream, IsSupported, IsPlaced, IsGolombCoded, IsEncoded, IsSliceOf, IsFrameEncoded, CellHeader, SliceCount, Kept, PayloadOf;
    var s := PairStream();
    PairCells();
    var left := RIGHT_HEADER.(x := 0);
    PairPlaced(left);
    PairPlaced(RIGHT_HEADER);
    SupportedGrid(s);
    var a := BlackCodes(left, true, true);
    var b := BlackCodes(RIGHT_HEADER, false, true);
    var first, second := NOTHING.(golomb := Kept(a.final)), NOTHING.(golomb := Kept(b.final));
    BlackEncoded(left, true, first, a);
    BlackEncoded(RIGHT_HEADER, false, second, b);
    f := FrameCoding([BLACK, BLACK], [PayloadOf(a), PayloadOf(b)], [first, second]);
    IsSliceWhen(s, f, 0, left, BLACK, PayloadOf(a), first);
    IsSliceWhen(s, f, 1, RIGHT_HEADER, BLACK, PayloadOf(b), second);
    TwoSlices(s, f);
  }

  lemma BlackEncoded(v: HeaderValues, first: bool, next: Saved, c: GolombCoded)
    requires IsGolombCoded(PairStream(), v, first, true, BLACK, NOTHING_SAVED, c) && next == NOTHING.(golomb := Kept(c.final))
    ensures IsEncoded(PairStream(), v, first, true, BLACK, NOTHING, PayloadOf(c), next)
  {
    hide IsGolombCoded, DefaultTransition, ZeroTableSet, Kept, PayloadOf;
    assert AsGolombSlice(PairStream(), v, first, true, BLACK, NOTHING, PayloadOf(c), next, c);
  }

  /** Of a frame of black cells the decoder returns a right cell that is not black. */
  lemma BlackFrameMisread(f: FrameCoding, verify: bool)
    requires IsFrameEncoded(PairStream(), true, [], f) && f.images == [BLACK, BLACK]
    ensures var decoded := DecodeFrame(PairStream(), FrameBytes(PairStream(), f), verify, NO_REFERENCE);
            decoded.Ok? && |decoded.value.0| == 2 && decoded.value.0[1] != BLACK
  {
    hide PairStream, IsFrameEncoded, FrameBytes, DecodeFrame, AllSurvive, IsProfiled, IsProfileOf, Arrived, SliceOutcome, SliceCount, CellRects;
    var s := PairStream();
    PairCells();
    PairConfigured();
    ProfileGuarantees(PAIR_OPTIONS, s);
    FrameDecodes(s, true, [], f, verify, NO_REFERENCE);
    EncodedLengths(s, true, [], f);
    ArrivedExactly(s, true, [], f, 0);
    assert f.images[0..] == f.images && f.states[0..] == f.states;
    ArrivedAt(s, true, [], f, 0, 1);
    RightMisread(f);
  }

  lemma RightMisread(f: FrameCoding)
    requires IsFrameEncoded(PairStream(), true, [], f) && f.images == [BLACK, BLACK]
    requires 0 < PairStream().numHSlices && |f.payloads| == 2 && |f.states| == 2
    ensures SliceOutcome(PairStream(), true, [], f, 1).Ok? && SliceOutcome(PairStream(), true, [], f, 1).value.0 != BLACK
  {
    hide PairStream, IsSupported, IsPlaced, IsGolombCoded, CellHeader, SliceCount, Kept, PayloadOf, ReadAhead, HeaderCount;
    var s := PairStream();
    PairCells();
    assert IsSliceOf(s, true, [], f, 1);
    var c: GolombCoded :| AsGolombSlice(s, RIGHT_HEADER, false, true, BLACK, NOTHING, f.payloads[1], f.states[1], c);
    CountOfDescription(s, RIGHT_HEADER, false, true, BLACK, NOTHING_SAVED, c);
    PairMisread(c, true);
  }

  /** So the encoder can be configured for a picture that the decoder silently changes. */
  lemma MisreadFrameExists(verify: bool) returns (f: FrameCoding)
    ensures IsProfileOf(PAIR_OPTIONS, PairStream()) && IsFrameEncoded(PairStream(), true, [], f)
    ensures var decoded := DecodeFrame(PairStream(), FrameBytes(PairStream(), f), verify, NO_REFERENCE);
            decoded.Ok? && decoded.value.0 != f.images
  {
    hide PairStream, IsFrameEncoded, FrameBytes, DecodeFrame, IsProfileOf;
    PairConfigured();
    f := BlackFrameCodes();
    BlackFrameMisread(f, verify);
  }
}
