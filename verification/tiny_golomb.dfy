// A picture that comes back as another one.  Where header and content of a Golomb-Rice slice might
// share a byte, the decoder tries that first, and content preceded by the last byte of its header
// can be well-formed, too.

module TinyGolomb {
  import opened Basics
  import opened Bits
  import opened RangeInterval
  import opened RangeSymbols
  import opened RangeScript
  import opened RangeNumbers
  import opened StateTransition
  import opened GolombRice
  import opened GolombRun
  import opened SampleModel
  import opened GolombLine
  import opened GolombSlice
  import opened GolombContent
  import opened StreamModel
  import opened SliceSchedule
  import opened SliceGeometry
  import opened SliceHeader
  import opened SliceLayouts
  import opened RangeSliceCodec
  import opened GolombSliceCodec
  import opened EncoderProfile
  import opened TinySlice

  /** Two grey samples with an extra plane, each in a slice of its own. */
  function PairStream(): StreamParameters {
    StreamParameters(3, 4, GolombRiceMode, 2, 1, 8, 0, false, true, 0, 0, 2, 1, [ZeroTableSet()], [], DefaultTransition(), false, false)
  }

  const PAIR_OPTIONS := EncoderOptions(1, 3, GolombRiceMode, 2)
  const PAIR_INFO := StreamInfo(2, 1, 3, 8, 0, 0, false, true, 0, 2, 1, false)

  lemma PairConfigured()
    ensures NormalizeEncoderProfile(PAIR_OPTIONS, PAIR_INFO) == Ok(PairStream())
    ensures IsProfileOf(PAIR_OPTIONS, PairStream()) && PrefersReadAhead(PairStream())
  {
    hide DefaultTransition, ZeroTableSet;
  }

  const RIGHT_HEADER := HeaderValues(1, 0, 1, 1, [0, 0, 0], 0, 0, 0)

  const BLACK: Planes := [[[0]], [[0]]]

  predicate IsPairCell(v: HeaderValues) {
    v.x <= 1 && v == RIGHT_HEADER.(x := v.x)
  }

  lemma PairPlaced(v: HeaderValues)
    requires IsPairCell(v)
    ensures IsSupported(PairStream()) && IsPlaced(PairStream(), v) && IsTyped(v)
    ensures DescriptionOps(PairStream(), v, false, true) == Ok(Numbers([v.x, 0, 0, 0, 0, 0, 0, 0, 0, 0]))
  {
    hide DefaultTransition, Numbers;
    var s := PairStream();
    assert RasterStatus(s, v) == Ok(());
    assert HeaderNumbers(v) == [v.x, 0, 0, 0, 0, 0, 0, 0, 0, 0];
    assert [] + Numbers([v.x, 0, 0, 0, 0, 0, 0, 0, 0, 0]) == Numbers([v.x, 0, 0, 0, 0, 0, 0, 0, 0, 0]);
  }

  /** The header of the right slice is one number longer than without the extra plane. */
  lemma PairHeader() returns (header: Encoder)
    ensures WriteAll(SliceStart(PairStream()), Numbers([1, 0, 0, 0, 0, 0, 0, 0, 0, 0])) == Ok(header)
    ensures header.interval == Interval(4152874, 25046, 3)
  {
    hide DefaultTransition, Write, Number, Narrow, ZeroTableSet, Stands;
    var nine := HeaderTakesThree();
    LastNarrowing();
    StandsAt(nine);
    header := ZeroWritten(nine, Interval(4152874, 25046, 3), 167, DefaultTransition()[167]);
    StandsAt(header);
    assert SliceStart(PairStream()) == SliceStart(TinyStream());
    var front := [1, 0, 0, 0, 0, 0, 0, 0, 0];
    assert front + [0] == [1, 0, 0, 0, 0, 0, 0, 0, 0, 0];
    NumbersSplit(front, [0]);
    WriteAllConcat(SliceStart(PairStream()), Numbers(front), Numbers([0]));
    OneMore(nine, 0, [], header);
    NothingMore(header);
    assert [0] + [] == [0];
  }

  lemma StandsAt(e: Encoder)
    ensures forall iv: Interval, state: byte :: Stands(e, iv, state) ==> e.interval == iv
  {
  }

  lemma LastNarrowing()
    ensures Narrow(Interval(4139526, 38394, 3), 167, true) == Some(Interval(4152874, 25046, 3))
  {
  }

  /** So it ends in 0x2a. */
  lemma LastHeaderByte(c: GolombCoded, keyframe: bool, image: Planes, saved: GolombSaved)
    requires IsGolombCoded(PairStream(), RIGHT_HEADER, false, keyframe, image, saved, c)
    ensures |c.description| == 3 && c.description[2] == 0x2a && c.content != []
  {
    hide DefaultTransition, ZeroTableSet, WriteAll, CodeContent, Numbers, IsSupported, IsPlaced, SliceLayout, IsImage, BitsOf, Prepared, IsGolombState;
    PairPlaced(RIGHT_HEADER);
    var header := PairHeader();
    assert DescriptionOps(PairStream(), RIGHT_HEADER, false, keyframe) == DescriptionOps(PairStream(), RIGHT_HEADER, false, true);
    assert c.header == header;
    assert Prefix(c.description, 3) == Prefix(c.description, 2) * 256 + c.description[2];
    ContentThere(PairStream(), RIGHT_HEADER, false, keyframe, image, saved, c);
  }

  lemma ContentThere(s: StreamParameters, v: HeaderValues, first: bool, keyframe: bool, image: Planes, saved: GolombSaved, c: GolombCoded)
    requires IsGolombCoded(s, v, first, keyframe, image, saved, c)
    ensures c.content != []
  {
    hide DescriptionOps, WriteAll, CodeContent, BitsOf, IsSupported, IsGolombState, Prepared;
    LayoutRows(s, v);
    var l := SliceLayout(s, v).value;
    var start := Prepared(l, saved.banks, saved.runs).value;
    ContentNonEmpty(l, image, start);
    assert |BitsOf(c.content)| == 8 * |c.content|;
  }

  lemma PairRect(v: HeaderValues)
    requires IsPairCell(v)
    ensures CodedPlaneCount(PairStream()) == 2 && PlaneSlot(PairStream(), 0) == 0 && PlaneSlot(PairStream(), 1) == 2
    ensures forall p :: 0 <= p < 2 ==> Window(PairStream(), p, RectOf(v)).width == 1 && Window(PairStream(), p, RectOf(v)).height == 1
  {
    hide DefaultTransition, ZeroTableSet;
    var s := PairStream();
    assert forall p :: 0 <= p < 2 ==> PlaneWidth(s, p) == 2 && PlaneHeight(s, p) == 1;
    assert ScaledGridPosition(2, 2, 0) == 0 && ScaledGridPosition(2, 2, 1) == 1 && ScaledGridPosition(2, 2, 2) == 2;
    assert ScaledGridPosition(1, 1, 0) == 0 && ScaledGridPosition(1, 1, 1) == 1;
  }

  /** A layout of two planes with one sample each and one context each. */
  predicate IsPairLayout(l: Layout) {
    && l.widths == [1, 1] && l.heights == [1, 1] && l.slots == [0, 2] && !l.rgb && l.bits == 8
    && |l.tables| == 3 && forall i :: 0 <= i < 3 ==> l.tables[i] == ZeroTableSet()
  }

  lemma PairLayout(v: HeaderValues)
    requires IsPairCell(v) && IsPlaced(PairStream(), v)
    ensures SliceLayout(PairStream(), v).Ok? && IsPairLayout(SliceLayout(PairStream(), v).value)
    ensures IsLayout(SliceLayout(PairStream(), v).value)
  {
    hide DefaultTransition, ZeroTableSet, Window, PlaneSlot, CodedPlaneCount, RasterStatus, IsPlaced;
    PairRect(v);
    var l := LayoutOf(PairStream(), v);
    assert l.widths == [1, 1] && l.heights == [1, 1] && l.slots == [0, 2];
    PairPlaced(v);
    SliceLayoutFits(PairStream(), v);
  }

  lemma PairSchedule(l: Layout)
    requires IsLayout(l) && IsPairLayout(l)
    ensures Schedule(l) == [Item(0, 0, 0, 0, 8), Item(1, 0, 2, 1, 8)] && AreItems(l, Schedule(l))
  {
    hide ZeroTableSet;
    assert PlanarItems(l, 2, 0) == [];
    assert PlanarItems(l, 1, 1) == [];
    assert PlanarItems(l, 1, 0) == [Item(1, 0, 2, 1, 8)];
    assert PlanarItems(l, 0, 1) == [Item(1, 0, 2, 1, 8)];
  }

  /** The state a first slice starts from. */
  predicate IsPairStart(l: Layout, st: GolombState) {
    && st.lines == [Above([0], [0]), Above([0], [0])]
    && st.banks == [[INITIAL_STATE], [INITIAL_STATE], [INITIAL_STATE]]
    && st.runs == [RunState(0, 0), RunState(0, 0)]
  }

  lemma PairStarts(l: Layout)
    requires IsLayout(l) && IsPairLayout(l)
    ensures Prepared(l, [], []).Ok? && IsPairStart(l, Prepared(l, [], []).value)
  {
    hide ZeroTableSet;
    assert BorderRow(1) == [0];
    assert FreshLines(l) == [Above([0], [0]), Above([0], [0])];
    assert seq(1, _ => INITIAL_STATE) == [INITIAL_STATE];
    assert FreshBanks(l)[0] == [INITIAL_STATE] && FreshBanks(l)[1] == [INITIAL_STATE] && FreshBanks(l)[2] == [INITIAL_STATE];
    assert FreshBanks(l) == [[INITIAL_STATE], [INITIAL_STATE], [INITIAL_STATE]];
    assert FreshRuns(l) == [RunState(0, 0), RunState(0, 0)];
  }

  /** A row of one sample in fresh contexts, when its run is interrupted at once. */
  lemma LoneRow(q: RowSetting, s: seq<bool>, pos: nat, value: int, next: nat, c: ContextState)
    requires IsSetting(q) && Width(q) == 1 && q.bits == 8 && q.tables == ZeroTableSet() && q.above == Above([0], [0])
    requires pos < |s| && !s[pos] && TakeInterruption(s, pos + 1, INITIAL_STATE, 8) == Ok((value, next, c))
    ensures ReadRow(q, s, Decoded([], pos, [INITIAL_STATE], RunState(0, 0)))
         == Ok(Decoded([Restored(0, value, 8, false)], next, [c], RunState(0, 0)))
  {
    hide ZeroTableSet, DeriveContext, TakeInterruption, Restored, NeighborsAt;
    EmptyNeighbors();
    ZeroFolded(Neighbors(0, 0, 0, 0, 0, 0));
    assert Log2Run(0) == 0;
    assert TakeFixed(s, pos + 1, 0) == Ok((0, pos + 1));
    assert TakeSegment(s, pos, RunState(0, 0), 0, 1) == Ok((Segment(0, true), pos + 1, RunState(0, 0)));
    assert TakeRun(s, pos, RunState(0, 0), 0, 1) == Ok((0, true, pos + 1, RunState(0, 0)));
    var d := Decoded([], pos, [INITIAL_STATE], RunState(0, 0));
    assert FillTo(q, [], 0) == [];
    var filled := d.(row := [], position := pos + 1, run := RunState(0, 0));
    assert ReadStep(q, s, d) == ReadInterruption(q, s, filled);
    var after := Decoded([Restored(0, value, 8, false)], next, [c], RunState(0, 0));
    assert [] + [Restored(0, value, 8, false)] == after.row && [INITIAL_STATE][0 := c] == after.bank;
    assert PredictionAt(q, [], 0) == 0;
    assert ReadInterruption(q, s, filled) == Ok(after);
    assert ReadRow(q, s, after) == Ok(after);
  }

  lemma EmptyNeighbors()
    ensures NeighborsAt(Above([0], [0]), [], 0) == Neighbors(0, 0, 0, 0, 0, 0)
    ensures Predict(Neighbors(0, 0, 0, 0, 0, 0)) == 0
  {
  }

  /** In a fresh context a code is a unary quotient and two bits. */
  lemma FreshCode(s: seq<bool>, pos: nat, zeros: nat, high: bool, low: bool)
    requires zeros <= 1 && pos + zeros + 3 <= |s|
    requires (zeros == 1 ==> !s[pos]) && s[pos + zeros] && s[pos + zeros + 1] == high && s[pos + zeros + 2] == low
    ensures var folded := 4 * zeros + (if high then 2 else 0) + if low then 1 else 0;
            TakeCode(s, pos, 2, 8, 0) == Ok((folded, pos + zeros + 3))
  {
    var at := pos + zeros + 1;
    assert Accumulate(s, at + 2, at + 2, (if high then 2 else 0) + if low then 1 else 0) == (if high then 2 else 0) + if low then 1 else 0;
    assert Accumulate(s, at + 1, at + 2, if high then 1 else 0) == (if high then 2 else 0) + if low then 1 else 0;
    assert Accumulate(s, at, at + 2, 0) == (if high then 2 else 0) + if low then 1 else 0;
    assert ShiftLeft(zeros, 2) == 4 * zeros;
    assert TakeCode(s, pos + zeros, 2, 8, zeros) == Ok((4 * zeros + (if high then 2 else 0) + (if low then 1 else 0), pos + zeros + 3));
  }

  lemma FreshInterruption(s: seq<bool>, pos: nat, folded: nat, next: nat) returns (c: ContextState)
    requires folded < 8 && TakeCode(s, pos, 2, 8, 0) == Ok((folded, next))
    ensures TakeInterruption(s, pos, INITIAL_STATE, 8) == Ok((if folded % 2 == 0 then folded / 2 + 1 else -(folded / 2) - 1, next, c))
  {
    hide TakeCode;
    assert SearchK(4, 4, 2) == Some(2);
    assert SearchK(2, 4, 1) == Some(2);
    assert DeriveK(INITIAL_STATE) == Some(2);
    SmallExtends(Unfold(folded));
    c := Update(INITIAL_STATE, Unfold(folded));
  }

  lemma SmallExtends(value: int)
    requires -4 <= value < 4
    ensures SignExtend(value, 8) == value
  {
    assert Pow2(8) == 256;
    assert Half(8) == 128;
    SignExtendIdentity(value, 8);
  }

  /** Bits that begin with the last header byte: an interrupted run, the code of minus three, another
      interrupted run, and the code of one or of minus one. */
  predicate BeginsEarly(s: seq<bool>) {
    9 <= |s| && s[..8] == [false, false, true, false, true, false, true, false]
  }

  lemma EarlyBits(content: seq<byte>)
    requires content != []
    ensures BeginsEarly(BitsOf([0x2a] + content))
  {
    BitsOfConcat([0x2a], content);
    assert [0x2a][..0] == [];
    assert BitsOf([0x2a]) == [] + Octet(0x2a);
    assert Octet(0x2a) == [false, false, true, false, true, false, true, false];
    var s := BitsOf([0x2a] + content);
    assert s[..8] == BitsOf([0x2a]);
  }

  lemma EarlyRows(q: RowSetting, s: seq<bool>) returns (next: nat, first: ContextState, second: ContextState, x: int)
    requires IsSetting(q) && Width(q) == 1 && q.bits == 8 && q.tables == ZeroTableSet() && q.above == Above([0], [0])
    requires BeginsEarly(s)
    ensures ReadRow(q, s, Decoded([], 0, [INITIAL_STATE], RunState(0, 0))) == Ok(Decoded([253], 5, [first], RunState(0, 0)))
    ensures ReadRow(q, s, Decoded([], 5, [INITIAL_STATE], RunState(0, 0))) == Ok(Decoded([x], next, [second], RunState(0, 0)))
  {
    hide ReadRow, TakeCode, TakeInterruption, ZeroTableSet;
    assert s[0] == s[..8][0] && s[1] == s[..8][1] && s[2] == s[..8][2] && s[3] == s[..8][3];
    assert s[4] == s[..8][4] && s[5] == s[..8][5] && s[6] == s[..8][6] && s[7] == s[..8][7];
    FreshCode(s, 1, 1, s[3], s[4]);
    first := FreshInterruption(s, 1, 5, 5);
    LoneRow(q, s, 0, -3, 5, first);
    RestoredBelow();
    FreshCode(s, 6, 0, s[7], s[8]);
    var folded := if s[8] then 1 else 0;
    second := FreshInterruption(s, 6, folded, 9);
    next := 9;
    var value := if folded == 0 then 1 else -1;
    LoneRow(q, s, 5, value, 9, second);
    x := Restored(0, value, 8, false);
  }

  lemma RestoredBelow()
    ensures Restored(0, -3, 8, false) == 253
  {
    assert Pow2(8) == 256;
  }

  /** Read from one byte too early, a black slice is not black. */
  lemma EarlyContent(l: Layout, start: GolombState, content: seq<byte>)
    requires IsLayout(l) && IsPairLayout(l) && IsGolombState(l, start) && IsPairStart(l, start) && content != []
    ensures var early := DecodeContent(l, [0x2a] + content, start, true);
            early.Ok? && 0 < |early.value.0| && early.value.0[0] == [[253]]
  {
    hide ReadRow, BitsOf, ZeroTableSet, Ordered, AreItems, BeginsEarly, Schedule;
    ScheduleOrdered(l);
    OrderedAreItems(l, Schedule(l), Nothing(l));
    PairSchedule(l);
    EarlyBits(content);
    var s := BitsOf([0x2a] + content);
    var a, b := Item(0, 0, 0, 0, 8), Item(1, 0, 2, 1, 8);
    var next, first, second, x := EarlyRows(Setting(l, start, a), s);
    var p0 := Progress(NoPlanes(l), 0, start);
    assert NoPlanes(l)[0] == [] && NoPlanes(l)[1] == [];
    PairItem(l, a, s, 0, start, 253, 5, first);
    var st1 := Advanced(start, a, [253], [first], RunState(0, 0));
    assert Setting(l, st1, b) == Setting(l, start, a);
    assert st1.banks[2] == [INITIAL_STATE] && st1.runs[1] == RunState(0, 0);
    PairItem(l, b, s, 5, st1, x, next, second);
    var st2 := Advanced(st1, b, [x], [second], RunState(0, 0));
    var p1 := Progress([[[253]], []], 5, st1);
    var p2 := Progress([[[253]], [[x]]], next, st2);
    assert NoPlanes(l) == [[], []];
    assert NoPlanes(l)[0] + [[253]] == [[253]] && p1.planes[1] + [[x]] == [[x]];
    assert p0.planes[0 := [[253]]] == p1.planes;
    assert p1.planes[1 := [[x]]] == p2.planes;
    PairItemsRead(l, a, b, s, p0, p1, p2);
    assert ReadContent(l, [0x2a] + content, start, true) == Ok((p2.planes, Settled(st2)));
    ContentShaped(l, [0x2a] + content, start, true);
  }

  lemma PairItem(l: Layout, item: Item, s: seq<bool>, position: nat, st: GolombState, x: int, next: nat, c: ContextState)
    requires IsLayout(l) && IsItem(l, item) && IsGolombState(l, st) && item.slot < |st.banks| && item.run < |st.runs|
    requires ReadRow(Setting(l, st, item), s, Decoded([], position, st.banks[item.slot], st.runs[item.run]))
          == Ok(Decoded([x], next, [c], RunState(0, 0)))
    ensures ReadItem(l, item, s, position, st) == Ok(([x], next, Advanced(st, item, [x], [c], RunState(0, 0))))
  {
    hide ReadRow;
  }

  lemma PairItemsRead(l: Layout, a: Item, b: Item, s: seq<bool>, p0: Progress, p1: Progress, p2: Progress)
    requires IsLayout(l) && AreItems(l, [a, b]) && IsItem(l, a) && IsItem(l, b) && a.plane == 0 && b.plane == 1
    requires IsGolombState(l, p0.state) && IsGolombState(l, p1.state) && IsGolombState(l, p2.state)
    requires |p0.planes| == |l.widths| && |p1.planes| == |l.widths| && |p2.planes| == |l.widths| && 2 <= |l.widths|
    requires ReadItem(l, a, s, p0.position, p0.state).Ok?
    requires var (row, position, state) := ReadItem(l, a, s, p0.position, p0.state).value;
             p1 == Progress(p0.planes[0 := p0.planes[0] + [row]], position, state)
    requires ReadItem(l, b, s, p1.position, p1.state).Ok?
    requires var (row, position, state) := ReadItem(l, b, s, p1.position, p1.state).value;
             p2 == Progress(p1.planes[1 := p1.planes[1] + [row]], position, state)
    ensures ReadItems(l, [a, b], s, p0) == Ok(p2)
  {
    hide ReadItem, IsLayout, IsGolombState;
    assert [a, b][1..] == [b] && [b][1..] == [];
    assert ReadItems(l, [], s, p2) == Ok(p2);
    assert ReadItems(l, [b], s, p1) == ReadItems(l, [], s, p2);
  }

  lemma PairEarly(payload: seq<byte>, content: seq<byte>)
    requires 2 < |payload| && payload[2..] == [0x2a] + content && content != []
    ensures IsSupported(PairStream()) && IsPlaced(PairStream(), RIGHT_HEADER)
    ensures var early := DecodeFrom(PairStream(), payload, RIGHT_HEADER, 2, true, NOTHING_SAVED);
            early.Ok? && 0 < |early.value.0| && early.value.0[0] == [[253]]
  {
    hide PairStream, IsSupported, IsPlaced, SliceLayout, DecodeContent, Prepared, IsPairStart, IsGolombState, Kept, IsPairLayout, IsLayout;
    PairPlaced(RIGHT_HEADER);
    PairLayout(RIGHT_HEADER);
    var l := SliceLayout(PairStream(), RIGHT_HEADER).value;
    PairStarts(l);
    PreparedFits(l, [], []);
    EarlyContent(l, Prepared(l, [], []).value, content);
  }

  /** What the decoder tries first succeeds, and shows something else. */
  lemma PairMisread(c: GolombCoded, keyframe: bool)
    requires IsGolombCoded(PairStream(), RIGHT_HEADER, false, keyframe, BLACK, NOTHING_SAVED, c)
    ensures |c.description| == 3
    ensures var early := ReadAhead(PairStream(), RIGHT_HEADER, PayloadOf(c), 3, NOTHING_SAVED);
            early.Ok? && early.value.0 != BLACK && 0 < |early.value.0| && early.value.0[0] == [[253]]
  {
    hide PairStream, IsSupported, IsPlaced, DecodeFrom, IsGolombCoded, IsProfileOf, PrefersReadAhead;
    LastHeaderByte(c, keyframe, BLACK, NOTHING_SAVED);
    assert PayloadOf(c)[2..] == [0x2a] + c.content;
    PairEarly(PayloadOf(c), c.content);
    PairConfigured();
    assert BLACK[0] == [[0]] && [[0]] != [[253]] by {
      assert [[0]][0][0] == 0 && [[253]][0][0] == 253;
    }
  }
}
