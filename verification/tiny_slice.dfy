// A slice the encoder makes and the decoder refuses: the second of two one-sample slices.  Its
// content does not add a byte to the three of its header, and closing drops the last one.

module TinySlice {
  import opened Basics
  import opened RangeInterval
  import opened RangeSymbols
  import opened RangeContexts
  import opened RangeScript
  import opened RangeNumbers
  import opened StateTransition
  import opened GolombRice
  import opened SampleModel
  import opened GolombLine
  import opened RangeLine
  import opened RangeSlice
  import opened StreamModel
  import opened SliceSchedule
  import opened SliceGeometry
  import opened SliceHeader
  import opened SliceLayouts
  import opened RangeSliceCodec
  import opened EncoderProfile

  /** Two grey samples side by side, each in a slice of its own. */
  function TinyStream(): StreamParameters {
    StreamParameters(3, 4, RangeMode, 2, 1, 8, 0, false, false, 0, 0, 2, 1, [ZeroTableSet()], [], DefaultTransition(), false, false)
  }

  const TINY_OPTIONS := EncoderOptions(1, 3, RangeMode, 2)
  const TINY_INFO := StreamInfo(2, 1, 3, 8, 0, 0, false, false, 0, 2, 1, false)

  /** It is what an encoder makes of the plainest options. */
  lemma TinyConfigured()
    ensures NormalizeEncoderProfile(TINY_OPTIONS, TINY_INFO) == Ok(TinyStream())
    ensures IsProfileOf(TINY_OPTIONS, TinyStream())
  {
    hide DefaultTransition, ZeroTableSet;
  }

  /** The header of the right slice. */
  const TINY_HEADER := HeaderValues(1, 0, 1, 1, [0, 0], 0, 0, 0)

  const TINY_IMAGE: Planes := [[[0]]]

  /** An encoder whose first context starts with the given state. */
  ghost predicate Stands(e: Encoder, iv: Interval, state: byte) {
    && WellFormed(e.contexts) && e.table == DefaultTransition()
    && e.interval == iv && 0 < |e.contexts.states| && e.contexts.states[0][0] == state
  }

  /** Writing zero is one decision. */
  lemma ZeroWritten(e: Encoder, iv: Interval, state: byte, nextState: byte) returns (next: Encoder)
    requires Stands(e, e.interval, state) && Narrow(e.interval, state, true) == Some(iv)
    requires DefaultTransition()[state] == nextState
    ensures Write(e, Number(0)) == Ok(next) && Stands(next, iv, nextState)
  {
    hide DefaultTransition, Narrow;
    FirstContextExists(e.contexts);
    var s := e.contexts.states[0];
    var d := Decision(0, true);
    assert SymbolDecisions(false, 0, false) == [d];
    assert [d][1..] == [];
    assert Encode(e.table, e.interval, s, [d]) == Encode(e.table, iv, s[0 := nextState], []);
    next := Write(e, Number(0)).value;
  }

  lemma FirstNarrowings()
    ensures Narrow(Interval(0, 65280, 2), 128, false) == Some(Interval(0, 32640, 2))
    ensures Narrow(Interval(0, 32640, 2), 128, false) == Some(Interval(0, 16320, 2))
  {
  }

  /** The two decisions of an unsigned one: not zero, and no more bits. */
  lemma OneEncoded(t: Table, s: ScalarStates)
    requires s[0] == 128 && s[1] == 128 && ZeroState(t, 128) == 122
    ensures Encode(t, Interval(0, 65280, 2), s, SymbolDecisions(false, 1, false)) == Some((Interval(0, 16320, 2), s[0 := 122][1 := 122]))
  {
    hide Narrow, ZeroState;
    var a, b := Decision(0, false), Decision(1, false);
    assert SymbolDecisions(false, 1, false) == [a, b];
    assert [a, b][1..] == [b] && [b][1..] == [];
    FirstNarrowings();
    var s1 := s[0 := 122];
    var s2 := s1[1 := 122];
    assert Encode(t, Interval(0, 16320, 2), s2, []) == Some((Interval(0, 16320, 2), s2));
    assert Encode(t, Interval(0, 32640, 2), s1, [b]) == Encode(t, Interval(0, 16320, 2), s2, []);
    assert Encode(t, Interval(0, 65280, 2), s, [a, b]) == Encode(t, Interval(0, 32640, 2), s1, [b]);
  }

  lemma OneWritten(e: Encoder) returns (next: Encoder)
    requires Stands(e, Interval(0, 65280, 2), 128) && e.contexts.states[0][1] == 128
    ensures Write(e, Number(1)) == Ok(next) && Stands(next, Interval(0, 16320, 2), 122)
  {
    hide DefaultTransition, Encode, SymbolDecisions;
    FirstContextExists(e.contexts);
    Entry128();
    OneEncoded(e.table, e.contexts.states[0]);
    next := Write(e, Number(1)).value;
  }

  lemma Entry128()
    ensures DefaultTransition()[128] == 134 && ZeroState(DefaultTransition(), 128) == 122
  {
    assert DefaultEntry(128) == 134;
  }

  lemma TableEntries()
    ensures DefaultTransition()[122] == 129 && DefaultTransition()[129] == 135 && DefaultTransition()[135] == 141
    ensures DefaultTransition()[141] == 147 && DefaultTransition()[147] == 152 && DefaultTransition()[152] == 157
    ensures DefaultTransition()[157] == 162 && DefaultTransition()[162] == 167
  {
    assert DefaultEntry(122) == 129 && DefaultEntry(129) == 135 && DefaultEntry(135) == 141;
    assert DefaultEntry(141) == 147 && DefaultEntry(147) == 152 && DefaultEntry(152) == 157;
    assert DefaultEntry(157) == 162 && DefaultEntry(162) == 167;
  }

  lemma StartStands()
    ensures Stands(SliceStart(TinyStream()), Interval(0, 65280, 2), 128)
    ensures SliceStart(TinyStream()).contexts.states[0][1] == 128
  {
    hide DefaultTransition, ZeroTableSet;
    HeaderContextsExist();
    var c := HeaderContexts().value;
    FirstContextExists(c);
    assert Concat([1], [], DEFAULT_STATE, 0) == [];
    assert Concat([1], [], DEFAULT_STATE, 1) == InitialBank(1, [], DEFAULT_STATE);
  }

  /** The header's nine numbers take three bytes. */
  lemma HeaderTakesThree() returns (header: Encoder)
    ensures WriteAll(SliceStart(TinyStream()), Numbers([1, 0, 0, 0, 0, 0, 0, 0, 0])) == Ok(header)
    ensures Stands(header, Interval(4139526, 38394, 3), 167)
  {
    hide DefaultTransition, Write, Number, Narrow, ZeroTableSet;
    StartStands();
    TableEntries();
    Narrowings();
    var e1 := OneWritten(SliceStart(TinyStream()));
    var e2 := ZeroWritten(e1, Interval(8543, 7777, 2), 122, 129);
    var e3 := ZeroWritten(e2, Interval(12402, 3918, 2), 129, 135);
    var e4 := ZeroWritten(e3, Interval(14254, 2066, 2), 135, 141);
    var e5 := ZeroWritten(e4, Interval(15183, 1137, 2), 141, 147);
    var e6 := ZeroWritten(e5, Interval(15668, 652, 2), 147, 152);
    var e7 := ZeroWritten(e6, Interval(15933, 387, 2), 152, 157);
    var e8 := ZeroWritten(e7, Interval(4117248, 60672, 3), 157, 162);
    var e9 := ZeroWritten(e8, Interval(4139526, 38394, 3), 162, 167);
    header := e9;
    NothingMore(e9);
    OneMore(e8, 0, [], e9);
    OneMore(e7, 0, [0], e8);
    OneMore(e6, 0, [0, 0], e7);
    OneMore(e5, 0, [0, 0, 0], e6);
    OneMore(e4, 0, [0, 0, 0, 0], e5);
    OneMore(e3, 0, [0, 0, 0, 0, 0], e4);
    OneMore(e2, 0, [0, 0, 0, 0, 0, 0], e3);
    OneMore(e1, 0, [0, 0, 0, 0, 0, 0, 0], e2);
    OneMore(SliceStart(TinyStream()), 1, [0, 0, 0, 0, 0, 0, 0, 0], e1);
  }

  lemma NothingMore(e: Encoder)
    ensures WriteAll(e, Numbers([])) == Ok(e)
  {
  }

  lemma OneMore(e: Encoder, value: nat, values: seq<nat>, next: Encoder)
    requires Write(e, Number(value)) == Ok(next)
    ensures WriteAll(e, Numbers([value] + values)) == WriteAll(next, Numbers(values))
  {
    hide Write, Number;
    assert ([value] + values)[1..] == values;
    assert Numbers([value] + values) == [Number(value)] + Numbers(values);
    assert ([Number(value)] + Numbers(values))[1..] == Numbers(values);
  }

  lemma Narrowings()
    ensures Narrow(Interval(0, 16320, 2), 122, true) == Some(Interval(8543, 7777, 2))
    ensures Narrow(Interval(8543, 7777, 2), 129, true) == Some(Interval(12402, 3918, 2))
    ensures Narrow(Interval(12402, 3918, 2), 135, true) == Some(Interval(14254, 2066, 2))
    ensures Narrow(Interval(14254, 2066, 2), 141, true) == Some(Interval(15183, 1137, 2))
    ensures Narrow(Interval(15183, 1137, 2), 147, true) == Some(Interval(15668, 652, 2))
    ensures Narrow(Interval(15668, 652, 2), 152, true) == Some(Interval(15933, 387, 2))
    ensures Narrow(Interval(15933, 387, 2), 157, true) == Some(Interval(4117248, 60672, 3))
    ensures Narrow(Interval(4117248, 60672, 3), 162, true) == Some(Interval(4139526, 38394, 3))
  {
  }

  lemma TinyPlaced()
    ensures IsSupported(TinyStream()) && IsPlaced(TinyStream(), TINY_HEADER) && IsTyped(TINY_HEADER)
    ensures DescriptionOps(TinyStream(), TINY_HEADER, false, false) == Ok(Numbers([1, 0, 0, 0, 0, 0, 0, 0, 0]))
  {
    hide DefaultTransition, Numbers;
    var s := TinyStream();
    assert RasterStatus(s, TINY_HEADER) == Ok(());
    assert HeaderNumbers(TINY_HEADER) == [1, 0, 0, 0, 0, 0, 0, 0, 0];
    assert [] + Numbers([1, 0, 0, 0, 0, 0, 0, 0, 0]) == Numbers([1, 0, 0, 0, 0, 0, 0, 0, 0]);
  }

  /** One of the two cells. */
  predicate IsTinyCell(v: HeaderValues) {
    v.x <= 1 && v == TINY_HEADER.(x := v.x)
  }

  lemma TinyRect(v: HeaderValues)
    requires IsTinyCell(v)
    ensures CodedPlaneCount(TinyStream()) == 1 && PlaneSlot(TinyStream(), 0) == 0
    ensures Window(TinyStream(), 0, RectOf(v)).width == 1 && Window(TinyStream(), 0, RectOf(v)).height == 1
  {
    hide DefaultTransition, ZeroTableSet;
    var s := TinyStream();
    assert PlaneWidth(s, 0) == 2 && PlaneHeight(s, 0) == 1 && s.numHSlices == 2 && s.numVSlices == 1;
    assert ScaledGridPosition(2, 2, 0) == 0 && ScaledGridPosition(2, 2, 1) == 1 && ScaledGridPosition(2, 2, 2) == 2;
    assert ScaledGridPosition(1, 1, 0) == 0 && ScaledGridPosition(1, 1, 1) == 1;
  }

  lemma TinyWindow(v: HeaderValues)
    requires IsTinyCell(v) && IsPlaced(TinyStream(), v)
    ensures LayoutOf(TinyStream(), v).widths == [1] && LayoutOf(TinyStream(), v).heights == [1]
    ensures LayoutOf(TinyStream(), v).slots == [0]
    ensures SliceLayout(TinyStream(), v) == Ok(LayoutOf(TinyStream(), v))
  {
    hide DefaultTransition, ZeroTableSet, Window, PlaneSlot, CodedPlaneCount, RasterStatus, IsPlaced, TablesOf;
    TinyRect(v);
    var l := LayoutOf(TinyStream(), v);
    assert |l.widths| == 1 && l.widths[0] == 1;
    assert |l.heights| == 1 && l.heights[0] == 1;
    assert |l.slots| == 1 && l.slots[0] == 0;
  }

  lemma TinyTables(v: HeaderValues)
    requires IsTinyCell(v) && IsPlaced(TinyStream(), v)
    ensures LayoutOf(TinyStream(), v).tables == TablesOf(TinyStream(), v)
    ensures |TablesOf(TinyStream(), v)| == 2
    ensures forall i :: 0 <= i < 2 ==> TablesOf(TinyStream(), v)[i] == ZeroTableSet()
    ensures !LayoutOf(TinyStream(), v).rgb && LayoutOf(TinyStream(), v).bits == 8
  {
    hide DefaultTransition, ZeroTableSet, Window, PlaneSlot, CodedPlaneCount, RasterStatus, IsPlaced;
  }

  lemma LoneSample(q: RangeSetting)
    requires IsSetting(q.row) && Width(q.row) == 1 && q.row.bits == 8 && q.row.tables == ZeroTableSet()
    requires q.row.above == Above([0], [0]) && !q.signed16
    ensures SampleOp(q, [0], 0) == Ok(Operation(SymbolRequest(q.bank, 0, true), 0))
  {
    hide DeriveContext, ZeroTableSet, NeighborsAt, Sent;
    ZeroNeighbors();
    ZeroFolded(Neighbors(0, 0, 0, 0, 0, 0));
    ZeroSent();
  }

  lemma ZeroNeighbors()
    ensures NeighborsAt(Above([0], [0]), [0], 0) == Neighbors(0, 0, 0, 0, 0, 0)
  {
  }

  lemma ZeroSent()
    ensures Sent(0, 0, 8, false) == 0
  {
    LowBitsSmall(0, 8);
  }

  /** A lone zero sample is one zero symbol in context 0. */
  lemma LoneZero(q: RangeSetting)
    requires IsSetting(q.row) && Width(q.row) == 1 && q.row.bits == 8 && q.row.tables == ZeroTableSet()
    requires q.row.above == Above([0], [0]) && !q.signed16
    ensures RowOps(q, [0], 0) == Ok([Operation(SymbolRequest(q.bank, 0, true), 0)])
  {
    hide SampleOp, ZeroTableSet;
    LoneSample(q);
    assert RowOps(q, [0], 1) == Ok([]);
    assert [Operation(SymbolRequest(q.bank, 0, true), 0)] + [] == [Operation(SymbolRequest(q.bank, 0, true), 0)];
  }

  const TINY_SYMBOL := Operation(SymbolRequest(0, 0, true), 0)

  lemma TinyContent(l: Layout)
    requires IsLayout(l) && l.widths == [1] && l.heights == [1] && l.slots == [0] && !l.rgb && l.bits == 8
    requires 0 < |l.tables| && l.tables[0] == ZeroTableSet()
    ensures Shaped(l, TINY_IMAGE) && IsImage(l, TINY_IMAGE)
    ensures ContentOps(l, TINY_IMAGE) == Ok([TINY_SYMBOL])
  {
    hide ZeroTableSet, RowOps, Ordered;
    assert AllSamples([0], 8);
    var item := Item(0, 0, 0, 0, 8);
    TinySchedule(l);
    FreshLinesFit(l);
    var q := LineSetting(l, FreshLines(l), item);
    assert FreshLines(l)[0].previous == [0] && FreshLines(l)[0].second == [0];
    LoneZero(q);
    assert TINY_IMAGE[0][0] == [0];
    var none := ItemsOps(l, [], TINY_IMAGE, NextLines(FreshLines(l), 0, [0]));
    assert none == Ok([]) && [item][1..] == [];
    assert ItemsOps(l, [item], TINY_IMAGE, FreshLines(l)) == Then([TINY_SYMBOL], none);
    assert [TINY_SYMBOL] + [] == [TINY_SYMBOL];
  }

  lemma TinySchedule(l: Layout)
    requires IsLayout(l) && l.widths == [1] && l.heights == [1] && l.slots == [0] && !l.rgb && l.bits == 8
    ensures Schedule(l) == [Item(0, 0, 0, 0, 8)] && AreItems(l, Schedule(l))
  {
    assert PlanarItems(l, 1, 0) == [];
    assert PlanarItems(l, 0, 1) == [];
  }

  /** Two operations: contexts, and a zero. */
  lemma TinySamples(v: HeaderValues)
    requires IsTinyCell(v) && IsSupported(TinyStream()) && IsPlaced(TinyStream(), v)
    ensures SliceLayout(TinyStream(), v).Ok? && IsLayout(SliceLayout(TinyStream(), v).value)
    ensures IsImage(SliceLayout(TinyStream(), v).value, TINY_IMAGE)
    ensures SampleOps(TinyStream(), v, TINY_IMAGE, []) ==
            Ok([Operation(ContentRequest(TinyStream(), v, CodedInitialBanks(TinyStream(), v)), 0)] + [TINY_SYMBOL])
  {
    hide DefaultTransition, ZeroTableSet, ContentOps, LayoutOf, IsImage, IsSupported, Numbers;
    TinyWindow(v);
    var s := TinyStream();
    SliceLayoutFits(s, v);
    TinyTables(v);
    TinyContent(SliceLayout(s, v).value);
  }

  /** The right slice is encoded: its header takes three bytes, and so does the whole. */
  lemma TinyEncodes() returns (header: Encoder, final: Encoder)
    ensures IsSupported(TinyStream()) && IsPlaced(TinyStream(), TINY_HEADER)
    ensures Attempt(SliceStart(TinyStream()), DescriptionOps(TinyStream(), TINY_HEADER, false, false)) == Some(header)
    ensures Attempt(header, SampleOps(TinyStream(), TINY_HEADER, TINY_IMAGE, [])) == Some(final)
    ensures header.interval.count == 3 && final.interval.count == 3
  {
    hide DefaultTransition, ZeroTableSet, ContentOps, LayoutOf, IsImage, IsSupported, Numbers;
    TinyPlaced();
    header := HeaderTakesThree();
    var s, v := TinyStream(), TINY_HEADER;
    TinySamples(v);
    var setup := Operation(ContentRequest(s, v, CodedInitialBanks(s, v)), 0);
    WriteAllConcat(header, [setup], [TINY_SYMBOL]);
    WriteOne(header, setup);
    var ready := TinySetup(header);
    WriteOne(ready, TINY_SYMBOL);
    final := TinySample(ready);
  }

  lemma TinySetup(header: Encoder) returns (ready: Encoder)
    requires IsSupported(TinyStream()) && IsPlaced(TinyStream(), TINY_HEADER)
    requires header.interval == Interval(4139526, 38394, 3) && header.table == DefaultTransition()
    ensures Write(header, Operation(ContentRequest(TinyStream(), TINY_HEADER, CodedInitialBanks(TinyStream(), TINY_HEADER)), 0)) == Ok(ready)
    ensures Stands(ready, Interval(4139526, 38394, 3), 128)
  {
    hide DefaultTransition, ZeroTableSet, IsSupported;
    var s, v := TinyStream(), TINY_HEADER;
    TinyTables(v);
    var counts, banks := Counts(s, v), CodedInitialBanks(s, v);
    assert counts == [1, 1];
    assert |banks| == 2 && banks[0] == [] && banks[1] == [];
    assert BankError(counts, banks, 0) == None && BankError(counts, banks, 1) == None;
    assert FirstBankError(counts, banks, 2) == None;
    assert FirstBankError(counts, banks, 1) == None;
    BuildWellFormed(counts, banks, DEFAULT_STATE);
    ready := Write(header, Operation(ContentRequest(s, v, banks), 0)).value;
    assert Concat(counts, banks, DEFAULT_STATE, 0) == [];
    assert Concat(counts, banks, DEFAULT_STATE, 1) == InitialBank(1, [], DEFAULT_STATE);
    assert Concat(counts, banks, DEFAULT_STATE, 2) == Concat(counts, banks, DEFAULT_STATE, 1) + InitialBank(1, [], DEFAULT_STATE);
    FirstContextExists(ready.contexts);
  }

  lemma TinySample(ready: Encoder) returns (final: Encoder)
    requires Stands(ready, Interval(4139526, 38394, 3), 128)
    ensures Write(ready, TINY_SYMBOL) == Ok(final) && final.interval.count == 3
  {
    hide DefaultTransition;
    FirstContextExists(ready.contexts);
    var s := ready.contexts.states[0];
    var d := Decision(0, true);
    assert SymbolDecisions(true, 0, false) == [d];
    assert [d][1..] == [];
    assert Narrow(Interval(4139526, 38394, 3), 128, true) == Some(Interval(4158723, 19197, 3));
    assert Encode(ready.table, ready.interval, s, [d])
        == Encode(ready.table, Interval(4158723, 19197, 3), s[0 := NextState(ready.table, 128, true)], []);
    final := Write(ready, TINY_SYMBOL).value;
  }

  /** Yet however it is closed, the decoder refuses it: two bytes cannot hold a header of three.
      The frame parser, which reads the footer along, still sees where the header ends. */
  lemma TinyRefused(c: RangeCoded, tail: seq<byte>)
    requires IsRangeCoded(TinyStream(), TINY_HEADER, false, false, TINY_IMAGE, [], c)
    requires 3 <= |tail| && tail[0] == 0
    ensures |c.payload| == 2 && c.header.interval.count == 3
    ensures DecodeRangeSlice(TinyStream(), c.payload, false, Description(false, TINY_HEADER, 3), []) == Err(SyntaxError)
  {
    hide DefaultTransition, ZeroTableSet, SampleOps, DescriptionOps, WriteAll, DecodeRangeSlice, Describe, Admits, IsSupported, IsPlaced;
    TinyPlaced();
    var header, final := TinyEncodes();
    assert c.header == header && c.final == final;
    ZeroTailAdmits(c.payload, tail, c.final.interval);
    WriteAllNests(c.payload + tail, c.header, SampleOps(TinyStream(), TINY_HEADER, TINY_IMAGE, []).value);
    NotIntra();
    RangeSliceDecodes(TinyStream(), TINY_HEADER, false, false, TINY_IMAGE, [], c, tail);
  }

  lemma NotIntra()
    ensures !TinyStream().intraOnly
  {
  }
}
