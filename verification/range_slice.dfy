// The content of a slice in range mode (version 3): its rows as one script of symbols.

module RangeSlice {
  import opened Basics
  import opened GolombRice
  import opened SampleModel
  import opened GolombLine
  import opened RangeInterval
  import opened RangeSymbols
  import opened RangeContexts
  import opened RangeScript
  import opened RangeLine
  import opened StreamModel
  import opened SliceSchedule

  predicate AreLines(l: Layout, lines: seq<Above>)
    requires IsLayout(l)
  {
    && |lines| == |l.widths|
    && forall p :: 0 <= p < |lines| ==> IsAbove(lines[p], l.widths[p])
  }

  predicate Signed16(l: Layout) {
    !l.rgb && l.bits == 16 && l.mode == RangeMode
  }

  function LineSetting(l: Layout, lines: seq<Above>, item: Item): (q: RangeSetting)
    requires IsLayout(l) && IsItem(l, item) && AreLines(l, lines)
    ensures IsSetting(q.row) && Width(q.row) == l.widths[item.plane]
  {
    RangeSetting(RowSetting(l.tables[item.slot], item.bits, lines[item.plane]), Signed16(l), item.slot)
  }

  function NextLines(lines: seq<Above>, plane: nat, row: seq<int>): (r: seq<Above>)
    requires plane < |lines|
  {
    lines[plane := Above(lines[plane].previous, row)]
  }

  /** The symbols of the remaining rows. */
  ghost function ItemsOps(l: Layout, items: seq<Item>, planes: Planes, lines: seq<Above>): Result<seq<Operation>>
    requires IsLayout(l) && AreItems(l, items) && Shaped(l, planes) && AreLines(l, lines)
    decreases |items|
  {
    if items == [] then Ok([])
    else
      var row := planes[items[0].plane][items[0].y];
      var ops :- RowOps(LineSetting(l, lines, items[0]), row, 0);
      Then(ops, ItemsOps(l, items[1..], planes, NextLines(lines, items[0].plane, row)))
  }

  datatype RangeProgress = RangeProgress(planes: Planes, decoder: Decoder, lines: seq<Above>)

  /** Reads the remaining rows, appending each one to its plane. */
  ghost function ReadRangeItems(l: Layout, items: seq<Item>, p: RangeProgress): Result<RangeProgress>
    requires IsLayout(l) && AreItems(l, items) && AreLines(l, p.lines) && |p.planes| == |l.widths|
    decreases |items|
  {
    if items == [] then Ok(p)
    else
      var plane := items[0].plane;
      var (row, d) :- ReadRangeRow(LineSetting(l, p.lines, items[0]), p.decoder, []);
      ReadRangeItems(l, items[1..], RangeProgress(p.planes[plane := p.planes[plane] + [row]], d, NextLines(p.lines, plane, row)))
  }

  lemma RangeItemReadsBack(l: Layout, item: Item, row: seq<int>, lines: seq<Above>, ops: seq<Operation>, rest: seq<Operation>,
                           d: Decoder, final: Encoder)
    returns (d': Decoder)
    requires IsLayout(l) && IsItem(l, item) && AreLines(l, lines)
    requires |row| == l.widths[item.plane] && AllSamples(row, item.bits)
    requires RowOps(LineSetting(l, lines, item), row, 0) == Ok(ops)
    requires Scripted(d, ops + rest, final)
    ensures ReadRangeRow(LineSetting(l, lines, item), d, []) == Ok((row, d'))
    ensures Scripted(d', rest, final) && d'.payload == d.payload
  {
    hide Scripted, RowOps, ReadRangeRow, IsTableSet;
    assert row[..0] == [];
    d' := RangeRowReadsBack(LineSetting(l, lines, item), row, 0, ops, rest, d, final);
  }

  /** A script of rows, followed by anything, is read back as those rows. */
  lemma {:induction false} RangeItemsReadBack(l: Layout, items: seq<Item>, planes: Planes, lines: seq<Above>, reached: seq<nat>,
                                              got: Planes, ops: seq<Operation>, rest: seq<Operation>, d: Decoder, final: Encoder)
    returns (p: RangeProgress)
    requires IsLayout(l) && AreLines(l, lines)
    requires Ordered(l, items, reached) && AreItems(l, items)
    requires Shaped(l, planes) && InRange(l, planes)
    requires ItemsOps(l, items, planes, lines) == Ok(ops)
    requires Scripted(d, ops + rest, final)
    requires Agreed(planes, got, reached)
    ensures ReadRangeItems(l, items, RangeProgress(got, d, lines)) == Ok(p) && p.planes == planes
    ensures Scripted(p.decoder, rest, final) && p.decoder.payload == d.payload
    decreases |items|
  {
    hide RowOps, ReadRangeRow, Scripted, AllSamples, IsLayout, IsItem;
    if items == [] {
      AgreedAll(planes, got, reached);
      assert ops + rest == rest;
      p := RangeProgress(got, d, lines);
    } else {
      var item := items[0];
      ItemStands(l, items, planes, reached);
      var row := planes[item.plane][item.y];
      var first := RowOps(LineSetting(l, lines, item), row, 0).value;
      var more := ItemsOps(l, items[1..], planes, NextLines(lines, item.plane, row)).value;
      AppendAssoc(first, more, rest);
      var d1 := RangeItemReadsBack(l, item, row, lines, first, more + rest, d, final);
      AgreedNext(planes, got, reached, item.plane, item.y);
      p := RangeItemsReadBack(l, items[1..], planes, NextLines(lines, item.plane, row), reached[item.plane := item.y + 1],
                              got[item.plane := got[item.plane] + [row]], more, rest, d1, final);
    }
  }

  lemma FreshLinesFit(l: Layout)
    requires IsLayout(l)
    ensures AreLines(l, FreshLines(l))
  {
  }

  /** All symbols of a window. */
  ghost function ContentOps(l: Layout, image: Planes): Result<seq<Operation>>
    requires IsLayout(l) && Shaped(l, image)
  {
    ScheduleOrdered(l);
    OrderedAreItems(l, Schedule(l), Nothing(l));
    TransformedShaped(l, image);
    ItemsOps(l, Schedule(l), Transformed(l, image), FreshLines(l))
  }

  lemma {:induction false} ReadRangeItemsShape(l: Layout, items: seq<Item>, p: RangeProgress, reached: seq<nat>)
    requires IsLayout(l) && AreItems(l, items) && AreLines(l, p.lines) && |p.planes| == |l.widths|
    requires Ordered(l, items, reached)
    requires forall k :: 0 <= k < |p.planes| ==> |p.planes[k]| == reached[k]
    requires forall k, y :: 0 <= k < |p.planes| && 0 <= y < |p.planes[k]| ==> |p.planes[k][y]| == l.widths[k]
    requires ReadRangeItems(l, items, p).Ok?
    ensures Shaped(l, ReadRangeItems(l, items, p).value.planes)
    decreases |items|
  {
    hide ReadRangeRow, IsLayout, IsItem;
    if items != [] {
      ItemInside(l, items, reached);
      var item := items[0];
      var (row, d) := ReadRangeRow(LineSetting(l, p.lines, item), p.decoder, []).value;
      ReadRangeItemsShape(l, items[1..],
                          RangeProgress(p.planes[item.plane := p.planes[item.plane] + [row]], d, NextLines(p.lines, item.plane, row)),
                          reached[item.plane := item.y + 1]);
    }
  }

  /** Reads a window from the decoder and undoes the colour transform. */
  ghost function DecodeRangeContent(l: Layout, d: Decoder): Result<(Planes, Decoder)>
    requires IsLayout(l)
  {
    ScheduleOrdered(l);
    OrderedAreItems(l, Schedule(l), Nothing(l));
    FreshLinesFit(l);
    var p :- ReadRangeItems(l, Schedule(l), RangeProgress(NoPlanes(l), d, FreshLines(l)));
    ReadRangeItemsShape(l, Schedule(l), RangeProgress(NoPlanes(l), d, FreshLines(l)), Nothing(l));
    Ok((RestoredImage(l, p.planes), p.decoder))
  }

  /** Whatever the tables, contexts and sample format: a window written as symbols, among any
      other operations of the range coder, is read back as the same window. */
  lemma RangeContentReadsBack(l: Layout, image: Planes, ops: seq<Operation>, rest: seq<Operation>, d: Decoder, final: Encoder)
    returns (d': Decoder)
    requires IsLayout(l) && IsImage(l, image)
    requires ContentOps(l, image) == Ok(ops)
    requires Scripted(d, ops + rest, final)
    ensures DecodeRangeContent(l, d) == Ok((image, d'))
    ensures Scripted(d', rest, final) && d'.payload == d.payload
  {
    hide ItemsOps, ReadRangeItems, Scripted, IsLayout, Schedule, Ordered, AreItems, RestoredImage, Transformed;
    ScheduleOrdered(l);
    OrderedAreItems(l, Schedule(l), Nothing(l));
    TransformedInRange(l, image);
    NothingAgrees(l, Transformed(l, image));
    FreshLinesFit(l);
    var p := RangeItemsReadBack(l, Schedule(l), Transformed(l, image), FreshLines(l), Nothing(l), NoPlanes(l), ops, rest, d, final);
    ImageRestored(l, image);
    d' := p.decoder;
  }

  /** A signed symbol of moderate size. */
  predicate IsSampleOp(op: Operation) {
    op.request.SymbolRequest? && op.request.isSigned && Abs(op.value) < INT64_MAX
  }

  /** Every symbol of a window can be held by the coder. */
  lemma {:induction false} RowOpsRepresentable(q: RangeSetting, row: seq<int>, x: nat)
    requires IsSetting(q.row) && q.row.bits < 31 && x <= |row| == Width(q.row)
    requires RowOps(q, row, x).Ok?
    ensures forall op <- RowOps(q, row, x).value :: IsSampleOp(op)
    decreases Width(q.row) - x
  {
    hide DeriveContext, RangePrediction, WrapDifference, NeighborsAt;
    if x < Width(q.row) {
      var n := NeighborsAt(q.row.above, row, x);
      HalfBounded(q.row.bits);
      SentInRange(row[x], RangePrediction(n, q.signed16), q.row.bits, DeriveContext(q.row.tables, n).value.inverted);
      RowOpsRepresentable(q, row, x + 1);
    }
  }

  lemma {:induction false} ItemsOpsRepresentable(l: Layout, items: seq<Item>, planes: Planes, lines: seq<Above>)
    requires IsLayout(l) && AreItems(l, items) && Shaped(l, planes) && AreLines(l, lines)
    requires ItemsOps(l, items, planes, lines).Ok?
    ensures forall op <- ItemsOps(l, items, planes, lines).value :: IsSampleOp(op)
    decreases |items|
  {
    hide RowOps, IsTableSet;
    if items != [] {
      var item := items[0];
      var row := planes[item.plane][item.y];
      RowOpsRepresentable(LineSetting(l, lines, item), row, 0);
      ItemsOpsRepresentable(l, items[1..], planes, NextLines(lines, item.plane, row));
    }
  }

  lemma ContentOpsRepresentable(l: Layout, image: Planes)
    requires IsLayout(l) && Shaped(l, image) && ContentOps(l, image).Ok?
    ensures AllRepresentable(ContentOps(l, image).value)
    ensures forall op <- ContentOps(l, image).value :: IsSampleOp(op)
  {
    hide ItemsOps, Schedule, Transformed, Ordered, AreItems;
    ScheduleOrdered(l);
    OrderedAreItems(l, Schedule(l), Nothing(l));
    TransformedShaped(l, image);
    ItemsOpsRepresentable(l, Schedule(l), Transformed(l, image), FreshLines(l));
  }
}
