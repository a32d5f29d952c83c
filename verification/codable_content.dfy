// Which contents can always be coded: any image, with tables a configuration can carry.

module CodableContent {
  import opened Basics
  import opened GolombRice
  import opened SampleModel
  import opened GolombLine
  import opened GolombContent
  import opened RangeInterval
  import opened RangeSymbols
  import opened RangeContexts
  import opened RangeScript
  import opened RangeLine
  import opened RangeSlice
  import opened StateTransition
  import opened SteadyCoding
  import opened QuantTables
  import opened StreamModel
  import opened SliceSchedule

  /** Tables that can be written cover every neighbourhood. */
  lemma WritableCovers(t: QuantTableSet)
    requires IsStored(t) && SetOps(t, 0, 1).Ok?
    ensures Covers(t)
  {
    hide SetOps, DeriveContext;
    forall n: Neighbors
      ensures DeriveContext(t, n).Ok?
    {
      ContextsCovered(t, n);
    }
  }

  /** So do tables that were parsed, from whatever bytes. */
  lemma ParsedCovers(d: Decoder)
    requires ParseSet(d, 1, []).Ok?
    ensures Covers(ParseSet(d, 1, []).value.0)
  {
    hide ParseSet, SetOps;
    ParsedSet(d, 1, []);
    WritableCovers(ParseSet(d, 1, []).value.0);
  }

  function TableSizes(l: Layout): (sizes: seq<nat>)
    ensures |sizes| == |l.tables|
  {
    seq(|l.tables|, i requires 0 <= i < |l.tables| => l.tables[i].contextCount)
  }

  lemma {:induction false} RowOpsInside(q: RangeSetting, row: seq<int>, x: nat, sizes: seq<nat>)
    requires IsSetting(q.row) && q.row.bits < 31 && x <= |row| == Width(q.row)
    requires Covers(q.row.tables) && q.bank < |sizes| && sizes[q.bank] == q.row.tables.contextCount
    ensures RowOps(q, row, x).Ok? && AllInside(RowOps(q, row, x).value, sizes)
    decreases Width(q.row) - x
  {
    hide DeriveContext, RangePrediction, WrapDifference, NeighborsAt;
    if x < Width(q.row) {
      var n := NeighborsAt(q.row.above, row, x);
      HalfBounded(q.row.bits);
      SentInRange(row[x], RangePrediction(n, q.signed16), q.row.bits, DeriveContext(q.row.tables, n).value.inverted);
      RowOpsInside(q, row, x + 1, sizes);
    }
  }

  lemma {:induction false} ItemsOpsInside(l: Layout, items: seq<Item>, planes: Planes, lines: seq<Above>)
    requires IsLayout(l) && AreItems(l, items) && Shaped(l, planes) && AreLines(l, lines)
    requires forall t <- l.tables :: Covers(t)
    ensures ItemsOps(l, items, planes, lines).Ok? && AllInside(ItemsOps(l, items, planes, lines).value, TableSizes(l))
    decreases |items|
  {
    hide RowOps, IsTableSet, Covers, IsInside;
    if items != [] {
      var item := items[0];
      var row := planes[item.plane][item.y];
      var q := LineSetting(l, lines, item);
      assert l.tables[item.slot] in l.tables;
      RowOpsInside(q, row, 0, TableSizes(l));
      ItemsOpsInside(l, items[1..], planes, NextLines(lines, item.plane, row));
      AllInsideConcat(RowOps(q, row, 0).value, ItemsOps(l, items[1..], planes, NextLines(lines, item.plane, row)).value, TableSizes(l));
    }
  }

  /** In range mode, with the default transition table and steady contexts, every image is coded:
      no context is missing and no symbol meets an empty interval; the contexts stay steady, so
      the next frame can be coded as well. */
  lemma RangeContentWrites(l: Layout, image: Planes, e: Encoder)
    requires IsLayout(l) && Shaped(l, image) && forall t <- l.tables :: Covers(t)
    requires SteadyEncoder(e) && e.contexts.sizes == TableSizes(l)
    ensures ContentOps(l, image).Ok? && WriteAll(e, ContentOps(l, image).value).Ok?
    ensures SteadyEncoder(WriteAll(e, ContentOps(l, image).value).value)
  {
    hide ItemsOps, Schedule, Transformed, Ordered, AreItems, SteadyEncoder, Covers, IsInside;
    ScheduleOrdered(l);
    OrderedAreItems(l, Schedule(l), Nothing(l));
    TransformedShaped(l, image);
    FreshLinesFit(l);
    ItemsOpsInside(l, Schedule(l), Transformed(l, image), FreshLines(l));
    AllInsideWrite(e, ContentOps(l, image).value);
  }
}
