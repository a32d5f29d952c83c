// The content of a slice in Golomb-Rice mode: its rows one after the other, with the
// context banks of each slot and the run states carried along.

module GolombSlice {
  import opened Basics
  import opened Bits
  import opened GolombRice
  import opened GolombRun
  import opened SampleModel
  import opened GolombLine
  import opened StreamModel
  import opened SliceSchedule

  /** The two rows above the next one of each plane, the contexts of each slot, the run states. */
  datatype GolombState = GolombState(lines: seq<Above>, banks: seq<seq<ContextState>>, runs: seq<RunState>)

  ghost predicate IsGolombState(l: Layout, st: GolombState)
    requires IsLayout(l)
  {
    && |st.lines| == |l.widths| && |st.runs| == |l.widths| && |st.banks| == |l.tables|
    && (forall p :: 0 <= p < |st.lines| ==> IsAbove(st.lines[p], l.widths[p]))
    && (forall b :: 0 <= b < |st.banks| ==> |st.banks[b]| == l.tables[b].contextCount)
  }

  function Setting(l: Layout, st: GolombState, item: Item): (q: RowSetting)
    requires IsLayout(l) && IsItem(l, item) && |st.lines| == |l.widths|
    requires IsAbove(st.lines[item.plane], l.widths[item.plane])
    ensures IsSetting(q) && Width(q) == l.widths[item.plane]
  {
    RowSetting(l.tables[item.slot], item.bits, st.lines[item.plane])
  }

  /** The coded row becomes the first one above the next. */
  function Advanced(st: GolombState, item: Item, row: seq<int>, bank: seq<ContextState>, run: RunState): GolombState
    requires item.plane < |st.lines| && item.slot < |st.banks| && item.run < |st.runs|
  {
    GolombState(st.lines[item.plane := Above(st.lines[item.plane].previous, row)],
                st.banks[item.slot := bank],
                st.runs[item.run := run])
  }

  function CodeItem(l: Layout, item: Item, row: seq<int>, st: GolombState): (r: Result<(seq<bool>, GolombState)>)
    requires IsLayout(l) && IsItem(l, item) && IsGolombState(l, st) && |row| == l.widths[item.plane]
    ensures r.Ok? ==> IsGolombState(l, r.value.1)
  {
    var q := Setting(l, st, item);
    var run := st.runs[item.run];
    if RUN_INDEXES <= run.index then Err(InvalidState)
    else
      var c :- CodeRow(q, row, 0, RowState(st.banks[item.slot], run.index));
      Ok((c.bits, Advanced(st, item, row, c.state.bank, run.(index := c.state.run))))
  }

  function Preceded(bits: seq<bool>, rest: Result<(seq<bool>, GolombState)>): Result<(seq<bool>, GolombState)> {
    match rest
    case Err(error) => Err(error)
    case Ok((more, st)) => Ok((bits + more, st))
  }

  /** The bits of the remaining rows. */
  ghost function CodeItems(l: Layout, items: seq<Item>, planes: Planes, st: GolombState): (r: Result<(seq<bool>, GolombState)>)
    requires IsLayout(l) && AreItems(l, items) && Shaped(l, planes) && IsGolombState(l, st)
    ensures r.Ok? ==> IsGolombState(l, r.value.1)
    decreases |items|
  {
    if items == [] then Ok(([], st))
    else
      var (bits, next) :- CodeItem(l, items[0], planes[items[0].plane][items[0].y], st);
      Preceded(bits, CodeItems(l, items[1..], planes, next))
  }

  function ReadItem(l: Layout, item: Item, s: seq<bool>, position: nat, st: GolombState): (r: Result<(seq<int>, nat, GolombState)>)
    requires IsLayout(l) && IsItem(l, item) && IsGolombState(l, st)
    ensures r.Ok? ==> |r.value.0| == l.widths[item.plane] && IsGolombState(l, r.value.2)
  {
    var q := Setting(l, st, item);
    var d :- ReadRow(q, s, Decoded([], position, st.banks[item.slot], st.runs[item.run]));
    Ok((d.row, d.position, Advanced(st, item, d.row, d.bank, d.run)))
  }

  /** What has been decoded so far: samples, position and states. */
  datatype Progress = Progress(planes: Planes, position: nat, state: GolombState)

  /** Reads the remaining rows, appending each one to its plane. */
  ghost function ReadItems(l: Layout, items: seq<Item>, s: seq<bool>, p: Progress): Result<Progress>
    requires IsLayout(l) && AreItems(l, items) && IsGolombState(l, p.state) && |p.planes| == |l.widths|
    decreases |items|
  {
    if items == [] then Ok(p)
    else
      var plane := items[0].plane;
      var (row, position, state) :- ReadItem(l, items[0], s, p.position, p.state);
      ReadItems(l, items[1..], s, Progress(p.planes[plane := p.planes[plane] + [row]], position, state))
  }

  /** Every difference of the slice has the same width in this mode. */
  function DifferenceBits(l: Layout): nat {
    if l.rgb then l.bits + 1 else l.bits
  }

  /** What writer and reader keep between rows: samples above in range, contexts adapted to
      the coded width, and no pending run. */
  ghost predicate IsAdapted(l: Layout, st: GolombState)
    requires IsLayout(l)
  {
    && IsGolombState(l, st)
    && (forall p :: 0 <= p < |st.lines| ==>
          AllSamples(st.lines[p].second, DifferenceBits(l)) && AllSamples(st.lines[p].previous, DifferenceBits(l)))
    && (forall b :: 0 <= b < |st.banks| ==> AllAdapted(st.banks[b], DifferenceBits(l)))
    && (forall r :: 0 <= r < |st.runs| ==> st.runs[r].index < RUN_INDEXES && st.runs[r].pending == 0)
  }

  lemma ItemReadsBack(l: Layout, item: Item, row: seq<int>, st: GolombState, s: seq<bool>, pos: nat, bits: seq<bool>, next: GolombState)
    requires IsLayout(l) && l.mode == GolombRiceMode && IsItem(l, item) && IsAdapted(l, st)
    requires |row| == l.widths[item.plane] && AllSamples(row, item.bits)
    requires CodeItem(l, item, row, st) == Ok((bits, next))
    requires Carries(s, pos, bits)
    ensures IsAdapted(l, next)
    ensures ReadItem(l, item, s, pos, st) == Ok((row, pos + |bits|, next))
  {
    hide CodeRow, ReadRow, Adapted, IsSample, IsTableSet;
    var q := Setting(l, st, item);
    var start := RowState(st.banks[item.slot], st.runs[item.run].index);
    var c := CodeRow(q, row, 0, start).value;
    assert row[..0] == [];
    RowReadsBack(q, row, 0, start, s, pos, c);
    assert row[..Width(q)] == row;
  }

  /** The rows of a slice read back in whatever order both sides agree on. */
  lemma {:induction false} ItemsReadBack(l: Layout, items: seq<Item>, planes: Planes, st: GolombState, reached: seq<nat>,
                                         s: seq<bool>, pos: nat, got: Planes, bits: seq<bool>, final: GolombState)
    requires IsLayout(l) && l.mode == GolombRiceMode
    requires Ordered(l, items, reached) && AreItems(l, items)
    requires Shaped(l, planes) && InRange(l, planes) && IsAdapted(l, st)
    requires CodeItems(l, items, planes, st) == Ok((bits, final))
    requires Carries(s, pos, bits)
    requires Agreed(planes, got, reached)
    ensures IsAdapted(l, final)
    ensures ReadItems(l, items, s, Progress(got, pos, st)) == Ok(Progress(planes, pos + |bits|, final))
    decreases |items|
  {
    hide CodeItem, ReadItem, AllSamples, AllAdapted, IsLayout, IsItem, IsAbove, DifferenceBits;
    if items == [] {
      AgreedAll(planes, got, reached);
    } else {
      var item := items[0];
      ItemStands(l, items, planes, reached);
      var row := planes[item.plane][item.y];
      var (first, next) := CodeItem(l, item, row, st).value;
      var (more, last) := CodeItems(l, items[1..], planes, next).value;
      CarriesBoth(s, pos, first, more);
      ItemReadsBack(l, item, row, st, s, pos, first, next);
      AgreedNext(planes, got, reached, item.plane, item.y);
      ItemsReadBack(l, items[1..], planes, next, reached[item.plane := item.y + 1], s, pos + |first|,
                    got[item.plane := got[item.plane] + [row]], more, last);
    }
  }
}
