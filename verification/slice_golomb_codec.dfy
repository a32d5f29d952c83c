// Whole slices in Golomb-Rice mode: a range-coded description, then the content bytes.

module GolombSliceCodec {
  import opened Basics
  import opened Bits
  import opened RangeInterval
  import opened RangeSymbols
  import opened RangeContexts
  import opened RangeScript
  import opened GolombRice
  import opened GolombRun
  import opened SampleModel
  import opened GolombLine
  import opened StreamModel
  import opened SliceSchedule
  import opened GolombSlice
  import opened GolombContent
  import opened SliceHeader
  import opened SliceLayouts
  import opened RangeSliceCodec

  /** Adaptive contexts and run states a slice leaves to its successor; empty before the first. */
  datatype GolombSaved = GolombSaved(banks: seq<seq<ContextState>>, runs: seq<RunState>)

  const NOTHING_SAVED := GolombSaved([], [])

  function Kept(st: GolombState): GolombSaved {
    GolombSaved(st.banks, st.runs)
  }

  /** A coded slice without its footer. */
  datatype GolombCoded = GolombCoded(header: Encoder, description: seq<byte>, content: seq<byte>, final: GolombState)

  function PayloadOf(c: GolombCoded): seq<byte> {
    c.description + c.content
  }

  /** The finalized description, and the content aligned to bytes. */
  ghost predicate IsGolombCoded(s: StreamParameters, v: HeaderValues, first: bool, keyframe: bool, image: Planes,
                                saved: GolombSaved, c: GolombCoded)
  {
    && IsSupported(s) && IsPlaced(s, v) && s.entropyMode == GolombRiceMode
    && DescriptionOps(s, v, first, keyframe).Ok?
    && WriteAll(SliceStart(s), DescriptionOps(s, v, first, keyframe).value) == Ok(c.header)
    && |c.description| == c.header.interval.count && Prefix(c.description, |c.description|) == c.header.interval.low
    && SliceLayout(s, v).Ok?
    && IsLayout(SliceLayout(s, v).value)
    && var l := SliceLayout(s, v).value;
    && IsImage(l, image)
    && Prepared(l, saved.banks, saved.runs).Ok?
    && IsGolombState(l, Prepared(l, saved.banks, saved.runs).value)
    && HoldsContent(l, image, Prepared(l, saved.banks, saved.runs).value, c)
  }

  ghost predicate HoldsContent(l: Layout, image: Planes, start: GolombState, c: GolombCoded)
    requires IsLayout(l) && IsImage(l, image) && IsGolombState(l, start)
  {
    match CodeContent(l, image, start)
    case Err(_) => false
    case Ok((bits, final)) => BitsOf(c.content) == bits + Zeros(Padding(|bits|)) && final == c.final
  }

  /** The frame parser takes the content to begin where the header reader's registers say. */
  function DescribeGolomb(s: StreamParameters, bytes: seq<byte>, first: bool): Result<Description> {
    var (description, d) :- Describe(s, bytes, first);
    Ok(description.(position := ContentBytePosition(d.cursor)))
  }

  /** The content from a given boundary to the footer. */
  ghost function DecodeFrom(s: StreamParameters, payload: seq<byte>, v: HeaderValues, boundary: nat, tolerant: bool, saved: GolombSaved)
    : Result<(Planes, GolombSaved)>
    requires IsSupported(s) && IsPlaced(s, v)
  {
    if |payload| <= boundary then Err(SyntaxError)
    else
      var l :- SliceLayout(s, v);
      SliceLayoutFits(s, v);
      var start :- Prepared(l, saved.banks, saved.runs);
      PreparedFits(l, saved.banks, saved.runs);
      var (image, final) :- DecodeContent(l, payload[boundary..], start, tolerant);
      Ok((image, Kept(final)))
  }

  /** Whether header and content may share a byte. */
  predicate CanReadAhead(payload: seq<byte>, position: nat) {
    0 < position <= |payload|
  }

  /** Whether the shared byte is tried first. */
  predicate PrefersReadAhead(s: StreamParameters) {
    3 <= s.version && s.entropyMode == GolombRiceMode && s.extraPlane && (1 < s.numHSlices || 1 < s.numVSlices)
  }

  /** Of two attempts the first that succeeds, or the first error. */
  function EitherOf<T>(first: Result<T>, second: Result<T>): Result<T> {
    if first.Err? && second.Ok? then second else first
  }

  /** The content from where the header ends, or from one byte earlier, whichever is tried first
      and succeeds. */
  ghost function DecodeGolombSlice(s: StreamParameters, payload: seq<byte>, description: Description, saved: GolombSaved)
    : Result<(Planes, GolombSaved)>
    requires IsSupported(s) && IsPlaced(s, description.header)
  {
    var (v, position) := (description.header, description.position);
    if !CanReadAhead(payload, position) then DecodeFrom(s, payload, v, position, false, saved)
    else
      var primary := DecodeFrom(s, payload, v, position, true, saved);
      var early := DecodeFrom(s, payload, v, position - 1, true, saved);
      if PrefersReadAhead(s) then EitherOf(early, primary) else EitherOf(primary, early)
  }

  /** The width of the differences of a stream's slices. */
  function CodedBits(s: StreamParameters): nat {
    if s.colorspaceType == 1 then s.bitsPerRawSample + 1 else s.bitsPerRawSample
  }

  /** What may be kept for a slice: contexts adapted to the coded width. */
  ghost predicate IsKept(s: StreamParameters, saved: GolombSaved)
    requires 0 < CodedBits(s)
  {
    forall b :: 0 <= b < |saved.banks| ==> AllAdapted(saved.banks[b], CodedBits(s))
  }

  lemma CodeNonEmpty(k: nat, w: nat, folded: nat)
    ensures Code(k, w, folded).Ok? ==> Code(k, w, folded).value != []
  {
    hide Zeros, FixedBits;
  }

  lemma SymbolNonEmpty(c: ContextState, w: nat, value: int)
    ensures Symbol(c, w, value).Ok? ==> Symbol(c, w, value).value.0 != []
  {
    hide Code, SearchK, LowBits;
    if Symbol(c, w, value).Ok? {
      var adaptive := SignExtend(value - c.bias, w);
      CodeNonEmpty(DeriveK(c).value, w, Fold(if Flips(c) then -1 - adaptive else adaptive));
    }
  }

  /** A row of samples is never coded as nothing. */
  lemma RowNonEmpty(q: RowSetting, row: seq<int>, st: RowState)
    requires IsSetting(q) && |row| == Width(q) && IsState(q, st)
    ensures CodeRow(q, row, 0, st).Ok? ==> CodeRow(q, row, 0, st).value.bits != []
  {
    hide RunEnd, Symbol, Sent, NeighborsAt, Folded, Log2Run, FixedBits;
    if CodeRow(q, row, 0, st).Ok? {
      var c := ContextAt(q, row, 0).value;
      if c.index == 0 {
        assert RunCode(st.run, 0, Width(q), RunEnd(q, row, 0) - 0).value.0 != [];
      } else {
        SymbolNonEmpty(st.bank[c.index], q.bits, Sent(row[0], PredictionAt(q, row, 0), q.bits, c.inverted));
      }
    }
  }

  lemma ItemsNonEmpty(l: Layout, items: seq<Item>, planes: Planes, st: GolombState)
    requires IsLayout(l) && AreItems(l, items) && Shaped(l, planes) && IsGolombState(l, st) && items != []
    requires CodeItems(l, items, planes, st).Ok?
    ensures CodeItems(l, items, planes, st).value.0 != []
  {
    hide CodeRow, IsTableSet;
    var item := items[0];
    RowNonEmpty(Setting(l, st, item), planes[item.plane][item.y], RowState(st.banks[item.slot], st.runs[item.run].index));
  }

  /** A slice with at least one row has content. */
  lemma ContentNonEmpty(l: Layout, image: Planes, start: GolombState)
    requires IsLayout(l) && Shaped(l, image) && IsGolombState(l, start) && 0 < l.heights[0]
    requires CodeContent(l, image, start).Ok?
    ensures CodeContent(l, image, start).value.0 != []
  {
    hide CodeItems, Transformed, Ordered, IsTableSet;
    ScheduleOrdered(l);
    OrderedAreItems(l, Schedule(l), Nothing(l));
    TransformedShaped(l, image);
    assert Schedule(l) != [];
    ItemsNonEmpty(l, Schedule(l), Transformed(l, image), start);
  }

  lemma LayoutRows(s: StreamParameters, v: HeaderValues)
    requires IsPlaced(s, v) && SliceLayout(s, v).Ok?
    ensures SliceLayout(s, v).value == LayoutOf(s, v) && 0 < LayoutOf(s, v).heights[0]
  {
  }

  /** The boundary between description and content is found exactly, whatever follows. */
  lemma BoundaryFound(s: StreamParameters, v: HeaderValues, first: bool, keyframe: bool, header: Encoder,
                      description: seq<byte>, after: seq<byte>)
    requires IsSized(s) && IsTyped(v) && (s.intraOnly ==> keyframe) && DescriptionOps(s, v, first, keyframe).Ok?
    requires WriteAll(SliceStart(s), DescriptionOps(s, v, first, keyframe).value) == Ok(header)
    requires |description| == header.interval.count && Prefix(description, |description|) == header.interval.low
    ensures DescribeGolomb(s, description + after, first) == Ok(Description(first && keyframe, v, |description|))
  {
    hide Describe, DescriptionOps, WriteAll, Matches;
    SliceStartSound(s);
    WriteAllKeepsSound(SliceStart(s), DescriptionOps(s, v, first, keyframe).value);
    FinalizedAdmits(header, description, after);
    var d := Described(s, v, first, keyframe, header, description + after);
    HeaderBoundary(d, description, after, header);
  }

  lemma HeldContent(l: Layout, image: Planes, start: GolombState, c: GolombCoded)
    requires IsLayout(l) && l.mode == GolombRiceMode && IsImage(l, image) && IsAdapted(l, start) && 0 < l.heights[0]
    requires HoldsContent(l, image, start, c)
    ensures c.content != [] && IsAdapted(l, c.final)
    ensures DecodeContent(l, c.content, start, true) == Ok((image, c.final))
  {
    hide CodeContent, DecodeContent, BitsOf;
    var (bits, final) := CodeContent(l, image, start).value;
    ContentNonEmpty(l, image, start);
    assert |BitsOf(c.content)| == 8 * |c.content|;
    ContentReadsBack(l, image, start, bits, final, c.content, true);
  }

  lemma LayoutBits(s: StreamParameters, v: HeaderValues)
    requires IsSupported(s) && IsPlaced(s, v)
    ensures 0 < CodedBits(s) == DifferenceBits(LayoutOf(s, v))
  {
    hide RasterStatus;
  }

  lemma DescriptionNonEmpty(s: StreamParameters, v: HeaderValues, first: bool, keyframe: bool, image: Planes,
                            saved: GolombSaved, c: GolombCoded)
    requires IsGolombCoded(s, v, first, keyframe, image, saved, c)
    ensures 2 <= |c.description|
  {
    hide DescriptionOps, WriteAll, CodeContent, IsImage, IsSupported, IsPlaced;
    SliceStartSound(s);
    WriteAllKeepsSound(SliceStart(s), DescriptionOps(s, v, first, keyframe).value);
  }

  /** What the decoder makes of a slice from one byte before its content. */
  ghost function ReadAhead(s: StreamParameters, v: HeaderValues, payload: seq<byte>, position: nat, saved: GolombSaved)
    : Result<(Planes, GolombSaved)>
  {
    if PrefersReadAhead(s) && 0 < position && IsSupported(s) && IsPlaced(s, v)
    then DecodeFrom(s, payload, v, position - 1, true, saved)
    else Err(SyntaxError)
  }

  /** The decoder restores every sample of a Golomb-Rice slice and ends with the encoder's adaptive
      states, unless it prefers to read the content from one byte earlier and succeeds with that. */
  lemma GolombSliceDecodes(s: StreamParameters, v: HeaderValues, first: bool, keyframe: bool, image: Planes,
                           saved: GolombSaved, c: GolombCoded, tail: seq<byte>)
    requires IsGolombCoded(s, v, first, keyframe, image, saved, c)
    requires IsTyped(v) && (s.intraOnly ==> keyframe) && 0 < CodedBits(s) && IsKept(s, saved)
    ensures var description := Description(first && keyframe, v, |c.description|);
            && DescribeGolomb(s, PayloadOf(c) + tail, first) == Ok(description)
            && DecodeGolombSlice(s, PayloadOf(c), description, saved) ==
               EitherOf(ReadAhead(s, v, PayloadOf(c), |c.description|, saved), Ok((image, Kept(c.final))))
    ensures IsKept(s, Kept(c.final))
  {
    hide CodedBits, DescribeGolomb, DescriptionOps, WriteAll, DecodeContent, SliceLayout, IsSupported, IsPlaced, BitsOf, Prepared, HoldsContent,
         LayoutOf, IsImage, IsGolombState, AllAdapted, IsTableSet;
    SupportedSized(s);
    AppendAssoc(c.description, c.content, tail);
    BoundaryFound(s, v, first, keyframe, c.header, c.description, c.content + tail);
    LayoutRows(s, v);
    SliceLayoutFits(s, v);
    var l := SliceLayout(s, v).value;
    LayoutBits(s, v);
    PreparedAdapted(l, saved.banks, saved.runs);
    HeldContent(l, image, Prepared(l, saved.banks, saved.runs).value, c);
    assert PayloadOf(c)[|c.description|..] == c.content;
    DescriptionNonEmpty(s, v, first, keyframe, image, saved, c);
  }
}
