// What coding starts from: an encoder's stream, a slice's contexts, a coder's registers.

module CodingStart {
  import opened Basics
  import opened Bits
  import opened RangeInterval
  import opened RangeSymbols
  import opened RangeContexts
  import opened RangeScript
  import opened StateTransition
  import opened GolombRice
  import opened GolombRun
  import opened SampleModel
  import opened StreamModel
  import SliceRaster
  import opened SliceSchedule
  import opened GolombSlice
  import opened GolombContent
  import opened SliceHeader
  import opened SliceLayouts
  import opened RangeSliceCodec
  import opened Configuration
  import opened EncoderProfile
  import opened SymbolLayout
  import opened DecisionShares
  import opened Prediction

  /** A range coder begins with two bytes and 255/256 of their range, from zero; the decoder with the
      first two bytes of the payload. */
  lemma CoderStarts(c: Contexts, t: Table, payload: seq<byte>)
    requires 2 <= |payload|
    ensures FreshEncoder(c, t) == Encoder(Interval(0, 0xff00, 2), c, [], t)
    ensures var d := FreshDecoder(payload, c, t);
            && d.payload == payload && d.contexts == c && d.saved == [] && d.table == t
            && d.cursor.range == 0xff00 && d.cursor.low == Min(256 * payload[0] as int + payload[1] as int, 0xff00)
            && d.cursor.position == 2 && (d.cursor.end <==> |payload| == 2 || 0xff00 <= 256 * payload[0] as int + payload[1] as int)
  {
  }

  /** The sentinel is a zero in a state of 129 that does not adapt. */
  lemma SentinelStands(e: Encoder, one: nat)
    requires Sound(e.interval) && 256 * one <= e.interval.range * 129 < 256 * one + 256
    ensures var w := Write(e, Operation(SentinelRequest, 0));
            && w.Ok? && w.value == e.(interval := w.value.interval)
            && IsRenormalised(e.interval.low, e.interval.range - one, e.interval.count, w.value.interval)
  {
    SharesStand(e.interval, 129, one);
  }

  /** Contexts without initial states of their own are all 128. */
  lemma {:induction false} UniformStates(counts: seq<nat>, n: nat, i: nat, j: nat)
    requires n <= |counts| && i < |Concat(counts, [], DEFAULT_STATE, n)| && j < 32
    ensures Concat(counts, [], DEFAULT_STATE, n)[i][j] == 128
    decreases n
  {
    if i < |Concat(counts, [], DEFAULT_STATE, n - 1)| {
      UniformStates(counts, n - 1, i, j);
    }
  }

  lemma FreshContexts(counts: seq<nat>)
    requires Build(counts, [], DEFAULT_STATE).Ok?
    ensures forall i, j :: 0 <= i < |Build(counts, [], DEFAULT_STATE).value.states| && 0 <= j < 32 ==>
              Build(counts, [], DEFAULT_STATE).value.states[i][j] == 128
  {
    forall i, j | 0 <= i < |Concat(counts, [], DEFAULT_STATE, |counts|)| && 0 <= j < 32
      ensures Concat(counts, [], DEFAULT_STATE, |counts|)[i][j] == 128
    {
      UniformStates(counts, |counts|, i, j);
    }
  }

  /** Context k of bank b stands after all contexts of the banks before it. */
  lemma ContextStands(c: Contexts, bank: nat, context: nat)
    requires WellFormed(c) && bank < |c.sizes| && context < c.sizes[bank]
    ensures Locate(c, bank, context) == Ok(Sum(c.sizes[..bank]) + context)
  {
  }

  /** A slice in Golomb-Rice mode starts with nothing above, no run, and the contexts that were kept, or
      fresh ones: no drift, an error sum of four, no bias, one value. */
  lemma GolombStarts(l: Layout, banks: seq<seq<ContextState>>, runs: seq<RunState>)
    requires IsLayout(l) && Prepared(l, banks, runs).Ok?
    ensures var st := Prepared(l, banks, runs).value;
            && |st.lines| == |st.runs| == |l.widths| && |st.banks| == |l.tables|
            && (forall p :: 0 <= p < |l.widths| ==> st.runs[p] == RunState(0, 0) && st.lines[p] == RowsAbove([], l.widths[p], 0))
            && (if banks == [] && runs == [] then
                  forall b, k :: 0 <= b < |st.banks| && 0 <= k < |st.banks[b]| ==> st.banks[b][k] == ContextState(0, 4, 0, 1)
                else st.banks == banks)
            && forall b :: 0 <= b < |st.banks| ==> |st.banks[b]| == l.tables[b].contextCount
  {
    forall p | 0 <= p < |l.widths|
      ensures FreshLines(l)[p] == RowsAbove([], l.widths[p], 0)
    {
      assert BorderRow(l.widths[p]) == seq(l.widths[p], _ => 0);
    }
  }

  /** The contexts of a slice in range mode: for each slot as many as the chosen table set has, from what
      the slice before left, or from the stream's initial states for that set. */
  lemma SliceStarts(s: StreamParameters, v: HeaderValues, saved: seq<seq<ScalarStates>>, k: nat)
    requires IsSupported(s) && SliceLayouts.IsPlaced(s, v) && k < |v.indexes| && StartBanks(s, v, saved).Ok?
    ensures v.indexes[k] < |s.quantTableSets| && |Counts(s, v)| == |TablesOf(s, v)| == |v.indexes|
    ensures TablesOf(s, v)[k] == s.quantTableSets[v.indexes[k]] && Counts(s, v)[k] == s.quantTableSets[v.indexes[k]].contextCount
    ensures StartBanks(s, v, saved).value == saved || saved == []
    ensures saved == [] ==>
              && k < |StartBanks(s, v, saved).value| && (s.initialStates == [] || v.indexes[k] < |s.initialStates|)
              && StartBanks(s, v, saved).value[k] == (if s.initialStates == [] then [] else s.initialStates[v.indexes[k]])
  {
    assert v.indexes[k] in v.indexes;
  }

  /** Which pictures an encoder can be configured for, and the stream it then codes. */
  lemma ProfileAccepts(o: EncoderOptions, i: StreamInfo)
    ensures NormalizeEncoderProfile(o, i).Ok? <==>
              && 0 < i.width && 0 < i.height && o.version == 3 && i.version == 3
              && 1 <= i.bitsPerRawSample <= 16 && i.colorSpace <= 1
              && (i.colorSpace == 1 ==> i.hasChromaPlanes)
              && (i.colorSpace == 1 || !i.hasChromaPlanes ==> i.log2HChromaSubsample == 0 && i.log2VChromaSubsample == 0)
              && i.log2VChromaSubsample <= i.log2HChromaSubsample <= 1
              && 0 < i.numHSlices && 0 < i.numVSlices
              && (352 * 288 < i.width * i.height ==> 4 <= i.numHSlices * i.numVSlices)
              && forall p :: 0 <= p < CodedPlaneCount(StreamOf(o, i)) ==>
                   i.numHSlices <= PlaneWidth(StreamOf(o, i), p) && i.numVSlices <= PlaneHeight(StreamOf(o, i), p)
    ensures NormalizeEncoderProfile(o, i).Ok? ==>
              var s := NormalizeEncoderProfile(o, i).value;
              && s.version == 3 && s.microVersion == 4 && s.entropyMode == o.entropyMode && s.width == i.width && s.height == i.height
              && s.bitsPerRawSample == i.bitsPerRawSample && s.colorspaceType == i.colorSpace
              && s.chromaPlanes == i.hasChromaPlanes && s.extraPlane == i.hasExtraPlane
              && s.log2HChromaSubsample == i.log2HChromaSubsample && s.log2VChromaSubsample == i.log2VChromaSubsample
              && s.numHSlices == i.numHSlices && s.numVSlices == i.numVSlices && s.errorStatusEnabled == i.errorStatusEnabled
              && (s.intraOnly <==> o.keyframeInterval == 1) && s.stateTransition == DefaultTransition() && s.initialStates == []
              && |s.quantTableSets| == 1 && s.quantTableSets[0].contextCount == 1
  {
    hide DefaultTransition, ZeroTableSet, PlaneWidth, PlaneHeight;
  }

  /** Bit i of a byte string stands for 2^(7 - i % 8) in byte i / 8. */
  lemma BitStands(bytes: seq<byte>, i: nat)
    requires i < 8 * |bytes|
    ensures BitsOf(bytes)[i] == (bytes[i / 8] as int / Pow2(7 - i % 8) % 2 == 1)
  {
    BitOfByte(bytes, i);
    ShiftIsDivision(bytes[i / 8], 7 - i % 8);
  }
}
