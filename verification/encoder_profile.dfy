// How an encoder turns the description of a picture into the parameters of a stream.

module EncoderProfile {
  import opened Basics
  import opened RangeSymbols
  import opened RangeContexts
  import opened StateTransition
  import opened SampleModel
  import opened StreamModel
  import opened QuantTables
  import opened Configuration
  import opened ConfigurationRoundTrip
  import opened SliceRaster
  import opened SliceCoverage
  import opened SliceHeader
  import opened SliceLayouts
  import opened GolombContent
  import opened CodableSlice
  import opened SliceCodec
  import opened FrameCodec

  type uint32 = n: nat | n <= UINT32_MAX

  datatype StreamInfo = StreamInfo(
    width: uint32,
    height: uint32,
    version: nat,
    bitsPerRawSample: nat,
    log2HChromaSubsample: nat,
    log2VChromaSubsample: nat,
    hasChromaPlanes: bool,
    hasExtraPlane: bool,
    colorSpace: nat,
    numHSlices: uint32,
    numVSlices: uint32,
    errorStatusEnabled: bool)

  datatype EncoderOptions = EncoderOptions(threadCount: int, version: nat, entropyMode: EntropyMode, keyframeInterval: nat)

  /** One context, whatever the neighbours. */
  function ZeroTableSet(): (t: QuantTableSet)
    ensures IsTableSet(t) && t.contextCount == 1
    ensures forall i, j :: 0 <= i < CONTEXT_INPUTS && 0 <= j < TABLE_ENTRIES ==> t.tables[i][j] == 0
  {
    QuantTableSet(seq(CONTEXT_INPUTS, _ => seq(TABLE_ENTRIES, _ => 0)), 1)
  }

  function StreamOf(o: EncoderOptions, i: StreamInfo): StreamParameters {
    StreamParameters(3, 4, o.entropyMode, i.width, i.height, i.bitsPerRawSample, i.colorSpace, i.hasChromaPlanes, i.hasExtraPlane,
                     i.log2HChromaSubsample, i.log2VChromaSubsample, i.numHSlices, i.numVSlices, [ZeroTableSet()], [],
                     DefaultTransition(), i.errorStatusEnabled, o.keyframeInterval == 1)
  }

  predicate HasEmptyRegion(s: StreamParameters) {
    exists p :: 0 <= p < CodedPlaneCount(s) && (PlaneWidth(s, p) < s.numHSlices || PlaneHeight(s, p) < s.numVSlices)
  }

  /** The stream an encoder codes, or why it does not. */
  function NormalizeEncoderProfile(o: EncoderOptions, i: StreamInfo): Result<StreamParameters> {
    if i.width == 0 || i.height == 0 then Err(InvalidArgument)
    else if o.version != i.version then Err(InvalidArgument)
    else if o.version != 3 then Err(UnsupportedFeature)
    else if i.bitsPerRawSample < 1 || 16 < i.bitsPerRawSample then Err(UnsupportedFeature)
    else if 1 < i.colorSpace then Err(UnsupportedFeature)
    else if HasInvalidRgbGeometry(i.colorSpace == 1, i.hasChromaPlanes, i.log2HChromaSubsample, i.log2VChromaSubsample) then
      Err(InvalidArgument)
    else if !i.hasChromaPlanes && (i.log2HChromaSubsample != 0 || i.log2VChromaSubsample != 0) then Err(InvalidArgument)
    else if !IsSupportedSubsampling(i.log2HChromaSubsample, i.log2VChromaSubsample) then Err(UnsupportedFeature)
    else if i.numHSlices == 0 || i.numVSlices == 0 then Err(InvalidArgument)
    else if LimitsArea(3, i.width, i.height) && i.numHSlices * i.numVSlices < 4 then Err(InvalidArgument)
    else if HasEmptyRegion(StreamOf(o, i)) then Err(InvalidArgument)
    else Ok(StreamOf(o, i))
  }

  lemma ZeroFolded(n: Neighbors)
    ensures DeriveContext(ZeroTableSet(), n) == Ok(Context(0, false))
  {
    hide ZeroTableSet;
    var t, g := ZeroTableSet(), Gradients(n);
    assert Folded(t, g, 1) == 0 && Folded(t, g, 2) == 0 && Folded(t, g, 3) == 0 && Folded(t, g, 4) == 0;
  }

  lemma ZeroCovers()
    ensures Covers(ZeroTableSet())
  {
    hide ZeroTableSet, DeriveContext;
    forall n: Neighbors
      ensures DeriveContext(ZeroTableSet(), n).Ok?
    {
      ZeroFolded(n);
    }
  }

  lemma ZeroTable(i: nat)
    requires i < CONTEXT_INPUTS
    ensures Runs(HalfOf(ZeroTableSet(), i), 1, 0, 0) == Ok([HALF_ENTRIES])
    ensures ZeroTableSet().tables[i] == Mirror(HalfOf(ZeroTableSet(), i))
  {
    hide ZeroTableSet;
    var half := HalfOf(ZeroTableSet(), i);
    RunLengthIs(half, 0, HALF_ENTRIES, 0);
    assert Runs(half, 1, HALF_ENTRIES, 1) == Ok([]);
    assert [HALF_ENTRIES] + [] == [HALF_ENTRIES];
  }

  lemma {:induction false} ZeroSetCodes(i: nat)
    requires i <= CONTEXT_INPUTS
    ensures SetOps(ZeroTableSet(), i, 1).Ok?
    decreases CONTEXT_INPUTS - i
  {
    hide ZeroTableSet, Runs, Mirror, TableOps;
    if i < CONTEXT_INPUTS {
      ZeroTable(i);
      ZeroSetCodes(i + 1);
    }
  }

  /** A stream some encoder of these options may be configured with. */
  ghost predicate IsProfileOf(o: EncoderOptions, s: StreamParameters) {
    exists i: StreamInfo :: NormalizeEncoderProfile(o, i) == Ok(s)
  }

  /** The slice coders take every stream the profile lets through, every cell of its grid has samples
      in every plane, and its frames pass the validator as long as their slices can be counted in
      32 bits. */
  lemma ProfileGuarantees(o: EncoderOptions, s: StreamParameters)
    requires IsProfileOf(o, s)
    ensures IsPlain(s) && (s.intraOnly <==> o.keyframeInterval == 1)
    ensures SliceCount(s) <= UINT32_MAX ==> IsProfiled(s)
    ensures 0 < s.width && 0 < s.height && !HasEmptyRegion(s)
  {
    hide DefaultTransition, ZeroTableSet, Covers, LimitsArea, HasEmptyRegion;
    ZeroCovers();
    assert s.quantTableSets == [ZeroTableSet()];
  }

  lemma CellsCodable(o: EncoderOptions, s: StreamParameters, i: nat)
    requires IsProfileOf(o, s) && 0 < s.numHSlices && i < SliceCount(s)
    ensures IsSupported(s) && IsPlaced(s, CellHeader(s, i)) && IsWritable(CellHeader(s, i))
    ensures SliceLayout(s, CellHeader(s, i)).Ok?
  {
    hide DefaultTransition, ZeroTableSet, Covers, LimitsArea, SliceLayout, PlaneWidth, PlaneHeight;
    ProfileGuarantees(o, s);
    CellPlace(s, i);
    assert s.quantTableSets == [ZeroTableSet()];
    CellsHaveSamples(s, CellHeader(s, i));
  }

  /** And the configuration record of such a stream can always be written and parsed. */
  lemma RecordCodable(o: EncoderOptions, s: StreamParameters)
    requires IsProfileOf(o, s)
    ensures IsStoredStream(s) && (forall t <- s.quantTableSets :: IsTableSet(t))
    ensures ParameterOps(s).Ok? && IsParsable(s.quantTableSets, 0)
  {
    hide DefaultTransition, ZeroTableSet, SetOps, LimitsArea, HasEmptyRegion, HeadOps, FormatOps, GridOps, StatesOps, EndingOps;
    ZeroSetCodes(0);
    assert s.quantTableSets == [ZeroTableSet()];
    assert SetsOps(s.quantTableSets, 1) == Ok([]);
    assert ProfileError(s).None?;
  }
}
