// The parameters of a stream as symbols: what the record writer writes and what the parser reads.

module Configuration {
  import opened Basics
  import opened RangeInterval
  import opened RangeSymbols
  import opened RangeContexts
  import opened RangeScript
  import opened RangeNumbers
  import opened StateTransition
  import opened SampleModel
  import opened StreamModel
  import opened QuantTables

  const UINT32_LIMIT: nat := 0xffff_ffff
  const INT32_MAXIMUM: nat := 0x7fff_ffff

  const NO_STATES: InitialStateSet := []

  predicate HasInvalidRgbGeometry(rgb: bool, chroma: bool, log2H: nat, log2V: nat) {
    rgb && (!chroma || log2H != 0 || log2V != 0)
  }

  /** Chroma is coded in full, half width, or half width and height. */
  predicate IsSupportedSubsampling(log2H: nat, log2V: nat) {
    log2H <= 1 && log2V <= 1 && log2V <= log2H
  }

  /** Why the writer refuses a stream before it writes anything. */
  function ProfileError(s: StreamParameters): Option<ErrorCode> {
    if s.version != 3 || s.microVersion != 4 then Some(UnsupportedFeature)
    else if 1 < s.colorspaceType || s.bitsPerRawSample < 1 || 16 < s.bitsPerRawSample then Some(UnsupportedFeature)
    else if HasInvalidRgbGeometry(s.colorspaceType == 1, s.chromaPlanes, s.log2HChromaSubsample, s.log2VChromaSubsample) then
      Some(InvalidArgument)
    else if !s.chromaPlanes && (s.log2HChromaSubsample != 0 || s.log2VChromaSubsample != 0) then Some(InvalidArgument)
    else if !IsSupportedSubsampling(s.log2HChromaSubsample, s.log2VChromaSubsample) then Some(UnsupportedFeature)
    else if s.numHSlices == 0 || s.numVSlices == 0 then Some(InvalidArgument)
    else if s.quantTableSets == [] || 8 < |s.quantTableSets| then Some(InvalidArgument)
    else if exists t <- s.quantTableSets :: t.contextCount == 0 then Some(InvalidState)
    else if s.initialStates != [] && |s.initialStates| != |s.quantTableSets| then Some(InvalidState)
    else if exists i :: 0 <= i < |s.initialStates| && !StatesFit(s, i) then Some(InvalidState)
    else None
  }

  predicate StatesFit(s: StreamParameters, i: nat) {
    i < |s.initialStates| && i < |s.quantTableSets|
    && (s.initialStates[i] == [] || |s.initialStates[i]| == s.quantTableSets[i].contextCount)
  }

  predicate HasCustomTransition(s: StreamParameters) {
    s.entropyMode == RangeMode && s.stateTransition != DefaultTransition()
  }

  function CoderType(s: StreamParameters): nat {
    if s.entropyMode == GolombRiceMode then 0 else if HasCustomTransition(s) then 2 else 1
  }

  function Delta(table: Table, i: nat): int
    requires i < 256
  {
    table[i] as int - DefaultTransition()[i]
  }

  /** Transitions as differences from the default ones, from entry i on. */
  function TransitionOps(table: Table, i: nat): seq<Operation>
    requires i <= 256
    decreases 256 - i
  {
    if i == 256 then [] else [SignedNumber(0, Delta(table, i))] + TransitionOps(table, i + 1)
  }

  function HeadOps(s: StreamParameters): seq<Operation> {
    [Number(3)] + ([Number(4)] + ([Number(CoderType(s))] + if HasCustomTransition(s) then TransitionOps(s.stateTransition, 1) else []))
  }

  function FormatOps(s: StreamParameters): seq<Operation> {
    [Number(s.colorspaceType)] + ([Number(s.bitsPerRawSample)] + ([Flag(s.chromaPlanes)] +
      ([Number(s.log2HChromaSubsample)] + ([Number(s.log2VChromaSubsample)] + [Flag(s.extraPlane)]))))
  }

  function GridOps(s: StreamParameters): seq<Operation>
    requires 0 < s.numHSlices && 0 < s.numVSlices
  {
    [Number(s.numHSlices - 1)] + ([Number(s.numVSlices - 1)] + [Number(|s.quantTableSets|)])
  }

  /** The table sets from the i-th one on. */
  function SetsOps(sets: seq<QuantTableSet>, i: nat): Result<seq<Operation>>
    requires i <= |sets| && forall t <- sets :: IsTableSet(t)
    decreases |sets| - i
  {
    if i == |sets| then Ok([])
    else
      assert sets[i] in sets;
      var first :- SetOps(sets[i], 0, 1);
      Then(first, SetsOps(sets, i + 1))
  }

  /** The states of one context as differences from the context before it, from state j on. */
  function ContextOps(current: ScalarStates, prediction: ScalarStates, j: nat): seq<Operation>
    requires j <= 32
    decreases 32 - j
  {
    if j == 32 then [] else [SignedNumber(j, current[j] as int - prediction[j])] + ContextOps(current, prediction, j + 1)
  }

  /** The first context of a set is predicted by the uniform state. */
  function FirstPrediction(): (states: ScalarStates)
    ensures forall j :: 0 <= j < 32 ==> states[j] == 128
  {
    seq(32, _ => 128)
  }

  function PredictionFor(contexts: InitialStateSet, c: nat): ScalarStates
    requires c <= |contexts|
  {
    if c == 0 then FirstPrediction() else contexts[c - 1]
  }

  function ContextsOps(contexts: InitialStateSet, c: nat): seq<Operation>
    requires c <= |contexts|
    decreases |contexts| - c
  {
    if c == |contexts| then []
    else ContextOps(contexts[c], PredictionFor(contexts, c), 0) + ContextsOps(contexts, c + 1)
  }

  function StateSetOps(contexts: InitialStateSet): seq<Operation> {
    [Flag(contexts != [])] + ContextsOps(contexts, 0)
  }

  /** Without coded states, every set says so. */
  function CodedStates(s: StreamParameters): (r: seq<InitialStateSet>)
    ensures s.initialStates != [] ==> r == s.initialStates
    ensures s.initialStates == [] ==> |r| == |s.quantTableSets| && forall i :: 0 <= i < |r| ==> r[i] == NO_STATES
  {
    if s.initialStates == [] then seq(|s.quantTableSets|, _ => NO_STATES) else s.initialStates
  }

  function StatesOps(states: seq<InitialStateSet>, i: nat): seq<Operation>
    requires i <= |states|
    decreases |states| - i
  {
    if i == |states| then [] else StateSetOps(states[i]) + StatesOps(states, i + 1)
  }

  function EndingOps(s: StreamParameters): seq<Operation> {
    [Number(if s.errorStatusEnabled then 1 else 0)] + [Number(if s.intraOnly then 1 else 0)]
  }

  function ParameterOps(s: StreamParameters): Result<seq<Operation>>
    requires forall t <- s.quantTableSets :: IsTableSet(t)
  {
    if ProfileError(s).Some? then Err(ProfileError(s).value)
    else
      var sets :- SetsOps(s.quantTableSets, 0);
      Ok(HeadOps(s) + (FormatOps(s) + (GridOps(s) + (sets + (StatesOps(CodedStates(s), 0) + EndingOps(s))))))
  }

  /** What the first symbols tell. */
  datatype Head = Head(version: nat, microVersion: nat, mode: EntropyMode, table: Table)

  function ParseTransitions(d: Decoder, table: Table, i: nat): Result<(Table, Decoder)>
    requires i <= 256
    decreases 256 - i
  {
    if i == 256 then Ok((table, d))
    else
      var (delta, d') :- RangeScript.ReadSymbol(d, 0, 0, true);
      var transition := table[i] as int + delta;
      if transition < 0 || 255 < transition then Err(SyntaxError)
      else ParseTransitions(d', table[i := transition], i + 1)
  }

  /** Version and micro-version; only stable version 3 streams have the latter. */
  function ParseVersion(d: Decoder): Result<(nat, nat, Decoder)> {
    var (version, d1) :- ReadUnsigned(d);
    if version != 0 && version != 1 && version != 3 then Err(UnsupportedFeature)
    else if version < 3 then Ok((version, 0, d1))
    else
      var (micro, d2) :- ReadUnsigned(d1);
      if INT32_MAXIMUM < micro then Err(SyntaxError)
      else if micro < 4 then Err(UnsupportedFeature)
      else Ok((version, micro, d2))
  }

  function ParseHead(d: Decoder): Result<(Head, Decoder)> {
    var (version, micro, d1) :- ParseVersion(d);
    var (coder, d2) :- ReadUnsigned(d1);
    if coder == 0 then Ok((Head(version, micro, GolombRiceMode, DefaultTransition()), d2))
    else if coder == 1 then Ok((Head(version, micro, RangeMode, DefaultTransition()), d2))
    else if coder == 2 then
      var (table, d3) :- ParseTransitions(d2, DefaultTransition(), 1);
      Ok((Head(version, micro, RangeMode, table), d3))
    else Err(UnsupportedFeature)
  }

  /** Sample format and planes. */
  datatype Format = Format(colorspaceType: nat, bits: nat, chroma: bool, log2H: nat, log2V: nat, extra: bool)

  function ParseSamples(d: Decoder, version: nat): Result<(nat, nat, Decoder)> {
    var (colorspaceType, d1) :- ReadUnsigned(d);
    if INT32_MAXIMUM < colorspaceType then Err(SyntaxError)
    else if 1 < colorspaceType then Err(UnsupportedFeature)
    else if version < 1 then Ok((colorspaceType, 8, d1))
    else
      var (bits, d2) :- ReadUnsigned(d1);
      if 16 < bits then Err(UnsupportedFeature)
      else Ok((colorspaceType, if bits == 0 then 8 else bits, d2))
  }

  function ParsePlanes(d: Decoder): Result<(bool, nat, nat, bool, Decoder)> {
    var (chroma, d1) :- ReadBool(d);
    var (log2H, d2) :- ReadUnsigned(d1);
    if 255 < log2H then Err(SyntaxError)
    else
      var (log2V, d3) :- ReadUnsigned(d2);
      if 255 < log2V then Err(SyntaxError)
      else
        var (extra, d4) :- ReadBool(d3);
        Ok((chroma, log2H, log2V, extra, d4))
  }

  function ParseFormat(d: Decoder, version: nat): Result<(Format, Decoder)> {
    var (colorspaceType, bits, d1) :- ParseSamples(d, version);
    var (chroma, log2H, log2V, extra, d2) :- ParsePlanes(d1);
    if HasInvalidRgbGeometry(colorspaceType == 1, chroma, log2H, log2V) then Err(SyntaxError)
    else Ok((Format(colorspaceType, bits, chroma, log2H, log2V, extra), d2))
  }

  /** Slice grid and number of table sets. */
  function ParseGrid(d: Decoder, version: nat): Result<(nat, nat, nat, Decoder)> {
    if version < 3 then Ok((1, 1, 1, d))
    else
      var (h, d1) :- ReadUnsigned(d);
      if UINT32_LIMIT <= h then Err(SyntaxError)
      else
        var (v, d2) :- ReadUnsigned(d1);
        if UINT32_LIMIT <= v then Err(SyntaxError)
        else
          var (count, d3) :- ReadUnsigned(d2);
          if count == 0 || 8 < count then Err(SyntaxError)
          else Ok((h + 1, v + 1, count, d3))
  }

  function ParseSets(d: Decoder, got: seq<QuantTableSet>, count: nat): (r: Result<(seq<QuantTableSet>, Decoder)>)
    requires |got| <= count
    ensures r.Ok? ==> |r.value.0| == count
    decreases count - |got|
  {
    if |got| == count then Ok((got, d))
    else
      var (t, d') :- ParseSet(d, 1, []);
      ParseSets(d', got + [t], count)
  }

  /** One context, state by state; differences count modulo 256. */
  function ParseContext(d: Decoder, prediction: ScalarStates, got: seq<byte>): (r: Result<(ScalarStates, Decoder)>)
    requires |got| <= 32
    decreases 32 - |got|
  {
    if |got| == 32 then Ok((got, d))
    else
      var (delta, d') :- RangeScript.ReadSymbol(d, 0, |got|, true);
      var state: byte := (prediction[|got|] as int + delta) % 256;
      ParseContext(d', prediction, got + [state])
  }

  function ParseContexts(d: Decoder, got: InitialStateSet, count: nat): (r: Result<(InitialStateSet, Decoder)>)
    requires |got| <= count
    decreases count - |got|
  {
    if |got| == count then Ok((got, d))
    else
      var (context, d') :- ParseContext(d, PredictionFor(got, |got|), []);
      ParseContexts(d', got + [context], count)
  }

  function ParseStates(d: Decoder, sets: seq<QuantTableSet>, got: seq<InitialStateSet>): (r: Result<(seq<InitialStateSet>, Decoder)>)
    requires |got| <= |sets|
    decreases |sets| - |got|
  {
    if |got| == |sets| then Ok((got, d))
    else
      var (coded, d1) :- ReadBool(d);
      if !coded then ParseStates(d1, sets, got + [[]])
      else
        var (contexts, d2) :- ParseContexts(d1, [], sets[|got|].contextCount);
        ParseStates(d2, sets, got + [contexts])
  }

  function ParseEnding(d: Decoder): Result<(bool, bool, Decoder)> {
    var (ec, d1) :- ReadUnsigned(d);
    if 1 < ec then Err(UnsupportedFeature)
    else
      var (intra, d2) :- ReadUnsigned(d1);
      if 1 < intra then Err(UnsupportedFeature)
      else Ok((ec == 1, intra == 1, d2))
  }

  /** The tail only version 3 has. */
  function ParseTail(d: Decoder, version: nat, sets: seq<QuantTableSet>): Result<(seq<InitialStateSet>, bool, bool, Decoder)> {
    if version < 3 then Ok(([], false, false, d))
    else
      var (states, d1) :- ParseStates(d, sets, []);
      var (ec, intra, d2) :- ParseEnding(d1);
      Ok((states, ec, intra, d2))
  }

  function ParseParameters(d: Decoder): Result<(StreamParameters, Decoder)> {
    var (head, d1) :- ParseHead(d);
    var (format, d2) :- ParseFormat(d1, head.version);
    var (h, v, count, d3) :- ParseGrid(d2, head.version);
    var (sets, d4) :- ParseSets(d3, [], count);
    var (states, ec, intra, d5) :- ParseTail(d4, head.version, sets);
    Ok((StreamParameters(head.version, head.microVersion, head.mode, 0, 0, format.bits, format.colorspaceType, format.chroma,
                         format.extra, format.log2H, format.log2V, h, v, sets, states, head.table, ec, intra),
        d5))
  }

  /** The table a reader ends with. */
  function ReadTable(s: StreamParameters): Table {
    if s.entropyMode == RangeMode then s.stateTransition[0 := DefaultTransition()[0]] else DefaultTransition()
  }

  /** What a written stream looks like when it is read: dimensions are not coded, absent initial
      states become empty ones, and entry 0 of the transition table, like the whole table in
      Golomb-Rice mode, is the default one. */
  function Normalized(s: StreamParameters): StreamParameters {
    s.(width := 0, height := 0, initialStates := CodedStates(s),
       stateTransition := ReadTable(s))
  }

  /** What the C++ types of a stream can hold. */
  ghost predicate IsStoredStream(s: StreamParameters) {
    && s.numHSlices <= UINT32_LIMIT && s.numVSlices <= UINT32_LIMIT
    && forall t <- s.quantTableSets :: IsStored(t)
  }
}
