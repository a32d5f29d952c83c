// The configuration record: parameters, finalized, with four bytes of parity.

module ConfigurationRecord {
  import opened Basics
  import opened RangeInterval
  import opened RangeSymbols
  import opened RangeContexts
  import opened RangeScript
  import opened RangeNumbers
  import opened StateTransition
  import opened SteadyCoding
  import opened SampleModel
  import opened StreamModel
  import opened QuantTables
  import opened Configuration
  import opened ConfigurationRoundTrip
  import opened Crc

  const RECORD_CONTEXTS: nat := 32
  const PARITY_SIZE: nat := 4

  function RecordContexts(count: nat): Result<Contexts> {
    Build([count], [], DEFAULT_STATE)
  }

  function RecordStart(): Encoder {
    FreshEncoder(RecordContexts(RECORD_CONTEXTS).value, DefaultTransition())
  }

  lemma RecordStartSteady()
    ensures RecordContexts(RECORD_CONTEXTS).Ok? && RecordContexts(1).Ok?
    ensures SteadyEncoder(RecordStart()) && RecordStart().contexts.sizes == [RECORD_CONTEXTS]
  {
    OneBankBuilds(RECORD_CONTEXTS);
    OneBankBuilds(1);
    BuildSteady([RECORD_CONTEXTS], []);
  }

  lemma {:induction false} TransitionOpsInside(table: Table, i: nat)
    requires i <= 256
    ensures AllInside(TransitionOps(table, i), [RECORD_CONTEXTS])
    decreases 256 - i
  {
    hide DefaultTransition;
    if i < 256 {
      assert -255 <= Delta(table, i) <= 255;
      hide Delta;
      TransitionOpsInside(table, i + 1);
    }
  }

  lemma {:induction false} ContextOpsInside(current: ScalarStates, prediction: ScalarStates, j: nat)
    requires j <= 32
    ensures AllInside(ContextOps(current, prediction, j), [RECORD_CONTEXTS])
    decreases 32 - j
  {
    if j < 32 {
      ContextOpsInside(current, prediction, j + 1);
    }
  }

  lemma {:induction false} ContextsOpsInside(contexts: InitialStateSet, c: nat)
    requires c <= |contexts|
    ensures AllInside(ContextsOps(contexts, c), [RECORD_CONTEXTS])
    decreases |contexts| - c
  {
    hide ContextOps, IsInside, FirstPrediction;
    if c < |contexts| {
      ContextOpsInside(contexts[c], PredictionFor(contexts, c), 0);
      ContextsOpsInside(contexts, c + 1);
      AllInsideConcat(ContextOps(contexts[c], PredictionFor(contexts, c), 0), ContextsOps(contexts, c + 1), [RECORD_CONTEXTS]);
    }
  }

  lemma {:induction false} StatesOpsInside(states: seq<InitialStateSet>, i: nat)
    requires i <= |states|
    ensures AllInside(StatesOps(states, i), [RECORD_CONTEXTS])
    decreases |states| - i
  {
    hide ContextsOps;
    if i < |states| {
      ContextsOpsInside(states[i], 0);
      AllInsideConcat([Flag(states[i] != [])], ContextsOps(states[i], 0), [RECORD_CONTEXTS]);
      StatesOpsInside(states, i + 1);
      AllInsideConcat(StateSetOps(states[i]), StatesOps(states, i + 1), [RECORD_CONTEXTS]);
    }
  }

  lemma PlainOpsInside(s: StreamParameters)
    requires ProfileError(s).None? && IsStoredStream(s)
    ensures 0 < s.numHSlices && 0 < s.numVSlices
    ensures AllInside(HeadOps(s), [RECORD_CONTEXTS]) && AllInside(FormatOps(s), [RECORD_CONTEXTS])
    ensures AllInside(GridOps(s), [RECORD_CONTEXTS]) && AllInside(EndingOps(s), [RECORD_CONTEXTS])
  {
    hide TransitionOps, DefaultTransition, IsStored;
    TransitionOpsInside(s.stateTransition, 1);
  }

  lemma {:induction false} RunOpsInside(half: seq<int>, scale: int, k: nat, value: nat)
    requires k <= |half| <= 128
    requires Runs(half, scale, k, value).Ok?
    ensures AllInside(RunOps(Runs(half, scale, k, value).value), [1])
    decreases |half| - k
  {
    hide Entry, EntryOverflows;
    if k < |half| {
      var len := RunLength(half, k, Entry(scale, value));
      RunOpsInside(half, scale, k + len, value + 1);
      var lens := Runs(half, scale, k, value).value;
      assert lens[1..] == Runs(half, scale, k + len, value + 1).value;
    }
  }

  /** An encodable table set is always written. */
  lemma {:induction false} SetWrites(e: Encoder, t: QuantTableSet, i: nat, scale: int)
    requires SteadyEncoder(e) && IsTableSet(t) && i <= CONTEXT_INPUTS
    requires SetOps(t, i, scale).Ok?
    ensures var ops := SetOps(t, i, scale).value;
            && AllRepresentable(ops) && WriteAll(e, ops).Ok? && SteadyEncoder(WriteAll(e, ops).value)
            && WriteAll(e, ops).value.contexts.sizes == e.contexts.sizes
    decreases CONTEXT_INPUTS - i
  {
    hide Runs, RunOps, Mirror, Widened, ScaleOverflows, SteadyEncoder, Representable;
    if i < CONTEXT_INPUTS {
      var lens := Runs(HalfOf(t, i), scale, 0, 0).value;
      var more := SetOps(t, i + 1, Widened(scale, |lens|)).value;
      RunOpsInside(HalfOf(t, i), scale, 0, 0);
      ScopeWrites(e, RunOps(lens));
      SetWrites(WriteAll(e, TableOps(lens)).value, t, i + 1, Widened(scale, |lens|));
      WriteAllConcat(e, TableOps(lens), more);
    }
  }

  lemma {:induction false} SetsWrite(e: Encoder, sets: seq<QuantTableSet>, i: nat)
    requires SteadyEncoder(e) && i <= |sets| && forall t <- sets :: IsTableSet(t)
    requires SetsOps(sets, i).Ok?
    ensures var ops := SetsOps(sets, i).value;
            && AllRepresentable(ops) && WriteAll(e, ops).Ok? && SteadyEncoder(WriteAll(e, ops).value)
            && WriteAll(e, ops).value.contexts.sizes == e.contexts.sizes
    decreases |sets| - i
  {
    hide SetOps, SteadyEncoder, Representable;
    if i < |sets| {
      assert sets[i] in sets;
      var first := SetOps(sets[i], 0, 1).value;
      SetWrites(e, sets[i], 0, 1);
      SetsWrite(WriteAll(e, first).value, sets, i + 1);
      WriteAllConcat(e, first, SetsOps(sets, i + 1).value);
    }
  }

  /** Once the profile and the tables are accepted, nothing can make the writer fail: in particular
      no symbol ever meets an empty interval. */
  lemma ParametersWrite(s: StreamParameters)
    requires IsStoredStream(s) && forall t <- s.quantTableSets :: IsTableSet(t)
    requires ParameterOps(s).Ok?
    ensures AllRepresentable(ParameterOps(s).value)
    ensures WriteAll(RecordStart(), ParameterOps(s).value).Ok?
    ensures SteadyEncoder(WriteAll(RecordStart(), ParameterOps(s).value).value)
  {
    hide HeadOps, FormatOps, GridOps, SetsOps, StatesOps, EndingOps, SteadyEncoder, Representable, IsInside, ProfileError, IsStored, DefaultTransition;
    RecordStartSteady();
    PlainOpsInside(s);
    StatesOpsInside(CodedStates(s), 0);
    var e := RecordStart();
    var sets := SetsOps(s.quantTableSets, 0).value;
    var states := StatesOps(CodedStates(s), 0);
    AllInsideWrite(e, HeadOps(s));
    var e1 := WriteAll(e, HeadOps(s)).value;
    AllInsideWrite(e1, FormatOps(s));
    var e2 := WriteAll(e1, FormatOps(s)).value;
    AllInsideWrite(e2, GridOps(s));
    var e3 := WriteAll(e2, GridOps(s)).value;
    SetsWrite(e3, s.quantTableSets, 0);
    var e4 := WriteAll(e3, sets).value;
    AllInsideWrite(e4, states);
    var e5 := WriteAll(e4, states).value;
    AllInsideWrite(e5, EndingOps(s));
    WriteAllConcat(e4, states, EndingOps(s));
    WriteAllConcat(e3, sets, states + EndingOps(s));
    WriteAllConcat(e2, GridOps(s), sets + (states + EndingOps(s)));
    WriteAllConcat(e1, FormatOps(s), GridOps(s) + (sets + (states + EndingOps(s))));
    WriteAllConcat(e, HeadOps(s), FormatOps(s) + (GridOps(s) + (sets + (states + EndingOps(s)))));
  }

  /** A written record: the finalized parameters and their parity. */
  ghost predicate IsRecord(s: StreamParameters, body: seq<byte>, record: seq<byte>) {
    && (forall t <- s.quantTableSets :: IsTableSet(t))
    && ParameterOps(s).Ok?
    && WriteAll(RecordStart(), ParameterOps(s).value).Ok?
    && var final := WriteAll(RecordStart(), ParameterOps(s).value).value;
    && |body| == final.interval.count && Prefix(body, |body|) == final.interval.low
    && record == body + BigEndian(Remainder(ZERO, body))
  }

  /** The version decides whether the record ends in parity. */
  function ProbeVersion(record: seq<byte>): Result<nat> {
    if |record| < 2 then Err(SyntaxError)
    else
      var c :- RecordContexts(1);
      var (version, _) :- ReadUnsigned(FreshDecoder(record, c, DefaultTransition()));
      Ok(version)
  }

  function ParameterPayload(record: seq<byte>): Result<seq<byte>> {
    var version :- ProbeVersion(record);
    if version < 3 then Ok(record)
    else if |record| < PARITY_SIZE then Err(SyntaxError)
    else if Remainder(ZERO, record) != ZERO then Err(CrcMismatch)
    else Ok(record[..|record| - PARITY_SIZE])
  }

  function ParseRecord(record: seq<byte>): Result<StreamParameters> {
    if record == [] then Err(InvalidArgument)
    else
      var payload :- ParameterPayload(record);
      if |payload| < 2 then Err(SyntaxError)
      else
        var c :- RecordContexts(RECORD_CONTEXTS);
        var (s, _) :- ParseParameters(FreshDecoder(payload, c, DefaultTransition()));
        Ok(s)
  }

  /** The first number is coded alike whatever other contexts there are. */
  lemma FirstNumberAlike(a: Encoder, b: Encoder, value: nat)
    requires WellFormed(a.contexts) && WellFormed(b.contexts)
    requires a.interval == b.interval && a.table == b.table && a.contexts.states[0] == b.contexts.states[0]
    requires Write(a, Number(value)).Ok?
    ensures Write(b, Number(value)).Ok? && Write(b, Number(value)).value.interval == Write(a, Number(value)).value.interval
  {
    hide Encode, SymbolDecisions;
    FirstContextExists(a.contexts);
    FirstContextExists(b.contexts);
  }

  lemma UniformStart(count: nat)
    requires 1 <= count <= MAX_SCALAR_CONTEXTS
    ensures RecordContexts(count).Ok? && WellFormed(RecordContexts(count).value)
    ensures 0 < |RecordContexts(count).value.states|
    ensures RecordContexts(count).value.states[0] == seq(32, _ => DEFAULT_STATE)
  {
    OneBankBuilds(count);
    BuildWellFormed([count], [], DEFAULT_STATE);
    FirstContextExists(RecordContexts(count).value);
    assert Concat([count], [], DEFAULT_STATE, 0) == [];
    assert Concat([count], [], DEFAULT_STATE, 1) == InitialBank(count, [], DEFAULT_STATE);
  }

  /** Any payload inside the interval of the first number tells the version. */
  lemma VersionProbed(record: seq<byte>)
    requires 2 <= |record| && Write(RecordStart(), Number(3)).Ok?
    requires Admits(record, Write(RecordStart(), Number(3)).value.interval)
    ensures ProbeVersion(record) == Ok(3)
  {
    hide Scripted, DefaultTransition, RangeScript.ReadSymbol, ReadUnsigned, RangeScript.WriteSymbol;
    UniformStart(1);
    UniformStart(RECORD_CONTEXTS);
    var c := RecordContexts(1).value;
    var narrow := FreshEncoder(c, DefaultTransition());
    FirstNumberAlike(RecordStart(), narrow, 3);
    WriteOne(narrow, Number(3));
    var final := Write(narrow, Number(3)).value;
    StartsScripted(record, c, DefaultTransition(), [Number(3)], final);
    assert [Number(3)] + [] == [Number(3)];
    var d := NumberReadsBack(3, [], FreshDecoder(record, c, DefaultTransition()), final);
  }

  /** A written record is parsed as the same stream, up to normalization, if no table set has too
      many contexts; otherwise it is refused as malformed. */
  lemma RecordReadsBack(s: StreamParameters, body: seq<byte>, record: seq<byte>)
    requires IsStoredStream(s) && IsRecord(s, body, record)
    ensures ParseRecord(record) == if IsParsable(s.quantTableSets, 0) then Ok(Normalized(s)) else Err(SyntaxError)
  {
    hide ParameterOps, ParseParameters, ProbeVersion, Write, Remainder, BigEndian, SteadyContexts, IsParsable, DefaultTransition, IsStored;
    RecordStartSteady();
    var ops := ParameterOps(s).value;
    ParametersWrite(s);
    var final := WriteAll(RecordStart(), ops).value;
    FinalizedAdmits(final, body, []);
    FinalizedAdmits(final, body, BigEndian(Remainder(ZERO, body)));
    assert body + [] == body;
    FirstOfParameters(s);
    WriteAllNests(record, Write(RecordStart(), ops[0]).value, ops[1..]);
    VersionProbed(record);
    ParityVanishes(body);
    assert record[..|record| - PARITY_SIZE] == body;
    StartsScripted(body, RecordContexts(RECORD_CONTEXTS).value, DefaultTransition(), ops, final);
    ParametersReadBack(s, ops, FreshDecoder(body, RecordContexts(RECORD_CONTEXTS).value, DefaultTransition()), final);
  }

  lemma FirstOfParameters(s: StreamParameters)
    requires (forall t <- s.quantTableSets :: IsTableSet(t)) && ParameterOps(s).Ok?
    ensures ParameterOps(s).value != [] && ParameterOps(s).value[0] == Number(3)
  {
    hide FormatOps, GridOps, SetsOps, StatesOps, EndingOps, TransitionOps, ProfileError, DefaultTransition;
  }

  /** Any change of at most four consecutive bytes of a record is noticed, unless it makes the
      record claim to be of a version without parity. */
  lemma RecordBurstDetected(before: seq<byte>, burst: seq<byte>, other: seq<byte>, after: seq<byte>)
    requires |burst| == |other| <= 4 && burst != other
    requires Remainder(ZERO, before + burst + after) == ZERO
    ensures ParseRecord(before + other + after).Err?
         || (ProbeVersion(before + other + after).Ok? && ProbeVersion(before + other + after).value < 3)
  {
    hide Remainder, ProbeVersion, ParseParameters, DefaultTransition;
    BurstDetected(before, burst, other, after);
  }
}
