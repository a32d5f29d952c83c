// Where every parameter stands in a configuration record, and how.

module RecordLayout {
  import opened Basics
  import opened RangeSymbols
  import opened RangeScript
  import opened RangeNumbers
  import opened StateTransition
  import opened SampleModel
  import opened StreamModel
  import opened QuantTables
  import opened Configuration

  /** An unsigned number in context 0, a bit, and a signed number in a context of its own. */
  predicate IsNumber(op: Operation, value: nat) {
    op == Operation(SymbolRequest(0, 0, false), value)
  }

  predicate IsFlag(op: Operation, flag: bool) {
    op == Operation(BoolRequest, if flag then 1 else 0)
  }

  predicate IsDelta(op: Operation, context: nat, value: int) {
    op == Operation(SymbolRequest(0, context, true), value)
  }

  lemma {:induction false} TransitionsPlaced(table: Table, i: nat, k: nat)
    requires i <= k < 256
    ensures |TransitionOps(table, i)| == 256 - i
    ensures IsDelta(TransitionOps(table, i)[k - i], 0, table[k] as int - DefaultTransition()[k])
    decreases 256 - i
  {
    hide DefaultTransition;
    if i < k {
      TransitionsPlaced(table, i + 1, k);
    } else {
      TransitionsLength(table, i);
    }
  }

  lemma {:induction false} TransitionsLength(table: Table, i: nat)
    requires i <= 256
    ensures |TransitionOps(table, i)| == 256 - i
    decreases 256 - i
  {
    hide Delta;
    if i < 256 {
      TransitionsLength(table, i + 1);
    }
  }

  /** Version 3, micro-version 4, and how samples are coded: 0 for Golomb-Rice, 1 for range coding with
      the default transitions, 2 for others, which follow as 255 differences. */
  lemma HeadPlaced(s: StreamParameters)
    ensures var ops := HeadOps(s);
            var custom := s.entropyMode == RangeMode && s.stateTransition != DefaultTransition();
            && |ops| == (if custom then 258 else 3)
            && IsNumber(ops[0], 3) && IsNumber(ops[1], 4)
            && IsNumber(ops[2], if s.entropyMode == GolombRiceMode then 0 else if custom then 2 else 1)
            && (custom ==> forall i :: 3 <= i < 258 ==> IsDelta(ops[i], 0, s.stateTransition[i - 2] as int - DefaultTransition()[i - 2]))
  {
    hide DefaultTransition, TransitionOps;
    if HasCustomTransition(s) {
      TransitionsLength(s.stateTransition, 1);
      forall i | 3 <= i < 258
        ensures IsDelta(HeadOps(s)[i], 0, s.stateTransition[i - 2] as int - DefaultTransition()[i - 2])
      {
        TransitionsPlaced(s.stateTransition, 1, i - 2);
        assert HeadOps(s)[i] == TransitionOps(s.stateTransition, 1)[i - 3];
      }
    }
  }

  /** Then the format and the grid, counts less one where they cannot be zero. */
  lemma FormatPlaced(s: StreamParameters)
    requires 0 < s.numHSlices && 0 < s.numVSlices
    ensures var ops := FormatOps(s) + GridOps(s);
            && |ops| == 9
            && IsNumber(ops[0], s.colorspaceType) && IsNumber(ops[1], s.bitsPerRawSample) && IsFlag(ops[2], s.chromaPlanes)
            && IsNumber(ops[3], s.log2HChromaSubsample) && IsNumber(ops[4], s.log2VChromaSubsample) && IsFlag(ops[5], s.extraPlane)
            && IsNumber(ops[6], s.numHSlices - 1) && IsNumber(ops[7], s.numVSlices - 1) && IsNumber(ops[8], |s.quantTableSets|)
  {
  }

  lemma {:induction false} ContextPlaced(current: ScalarStates, prediction: ScalarStates, j: nat, k: nat)
    requires j <= k < 32
    ensures |ContextOps(current, prediction, j)| == 32 - j
    ensures IsDelta(ContextOps(current, prediction, j)[k - j], k, current[k] as int - prediction[k])
    decreases 32 - j
  {
    if j < k {
      ContextPlaced(current, prediction, j + 1, k);
    } else {
      ContextLength(current, prediction, j);
    }
  }

  lemma {:induction false} ContextLength(current: ScalarStates, prediction: ScalarStates, j: nat)
    requires j <= 32
    ensures |ContextOps(current, prediction, j)| == 32 - j
    decreases 32 - j
  {
    if j < 32 {
      ContextLength(current, prediction, j + 1);
    }
  }

  lemma {:induction false} ContextsPlaced(contexts: InitialStateSet, from: nat, c: nat, j: nat)
    requires from <= c < |contexts| && j < 32
    ensures |ContextsOps(contexts, from)| == 32 * (|contexts| - from)
    ensures 0 <= 32 * (c - from) + j < |ContextsOps(contexts, from)|
    ensures IsDelta(ContextsOps(contexts, from)[32 * (c - from) + j], j, contexts[c][j] as int - (if c == 0 then 128 else contexts[c - 1][j] as int))
    decreases |contexts| - from
  {
    hide ContextOps;
    ContextsLength(contexts, from);
    ContextLength(contexts[from], PredictionFor(contexts, from), 0);
    if from < c {
      ContextsPlaced(contexts, from + 1, c, j);
    } else {
      ContextPlaced(contexts[c], PredictionFor(contexts, c), 0, j);
    }
  }

  lemma {:induction false} ContextsLength(contexts: InitialStateSet, from: nat)
    requires from <= |contexts|
    ensures |ContextsOps(contexts, from)| == 32 * (|contexts| - from)
    decreases |contexts| - from
  {
    hide ContextOps;
    if from < |contexts| {
      ContextLength(contexts[from], PredictionFor(contexts, from), 0);
      ContextsLength(contexts, from + 1);
    }
  }

  /** Initial states: whether there are any, then 32 differences per context, each in the context of its
      own number, from the context before or from 128. */
  lemma StatesPlaced(contexts: InitialStateSet, c: nat, j: nat)
    requires c < |contexts| && j < 32
    ensures var ops := StateSetOps(contexts);
            && |ops| == 1 + 32 * |contexts| && IsFlag(ops[0], true)
            && IsDelta(ops[1 + 32 * c + j], j, contexts[c][j] as int - (if c == 0 then 128 else contexts[c - 1][j] as int))
  {
    hide ContextsOps;
    ContextsPlaced(contexts, 0, c, j);
  }

  lemma NoStatesPlaced()
    ensures |StateSetOps([])| == 1 && IsFlag(StateSetOps([])[0], false)
  {
  }

  /** The record is head, format and grid, the table sets in order, their initial states in order, and
      last whether errors are signalled and whether every frame is a keyframe. */
  lemma RecordPlaced(s: StreamParameters)
    requires (forall t <- s.quantTableSets :: IsTableSet(t)) && ParameterOps(s).Ok?
    ensures 0 < s.numHSlices && 0 < s.numVSlices && SetsOps(s.quantTableSets, 0).Ok?
    ensures var ops, n := ParameterOps(s).value, |HeadOps(s)|;
            var sets, states := SetsOps(s.quantTableSets, 0).value, StatesOps(CodedStates(s), 0);
            && |ops| == n + 9 + |sets| + |states| + 2
            && ops[..n] == HeadOps(s) && ops[n..n + 9] == FormatOps(s) + GridOps(s)
            && ops[n + 9..n + 9 + |sets|] == sets && ops[n + 9 + |sets|..|ops| - 2] == states
            && IsNumber(ops[|ops| - 2], if s.errorStatusEnabled then 1 else 0)
            && IsNumber(ops[|ops| - 1], if s.intraOnly then 1 else 0)
  {
    hide HeadOps, SetsOps, StatesOps, DefaultTransition;
  }

  lemma {:induction false} SetsInOrder(sets: seq<QuantTableSet>, i: nat)
    requires i < |sets| && (forall t <- sets :: IsTableSet(t)) && SetsOps(sets, i).Ok?
    ensures SetOps(sets[i], 0, 1).Ok? && SetsOps(sets, i + 1).Ok?
    ensures SetsOps(sets, i).value == SetOps(sets[i], 0, 1).value + SetsOps(sets, i + 1).value
  {
    hide SetOps;
    assert sets[i] in sets;
  }

  lemma StatesInOrder(states: seq<InitialStateSet>, i: nat)
    requires i < |states|
    ensures StatesOps(states, i) == StateSetOps(states[i]) + StatesOps(states, i + 1)
  {
    hide StateSetOps;
  }

  /** What a parsed record keeps of the stream: everything but the dimensions, which it does not carry. */
  lemma NormalizedKeeps(s: StreamParameters)
    ensures var t := Normalized(s);
            && t.version == s.version && t.microVersion == s.microVersion && t.entropyMode == s.entropyMode
            && t.width == 0 && t.height == 0 && t.bitsPerRawSample == s.bitsPerRawSample
            && t.colorspaceType == s.colorspaceType && t.chromaPlanes == s.chromaPlanes && t.extraPlane == s.extraPlane
            && t.log2HChromaSubsample == s.log2HChromaSubsample && t.log2VChromaSubsample == s.log2VChromaSubsample
            && t.numHSlices == s.numHSlices && t.numVSlices == s.numVSlices && t.quantTableSets == s.quantTableSets
            && t.errorStatusEnabled == s.errorStatusEnabled && t.intraOnly == s.intraOnly
            && (if s.initialStates != [] then t.initialStates == s.initialStates
                else |t.initialStates| == |s.quantTableSets| && forall i :: 0 <= i < |t.initialStates| ==> t.initialStates[i] == [])
            && forall i :: 1 <= i < 256 ==> t.stateTransition[i] == (if s.entropyMode == RangeMode then s.stateTransition[i] else DefaultTransition()[i])
  {
    hide DefaultTransition;
  }

  /** The profile a record can be written for. */
  lemma ProfileExactly(s: StreamParameters)
    ensures ProfileError(s).None? <==>
              && s.version == 3 && s.microVersion == 4
              && s.colorspaceType <= 1 && 1 <= s.bitsPerRawSample <= 16
              && (s.colorspaceType == 1 ==> s.chromaPlanes && s.log2HChromaSubsample == 0 && s.log2VChromaSubsample == 0)
              && (!s.chromaPlanes ==> s.log2HChromaSubsample == 0 && s.log2VChromaSubsample == 0)
              && s.log2VChromaSubsample <= s.log2HChromaSubsample <= 1
              && 0 < s.numHSlices && 0 < s.numVSlices
              && 1 <= |s.quantTableSets| <= 8 && (forall t <- s.quantTableSets :: 0 < t.contextCount)
              && (s.initialStates == [] || |s.initialStates| == |s.quantTableSets|)
              && forall i :: 0 <= i < |s.initialStates| ==> s.initialStates[i] == [] || |s.initialStates[i]| == s.quantTableSets[i].contextCount
  {
    if |s.initialStates| == |s.quantTableSets| {
      assert forall i :: 0 <= i < |s.initialStates| ==>
               (StatesFit(s, i) <==> s.initialStates[i] == [] || |s.initialStates[i]| == s.quantTableSets[i].contextCount);
    }
  }
}
