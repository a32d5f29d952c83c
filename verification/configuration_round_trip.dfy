// Parsing written parameters gives back the stream.

module ConfigurationRoundTrip {
  import opened Basics
  import opened RangeInterval
  import opened RangeSymbols
  import opened RangeContexts
  import opened RangeScript
  import opened RangeNumbers
  import opened StateTransition
  import opened SampleModel
  import opened StreamModel
  import opened QuantTables
  import opened Configuration

  /** The table with its first i entries, entry 0 aside, taken over. */
  ghost predicate TakenOver(got: Table, table: Table, i: nat) {
    forall j :: 0 <= j < 256 ==> got[j] == if 1 <= j < i then table[j] else DefaultTransition()[j]
  }

  lemma TakenOverNext(got: Table, table: Table, i: nat)
    requires 1 <= i < 256 && TakenOver(got, table, i)
    ensures got[i] == DefaultTransition()[i] && TakenOver(got[i := table[i]], table, i + 1)
  {
    hide DefaultTransition;
  }

  lemma AllTakenOver(got: Table, table: Table)
    requires TakenOver(got, table, 256)
    ensures got == table[0 := DefaultTransition()[0]]
  {
    hide DefaultTransition;
  }

  lemma NextTransition(table: Table, i: nat, rest: seq<Operation>)
    requires i < 256
    ensures TransitionOps(table, i) + rest == [SignedNumber(0, Delta(table, i))] + (TransitionOps(table, i + 1) + rest)
  {
    hide Delta, SignedNumber;
    var more := TransitionOps(table, i + 1);
    assert TransitionOps(table, i) == [SignedNumber(0, Delta(table, i))] + more;
    hide TransitionOps;
    AppendAssoc([SignedNumber(0, Delta(table, i))], more, rest);
  }

  lemma ParseNextTransition(d: Decoder, got: Table, i: nat, delta: int, d': Decoder, transition: byte)
    requires i < 256 && RangeScript.ReadSymbol(d, 0, 0, true) == Ok((delta, d')) && got[i] as int + delta == transition
    ensures ParseTransitions(d, got, i) == ParseTransitions(d', got[i := transition], i + 1)
  {
    hide RangeScript.ReadSymbol;
  }

  lemma {:induction false} TransitionsReadBack(table: Table, i: nat, got: Table, rest: seq<Operation>, d: Decoder, final: Encoder)
    returns (d': Decoder)
    requires 1 <= i <= 256 && TakenOver(got, table, i)
    requires Scripted(d, TransitionOps(table, i) + rest, final)
    ensures ParseTransitions(d, got, i) == Ok((table[0 := DefaultTransition()[0]], d'))
    ensures Scripted(d', rest, final) && d'.payload == d.payload
    decreases 256 - i
  {
    hide Scripted, RangeScript.ReadSymbol, DefaultTransition, SignedNumber, TakenOver, ParseTransitions, TransitionOps;
    if i == 256 {
      NoTransitions(d, got, table, rest);
      AllTakenOver(got, table);
      d' := d;
    } else {
      NextTransition(table, i, rest);
      var d1 := SignedReadsBack(0, Delta(table, i), TransitionOps(table, i + 1) + rest, d, final);
      TakenOverNext(got, table, i);
      ParseNextTransition(d, got, i, Delta(table, i), d1, table[i]);
      d' := TransitionsReadBack(table, i + 1, got[i := table[i]], rest, d1, final);
    }
  }

  lemma NoTransitions(d: Decoder, got: Table, table: Table, rest: seq<Operation>)
    ensures TransitionOps(table, 256) + rest == rest
    ensures ParseTransitions(d, got, 256) == Ok((got, d))
  {
  }

  lemma HeadReadsBack(s: StreamParameters, rest: seq<Operation>, d: Decoder, final: Encoder) returns (d': Decoder)
    requires Scripted(d, HeadOps(s) + rest, final)
    ensures ParseHead(d) == Ok((Head(3, 4, s.entropyMode, ReadTable(s)), d'))
    ensures Scripted(d', rest, final) && d'.payload == d.payload
  {
    hide Scripted, ReadUnsigned, DefaultTransition, Number, TransitionOps, ParseTransitions, ReadTable;
    var transitions := if HasCustomTransition(s) then TransitionOps(s.stateTransition, 1) else [];
    var more := transitions + rest;
    assert HeadOps(s) + rest == [Number(3)] + ([Number(4)] + ([Number(CoderType(s))] + more));
    var d1 := NumberReadsBack(3, [Number(4)] + ([Number(CoderType(s))] + more), d, final);
    var d2 := NumberReadsBack(4, [Number(CoderType(s))] + more, d1, final);
    var d3 := NumberReadsBack(CoderType(s), more, d2, final);
    TableOfMode(s);
    if HasCustomTransition(s) {
      d' := TransitionsReadBack(s.stateTransition, 1, DefaultTransition(), rest, d3, final);
    } else {
      assert more == rest;
      d' := d3;
    }
  }

  lemma TableOfMode(s: StreamParameters)
    ensures s.entropyMode == GolombRiceMode ==> ReadTable(s) == DefaultTransition()
    ensures s.entropyMode == RangeMode ==> ReadTable(s) == s.stateTransition[0 := DefaultTransition()[0]]
    ensures !HasCustomTransition(s) ==> ReadTable(s) == DefaultTransition()
  {
    hide DefaultTransition;
  }

  lemma FormatReadsBack(s: StreamParameters, rest: seq<Operation>, d: Decoder, final: Encoder) returns (d': Decoder)
    requires ProfileError(s).None?
    requires Scripted(d, FormatOps(s) + rest, final)
    ensures ParseFormat(d, 3) == Ok((Format(s.colorspaceType, s.bitsPerRawSample, s.chromaPlanes, s.log2HChromaSubsample,
                                            s.log2VChromaSubsample, s.extraPlane), d'))
    ensures Scripted(d', rest, final) && d'.payload == d.payload
  {
    hide Scripted, ReadUnsigned, Number, Flag, RangeScript.ReadBool;
    var last := [Flag(s.extraPlane)] + rest;
    var vertical := [Number(s.log2VChromaSubsample)] + last;
    var horizontal := [Number(s.log2HChromaSubsample)] + vertical;
    var chroma := [Flag(s.chromaPlanes)] + horizontal;
    var bits := [Number(s.bitsPerRawSample)] + chroma;
    assert FormatOps(s) + rest == [Number(s.colorspaceType)] + bits;
    var d1 := NumberReadsBack(s.colorspaceType, bits, d, final);
    var d2 := NumberReadsBack(s.bitsPerRawSample, chroma, d1, final);
    var d3 := FlagReadsBack(s.chromaPlanes, horizontal, d2, final);
    var d4 := NumberReadsBack(s.log2HChromaSubsample, vertical, d3, final);
    var d5 := NumberReadsBack(s.log2VChromaSubsample, last, d4, final);
    d' := FlagReadsBack(s.extraPlane, rest, d5, final);
  }

  lemma GridReadsBack(s: StreamParameters, rest: seq<Operation>, d: Decoder, final: Encoder) returns (d': Decoder)
    requires ProfileError(s).None? && s.numHSlices <= UINT32_LIMIT && s.numVSlices <= UINT32_LIMIT
    requires Scripted(d, GridOps(s) + rest, final)
    ensures ParseGrid(d, 3) == Ok((s.numHSlices, s.numVSlices, |s.quantTableSets|, d'))
    ensures Scripted(d', rest, final) && d'.payload == d.payload
  {
    hide Scripted, ReadUnsigned, Number;
    var last := [Number(|s.quantTableSets|)] + rest;
    assert GridOps(s) + rest == [Number(s.numHSlices - 1)] + ([Number(s.numVSlices - 1)] + last);
    var d1 := NumberReadsBack(s.numHSlices - 1, [Number(s.numVSlices - 1)] + last, d, final);
    var d2 := NumberReadsBack(s.numVSlices - 1, last, d1, final);
    d' := NumberReadsBack(|s.quantTableSets|, rest, d2, final);
  }

  /** No set has more contexts than the parser takes. */
  ghost predicate IsParsable(sets: seq<QuantTableSet>, i: nat) {
    forall k :: i <= k < |sets| ==> sets[k].contextCount <= MAX_CONTEXT_COUNT
  }

  lemma {:induction false} SetsReadBack(sets: seq<QuantTableSet>, i: nat, ops: seq<Operation>, rest: seq<Operation>,
                                         d: Decoder, final: Encoder)
    returns (d': Decoder)
    requires i <= |sets| && (forall t <- sets :: IsTableSet(t)) && (forall t <- sets :: IsStored(t))
    requires SetsOps(sets, i) == Ok(ops)
    requires Scripted(d, ops + rest, final)
    ensures ParseSets(d, sets[..i], |sets|) == if IsParsable(sets, i) then Ok((sets, d')) else Err(SyntaxError)
    ensures Scripted(d', rest, final) && d'.payload == d.payload
    decreases |sets| - i
  {
    hide Scripted, SetOps, ParseSet, IsStored;
    if i == |sets| {
      assert sets[..i] == sets && ops + rest == rest;
      d' := d;
    } else {
      assert sets[i] in sets;
      var first := SetOps(sets[i], 0, 1).value;
      var more := SetsOps(sets, i + 1).value;
      AppendAssoc(first, more, rest);
      assert sets[i].tables[..0] == [];
      StoredIsTableSet(sets[i]);
      var d1 := SetReadsBack(sets[i], 0, 1, first, more + rest, d, final);
      d' := SetsReadBack(sets, i + 1, more, rest, d1, final);
      assert sets[..i] + [sets[i]] == sets[..i + 1];
      assert IsParsable(sets, i) <==> sets[i].contextCount <= MAX_CONTEXT_COUNT && IsParsable(sets, i + 1);
    }
  }

  lemma StoredIsTableSet(t: QuantTableSet)
    requires IsStored(t)
    ensures IsTableSet(t) && |t.tables| == CONTEXT_INPUTS
  {
  }

  lemma {:induction false} ContextReadsBack(current: ScalarStates, prediction: ScalarStates, j: nat, rest: seq<Operation>,
                                             d: Decoder, final: Encoder)
    returns (d': Decoder)
    requires j <= 32
    requires Scripted(d, ContextOps(current, prediction, j) + rest, final)
    ensures ParseContext(d, prediction, current[..j]) == Ok((current, d'))
    ensures Scripted(d', rest, final) && d'.payload == d.payload
    decreases 32 - j
  {
    hide Scripted, RangeScript.ReadSymbol, SignedNumber;
    if j == 32 {
      assert current[..j] == current && ContextOps(current, prediction, j) + rest == rest;
      d' := d;
    } else {
      var delta := current[j] as int - prediction[j];
      AppendAssoc([SignedNumber(j, delta)], ContextOps(current, prediction, j + 1), rest);
      var d1 := SignedReadsBack(j, delta, ContextOps(current, prediction, j + 1) + rest, d, final);
      assert (prediction[j] as int + delta) % 256 == current[j];
      assert current[..j] + [current[j]] == current[..j + 1];
      d' := ContextReadsBack(current, prediction, j + 1, rest, d1, final);
    }
  }

  lemma {:induction false} ContextsReadBack(contexts: InitialStateSet, c: nat, rest: seq<Operation>, d: Decoder, final: Encoder)
    returns (d': Decoder)
    requires c <= |contexts|
    requires Scripted(d, ContextsOps(contexts, c) + rest, final)
    ensures ParseContexts(d, contexts[..c], |contexts|) == Ok((contexts, d'))
    ensures Scripted(d', rest, final) && d'.payload == d.payload
    decreases |contexts| - c
  {
    hide Scripted, ContextOps, ParseContext, FirstPrediction;
    if c == |contexts| {
      assert contexts[..c] == contexts && ContextsOps(contexts, c) + rest == rest;
      d' := d;
    } else {
      var prediction := PredictionFor(contexts, c);
      assert PredictionFor(contexts[..c], c) == prediction;
      var more := ContextsOps(contexts, c + 1);
      AppendAssoc(ContextOps(contexts[c], prediction, 0), more, rest);
      assert contexts[c][..0] == [];
      var d1 := ContextReadsBack(contexts[c], prediction, 0, more + rest, d, final);
      assert contexts[..c] + [contexts[c]] == contexts[..c + 1];
      d' := ContextsReadBack(contexts, c + 1, rest, d1, final);
    }
  }

  /** Every set codes the states of all its contexts, or of none. */
  ghost predicate AreStatesOf(states: seq<InitialStateSet>, sets: seq<QuantTableSet>) {
    |states| == |sets| && forall i :: 0 <= i < |sets| ==> states[i] == [] || |states[i]| == sets[i].contextCount
  }

  lemma {:induction false} StatesReadBack(states: seq<InitialStateSet>, sets: seq<QuantTableSet>, i: nat, rest: seq<Operation>,
                                           d: Decoder, final: Encoder)
    returns (d': Decoder)
    requires AreStatesOf(states, sets) && i <= |sets|
    requires Scripted(d, StatesOps(states, i) + rest, final)
    ensures ParseStates(d, sets, states[..i]) == Ok((states, d'))
    ensures Scripted(d', rest, final) && d'.payload == d.payload
    decreases |sets| - i
  {
    hide Scripted, ContextsOps, ParseContexts, Flag, RangeScript.ReadBool;
    if i == |sets| {
      assert states[..i] == states && StatesOps(states, i) + rest == rest;
      d' := d;
    } else {
      var contexts := states[i];
      var more := StatesOps(states, i + 1) + rest;
      assert StatesOps(states, i) + rest == [Flag(contexts != [])] + (ContextsOps(contexts, 0) + more);
      var d1 := FlagReadsBack(contexts != [], ContextsOps(contexts, 0) + more, d, final);
      assert states[..i] + [contexts] == states[..i + 1];
      if contexts == [] {
        NoContextsOps(contexts);
        assert ContextsOps(contexts, 0) + more == more;
        d' := StatesReadBack(states, sets, i + 1, rest, d1, final);
      } else {
        assert contexts[..0] == [];
        var d2 := ContextsReadBack(contexts, 0, more, d1, final);
        d' := StatesReadBack(states, sets, i + 1, rest, d2, final);
      }
    }
  }

  lemma NoContextsOps(contexts: InitialStateSet)
    requires contexts == []
    ensures ContextsOps(contexts, 0) == []
  {
  }

  lemma EndingReadsBack(s: StreamParameters, rest: seq<Operation>, d: Decoder, final: Encoder) returns (d': Decoder)
    requires Scripted(d, EndingOps(s) + rest, final)
    ensures ParseEnding(d) == Ok((s.errorStatusEnabled, s.intraOnly, d'))
    ensures Scripted(d', rest, final) && d'.payload == d.payload
  {
    hide Scripted, ReadUnsigned, Number;
    var ec: nat := if s.errorStatusEnabled then 1 else 0;
    var intra: nat := if s.intraOnly then 1 else 0;
    assert EndingOps(s) + rest == [Number(ec)] + ([Number(intra)] + rest);
    var d1 := NumberReadsBack(ec, [Number(intra)] + rest, d, final);
    d' := NumberReadsBack(intra, rest, d1, final);
  }

  lemma CodedStatesFit(s: StreamParameters)
    requires ProfileError(s).None?
    ensures AreStatesOf(CodedStates(s), s.quantTableSets)
  {
    forall i | 0 <= i < |s.quantTableSets|
      ensures CodedStates(s)[i] == [] || |CodedStates(s)[i]| == s.quantTableSets[i].contextCount
    {
      assert s.initialStates != [] ==> StatesFit(s, i);
    }
  }

  /** Written parameters are parsed as the same stream, up to normalization, if no set has too many
      contexts; otherwise they are refused. */
  lemma ParametersReadBack(s: StreamParameters, ops: seq<Operation>, d: Decoder, final: Encoder)
    requires IsStoredStream(s) && forall t <- s.quantTableSets :: IsTableSet(t)
    requires ParameterOps(s) == Ok(ops)
    requires Scripted(d, ops, final)
    ensures if IsParsable(s.quantTableSets, 0)
            then ParseParameters(d).Ok? && ParseParameters(d).value.0 == Normalized(s) && Matches(ParseParameters(d).value.1, final)
            else ParseParameters(d) == Err(SyntaxError)
  {
    hide Scripted, HeadOps, FormatOps, GridOps, SetsOps, StatesOps, EndingOps, ParseHead, ParseFormat, ParseGrid, ParseSets, ParseStates,
         ParseEnding, IsParsable, IsStored, DefaultTransition, Matches;
    var sets := SetsOps(s.quantTableSets, 0).value;
    var states := StatesOps(CodedStates(s), 0);
    var ending := EndingOps(s);
    var afterGrid := sets + (states + ending);
    var afterFormat := GridOps(s) + afterGrid;
    var d1 := HeadReadsBack(s, FormatOps(s) + afterFormat, d, final);
    var d2 := FormatReadsBack(s, afterFormat, d1, final);
    var d3 := GridReadsBack(s, afterGrid, d2, final);
    assert s.quantTableSets[..0] == [];
    var d4 := SetsReadBack(s.quantTableSets, 0, sets, states + ending, d3, final);
    CodedStatesFit(s);
    assert CodedStates(s)[..0] == [];
    var d5 := StatesReadBack(CodedStates(s), s.quantTableSets, 0, ending, d4, final);
    assert ending + [] == ending;
    var d6 := EndingReadsBack(s, [], d5, final);
    ScriptEnds(d6, final);
    if IsParsable(s.quantTableSets, 0) {
      ProfileFixes(s);
    }
  }

  lemma ProfileFixes(s: StreamParameters)
    requires ProfileError(s).None?
    ensures s.version == 3 && s.microVersion == 4
  {
  }
}
