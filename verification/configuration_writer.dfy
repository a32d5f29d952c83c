// Writing the configuration record, symbol by symbol.

module ConfigurationWriting {
  import opened Basics
  import opened RangeInterval
  import opened RangeSymbols
  import opened RangeContexts
  import opened RangeScript
  import opened RangeNumbers
  import opened RangeEncoding
  import opened StateTransition
  import opened SampleModel
  import opened StreamModel
  import opened QuantTables
  import opened QuantTableCoding
  import opened Configuration
  import opened ConfigurationRecord
  import opened Crc

  /** Writes a number; what remains to be written is unaffected. */
  method PutNumber(writer: RangeEncoder, value: nat, ghost rest: seq<Operation>) returns (status: Status)
    requires writer.Valid() && writer.Writable()
    modifies writer
    ensures writer.Valid() && writer.Writable()
    ensures status.Ok? ==> WriteAll(writer.Value(), rest) == WriteAll(old(writer.Value()), [Number(value)] + rest)
    ensures status.Err? ==> WriteAll(old(writer.Value()), [Number(value)] + rest).Err?
  {
    hide RangeScript.WriteSymbol, Write;
    WriteAllConcat(writer.Value(), [Number(value)], rest);
    WriteOne(writer.Value(), Number(value));
    status := WriteNumber(writer, value);
  }

  method PutFlag(writer: RangeEncoder, flag: bool, ghost rest: seq<Operation>) returns (status: Status)
    requires writer.Valid() && writer.Writable()
    modifies writer
    ensures writer.Valid() && writer.Writable()
    ensures status.Ok? ==> WriteAll(writer.Value(), rest) == WriteAll(old(writer.Value()), [Flag(flag)] + rest)
    ensures status.Err? ==> WriteAll(old(writer.Value()), [Flag(flag)] + rest).Err?
  {
    hide RangeScript.WriteBool;
    WriteAllConcat(writer.Value(), [Flag(flag)], rest);
    WriteOne(writer.Value(), Flag(flag));
    status := writer.WriteBool(flag);
  }

  method PutSigned(writer: RangeEncoder, context: nat, value: int, ghost rest: seq<Operation>) returns (status: Status)
    requires writer.Valid() && writer.Writable() && -255 <= value <= 255
    modifies writer
    ensures writer.Valid() && writer.Writable()
    ensures status.Ok? ==> WriteAll(writer.Value(), rest) == WriteAll(old(writer.Value()), [SignedNumber(context, value)] + rest)
    ensures status.Err? ==> WriteAll(old(writer.Value()), [SignedNumber(context, value)] + rest).Err?
  {
    hide RangeScript.WriteSymbol;
    WriteAllConcat(writer.Value(), [SignedNumber(context, value)], rest);
    WriteOne(writer.Value(), SignedNumber(context, value));
    status := writer.WriteSigned(0, context, value);
  }

  lemma NothingToWrite(e: Encoder)
    ensures WriteAll(e, []) == Ok(e)
  {
  }

  /** What a stage of the writer promises: exactly these operations. */
  predicate Wrote(before: Encoder, after: Encoder, status: Status, ops: seq<Operation>) {
    && (status.Ok? <==> WriteAll(before, ops).Ok?)
    && (status.Ok? ==> WriteAll(before, ops) == Ok(after))
  }

  method WriteTransitions(writer: RangeEncoder, table: Table) returns (status: Status)
    requires writer.Valid() && writer.Writable()
    modifies writer
    ensures writer.Valid() && writer.Writable()
    ensures Wrote(old(writer.Value()), writer.Value(), status, TransitionOps(table, 1))
  {
    hide DefaultTransition, SignedNumber;
    ghost var goal := WriteAll(writer.Value(), TransitionOps(table, 1));
    for state := 1 to 256
      invariant writer.Valid() && writer.Writable()
      invariant WriteAll(writer.Value(), TransitionOps(table, state)) == goal
    {
      status := PutSigned(writer, 0, Delta(table, state), TransitionOps(table, state + 1));
      if status.Err? {
        return;
      }
    }
    NothingToWrite(writer.Value());
    status := Ok(());
  }

  /** Version, micro-version, coder type, and the transitions if they are custom. */
  method WriteHead(writer: RangeEncoder, s: StreamParameters) returns (status: Status)
    requires writer.Valid() && writer.Writable()
    modifies writer
    ensures writer.Valid() && writer.Writable()
    ensures Wrote(old(writer.Value()), writer.Value(), status, HeadOps(s))
  {
    hide DefaultTransition, Number, WriteAll, TransitionOps;
    ghost var transitions := if HasCustomTransition(s) then TransitionOps(s.stateTransition, 1) else [];
    assert HeadOps(s) == [Number(3)] + ([Number(4)] + ([Number(CoderType(s))] + transitions));
    status := PutNumber(writer, 3, [Number(4)] + ([Number(CoderType(s))] + transitions));
    if status.Err? {
      return;
    }
    status := PutNumber(writer, 4, [Number(CoderType(s))] + transitions);
    if status.Err? {
      return;
    }
    status := PutNumber(writer, CoderType(s), transitions);
    if status.Err? {
      return;
    }
    if HasCustomTransition(s) {
      status := WriteTransitions(writer, s.stateTransition);
    } else {
      NothingToWrite(writer.Value());
    }
  }

  method WriteFormat(writer: RangeEncoder, s: StreamParameters) returns (status: Status)
    requires writer.Valid() && writer.Writable()
    modifies writer
    ensures writer.Valid() && writer.Writable()
    ensures Wrote(old(writer.Value()), writer.Value(), status, FormatOps(s))
  {
    hide Number, Flag, WriteAll;
    ghost var last := [Flag(s.extraPlane)];
    ghost var vertical := [Number(s.log2VChromaSubsample)] + last;
    ghost var horizontal := [Number(s.log2HChromaSubsample)] + vertical;
    ghost var chroma := [Flag(s.chromaPlanes)] + horizontal;
    ghost var bits := [Number(s.bitsPerRawSample)] + chroma;
    assert FormatOps(s) == [Number(s.colorspaceType)] + bits;
    status := PutNumber(writer, s.colorspaceType, bits);
    if status.Err? {
      return;
    }
    status := PutNumber(writer, s.bitsPerRawSample, chroma);
    if status.Err? {
      return;
    }
    status := PutFlag(writer, s.chromaPlanes, horizontal);
    if status.Err? {
      return;
    }
    status := PutNumber(writer, s.log2HChromaSubsample, vertical);
    if status.Err? {
      return;
    }
    status := PutNumber(writer, s.log2VChromaSubsample, last);
    if status.Err? {
      return;
    }
    assert last + [] == last;
    status := PutFlag(writer, s.extraPlane, []);
    NothingToWrite(writer.Value());
  }

  method WriteGrid(writer: RangeEncoder, s: StreamParameters) returns (status: Status)
    requires writer.Valid() && writer.Writable() && 0 < s.numHSlices && 0 < s.numVSlices
    modifies writer
    ensures writer.Valid() && writer.Writable()
    ensures Wrote(old(writer.Value()), writer.Value(), status, GridOps(s))
  {
    hide Number, WriteAll;
    ghost var last := [Number(|s.quantTableSets|)];
    status := PutNumber(writer, s.numHSlices - 1, [Number(s.numVSlices - 1)] + last);
    if status.Err? {
      return;
    }
    status := PutNumber(writer, s.numVSlices - 1, last);
    if status.Err? {
      return;
    }
    assert last + [] == last;
    status := PutNumber(writer, |s.quantTableSets|, []);
    NothingToWrite(writer.Value());
  }

  method WriteSets(writer: RangeEncoder, sets: seq<QuantTableSet>) returns (status: Status)
    requires writer.Valid() && writer.Writable() && forall t <- sets :: IsTableSet(t)
    modifies writer
    ensures writer.Valid() && writer.Writable()
    ensures status.Ok? <==> Attempt(old(writer.Value()), SetsOps(sets, 0)).Some?
    ensures status.Ok? ==> Attempt(old(writer.Value()), SetsOps(sets, 0)) == Some(writer.Value())
  {
    hide SetOps;
    ghost var goal := Attempt(writer.Value(), SetsOps(sets, 0));
    for i := 0 to |sets|
      invariant writer.Valid() && writer.Writable()
      invariant Attempt(writer.Value(), SetsOps(sets, i)) == goal
    {
      assert sets[i] in sets;
      if SetOps(sets[i], 0, 1).Ok? {
        AttemptThen(writer.Value(), SetOps(sets[i], 0, 1).value, SetsOps(sets, i + 1));
      }
      status := WriteTableSet(writer, sets[i]);
      if status.Err? {
        return;
      }
    }
    status := Ok(());
  }

  method WriteContext(writer: RangeEncoder, current: ScalarStates, prediction: ScalarStates) returns (status: Status)
    requires writer.Valid() && writer.Writable()
    modifies writer
    ensures writer.Valid() && writer.Writable()
    ensures Wrote(old(writer.Value()), writer.Value(), status, ContextOps(current, prediction, 0))
  {
    hide SignedNumber;
    ghost var goal := WriteAll(writer.Value(), ContextOps(current, prediction, 0));
    for j := 0 to 32
      invariant writer.Valid() && writer.Writable()
      invariant WriteAll(writer.Value(), ContextOps(current, prediction, j)) == goal
    {
      var delta := current[j] as int - prediction[j];
      status := PutSigned(writer, j, delta, ContextOps(current, prediction, j + 1));
      if status.Err? {
        return;
      }
    }
    NothingToWrite(writer.Value());
    status := Ok(());
  }

  /** One set of initial states: whether it is coded, and its contexts. */
  method WriteStateSet(writer: RangeEncoder, contexts: InitialStateSet) returns (status: Status)
    requires writer.Valid() && writer.Writable()
    modifies writer
    ensures writer.Valid() && writer.Writable()
    ensures Wrote(old(writer.Value()), writer.Value(), status, StateSetOps(contexts))
  {
    hide ContextOps, FirstPrediction, Flag;
    ghost var goal := WriteAll(writer.Value(), StateSetOps(contexts));
    status := PutFlag(writer, contexts != [], ContextsOps(contexts, 0));
    if status.Err? {
      return;
    }
    for c := 0 to |contexts|
      invariant writer.Valid() && writer.Writable()
      invariant goal.Ok? ==> WriteAll(writer.Value(), ContextsOps(contexts, c)) == goal
      invariant goal.Err? ==> WriteAll(writer.Value(), ContextsOps(contexts, c)).Err?
    {
      var prediction := PredictionFor(contexts, c);
      WriteAllConcat(writer.Value(), ContextOps(contexts[c], prediction, 0), ContextsOps(contexts, c + 1));
      status := WriteContext(writer, contexts[c], prediction);
      if status.Err? {
        return;
      }
    }
    NothingToWrite(writer.Value());
    status := Ok(());
  }

  method WriteStates(writer: RangeEncoder, states: seq<InitialStateSet>) returns (status: Status)
    requires writer.Valid() && writer.Writable()
    modifies writer
    ensures writer.Valid() && writer.Writable()
    ensures Wrote(old(writer.Value()), writer.Value(), status, StatesOps(states, 0))
  {
    hide StateSetOps;
    ghost var goal := WriteAll(writer.Value(), StatesOps(states, 0));
    for i := 0 to |states|
      invariant writer.Valid() && writer.Writable()
      invariant goal.Ok? ==> WriteAll(writer.Value(), StatesOps(states, i)) == goal
      invariant goal.Err? ==> WriteAll(writer.Value(), StatesOps(states, i)).Err?
    {
      WriteAllConcat(writer.Value(), StateSetOps(states[i]), StatesOps(states, i + 1));
      status := WriteStateSet(writer, states[i]);
      if status.Err? {
        return;
      }
    }
    NothingToWrite(writer.Value());
    status := Ok(());
  }

  method WriteEnding(writer: RangeEncoder, s: StreamParameters) returns (status: Status)
    requires writer.Valid() && writer.Writable()
    modifies writer
    ensures writer.Valid() && writer.Writable()
    ensures Wrote(old(writer.Value()), writer.Value(), status, EndingOps(s))
  {
    hide Number, WriteAll;
    var ec: nat := if s.errorStatusEnabled then 1 else 0;
    var intra: nat := if s.intraOnly then 1 else 0;
    status := PutNumber(writer, ec, [Number(intra)]);
    if status.Err? {
      return;
    }
    assert [Number(intra)] + [] == [Number(intra)];
    status := PutNumber(writer, intra, []);
    NothingToWrite(writer.Value());
  }

  /** Stage by stage; the first refusal ends the record. */
  method WriteParameters(writer: RangeEncoder, s: StreamParameters) returns (status: Status)
    requires writer.Valid() && writer.Writable() && forall t <- s.quantTableSets :: IsTableSet(t)
    modifies writer
    ensures writer.Valid() && writer.Writable()
    ensures status.Ok? <==> Attempt(old(writer.Value()), ParameterOps(s)).Some?
    ensures status.Ok? ==> Attempt(old(writer.Value()), ParameterOps(s)) == Some(writer.Value())
  {
    hide HeadOps, FormatOps, GridOps, SetsOps, StatesOps, EndingOps, WriteAll, ProfileError;
    var refused := ProfileError(s);
    if refused.Some? {
      return Err(refused.value);
    }
    ProfileGrid(s);
    ghost var start := writer.Value();
    ParametersInStages(start, s);
    status := WriteHead(writer, s);
    if status.Err? {
      return;
    }
    status := WriteFormat(writer, s);
    if status.Err? {
      return;
    }
    status := WriteGrid(writer, s);
    if status.Err? {
      return;
    }
    status := WriteSets(writer, s.quantTableSets);
    if status.Err? {
      return;
    }
    status := WriteStates(writer, CodedStates(s));
    if status.Err? {
      return;
    }
    status := WriteEnding(writer, s);
  }

  lemma ProfileGrid(s: StreamParameters)
    requires ProfileError(s).None?
    ensures 0 < s.numHSlices && 0 < s.numVSlices
  {
  }

  lemma ParametersInStages(e: Encoder, s: StreamParameters)
    requires ProfileError(s).None? && 0 < s.numHSlices && 0 < s.numVSlices && forall t <- s.quantTableSets :: IsTableSet(t)
    ensures var grid := AndThen(AndThen(WriteAll(e, HeadOps(s)), FormatOps(s)), GridOps(s));
            Attempt(e, ParameterOps(s)) ==
            if grid.Err? || Attempt(grid.value, SetsOps(s.quantTableSets, 0)).None? then None
            else
              match AndThen(AndThen(Ok(Attempt(grid.value, SetsOps(s.quantTableSets, 0)).value), StatesOps(CodedStates(s), 0)), EndingOps(s))
              case Err(_) => None
              case Ok(last) => Some(last)
  {
    hide HeadOps, FormatOps, GridOps, SetsOps, StatesOps, EndingOps, WriteAll, ProfileError;
    if SetsOps(s.quantTableSets, 0).Ok? {
      var sets := SetsOps(s.quantTableSets, 0).value;
      var states, ending := StatesOps(CodedStates(s), 0), EndingOps(s);
      WriteAllConcat(e, HeadOps(s), FormatOps(s) + (GridOps(s) + (sets + (states + ending))));
      if WriteAll(e, HeadOps(s)).Ok? {
        var e1 := WriteAll(e, HeadOps(s)).value;
        WriteAllConcat(e1, FormatOps(s), GridOps(s) + (sets + (states + ending)));
        if WriteAll(e1, FormatOps(s)).Ok? {
          var e2 := WriteAll(e1, FormatOps(s)).value;
          WriteAllConcat(e2, GridOps(s), sets + (states + ending));
          if WriteAll(e2, GridOps(s)).Ok? {
            var e3 := WriteAll(e2, GridOps(s)).value;
            WriteAllConcat(e3, sets, states + ending);
            if WriteAll(e3, sets).Ok? {
              WriteAllConcat(WriteAll(e3, sets).value, states, ending);
            }
          }
        }
      }
    }
  }

  /** The record of a stream; it can be written exactly when the profile and the tables allow it. */
  method WriteRecord(s: StreamParameters) returns (r: Result<seq<byte>>, ghost body: seq<byte>)
    requires IsStoredStream(s) && forall t <- s.quantTableSets :: IsTableSet(t)
    ensures r.Ok? <==> ParameterOps(s).Ok?
    ensures r.Ok? ==> IsRecord(s, body, r.value)
  {
    hide ParameterOps, WriteAll, DefaultTransition, Build, BigEndian, Remainder, IsStored;
    body := [];
    RecordStartSteady();
    if ParameterOps(s).Ok? {
      ParametersWrite(s);
    }
    var writer := new RangeEncoder();
    var status := writer.Reset([RECORD_CONTEXTS], [], DEFAULT_STATE, DefaultTransition());
    if status.Err? {
      assert false;
    }
    status := WriteParameters(writer, s);
    if status.Err? {
      return Err(status.error), body;
    }
    var record := writer.Finalize();
    body := record.value;
    var crc := Crc32(record.value);
    r := Ok(record.value + BigEndian(crc));
  }
}
