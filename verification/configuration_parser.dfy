// Parsing the configuration record, symbol by symbol.

module ConfigurationParsing {
  import opened Basics
  import opened RangeInterval
  import opened RangeSymbols
  import opened RangeContexts
  import opened RangeScript
  import opened RangeDecoding
  import opened StateTransition
  import opened SampleModel
  import opened StreamModel
  import opened QuantTables
  import opened QuantTableCoding
  import opened SteadyCoding
  import opened Configuration
  import opened ConfigurationRecord
  import opened Crc

  /** A flag is always there to be read. */
  method GetFlag(reader: RangeCoder) returns (flag: bool)
    requires reader.Valid() && reader.initialized
    modifies reader
    ensures reader.Valid() && reader.initialized
    ensures RangeScript.ReadBool(old(reader.Value())) == Ok((flag, reader.Value()))
  {
    hide RangeScript.ReadBool;
    var r := reader.ReadBool();
    flag := r.value;
  }

  method ReadTransitions(reader: RangeCoder) returns (r: Result<Table>)
    requires reader.Valid() && reader.initialized
    modifies reader
    ensures reader.Valid() && reader.initialized
    ensures match ParseTransitions(old(reader.Value()), DefaultTransition(), 1)
            case Err(error) => r == Err(error)
            case Ok((table, d)) => r == Ok(table) && reader.Value() == d
  {
    hide RangeScript.ReadSymbol, DefaultTransition;
    var table := DefaultTransition();
    ghost var goal := ParseTransitions(reader.Value(), table, 1);
    for state := 1 to 256
      invariant reader.Valid() && reader.initialized
      invariant ParseTransitions(reader.Value(), table, state) == goal
    {
      var delta := reader.ReadSymbol(0, 0, true);
      if delta.Err? {
        return Err(delta.error);
      }
      var transition := table[state] as int + delta.value;
      if transition < 0 || transition > 255 {
        return Err(SyntaxError);
      }
      table := table[state := transition];
    }
    r := Ok(table);
  }

  method ReadVersion(reader: RangeCoder) returns (r: Result<(nat, nat)>)
    requires reader.Valid() && reader.initialized
    modifies reader
    ensures reader.Valid() && reader.initialized
    ensures match ParseVersion(old(reader.Value()))
            case Err(error) => r == Err(error)
            case Ok((version, micro, d)) => r == Ok((version, micro)) && reader.Value() == d
  {
    hide RangeScript.ReadUnsigned;
    var version := reader.ReadUnsigned();
    if version.Err? {
      return Err(version.error);
    }
    if version.value != 0 && version.value != 1 && version.value != 3 {
      return Err(UnsupportedFeature);
    }
    if version.value < 3 {
      return Ok((version.value, 0));
    }
    var micro := reader.ReadUnsigned();
    if micro.Err? {
      return Err(micro.error);
    }
    if micro.value > INT32_MAXIMUM {
      return Err(SyntaxError);
    }
    if micro.value < 4 {
      return Err(UnsupportedFeature);
    }
    r := Ok((version.value, micro.value));
  }

  method ReadHead(reader: RangeCoder) returns (r: Result<Head>)
    requires reader.Valid() && reader.initialized
    modifies reader
    ensures reader.Valid() && reader.initialized
    ensures match ParseHead(old(reader.Value()))
            case Err(error) => r == Err(error)
            case Ok((head, d)) => r == Ok(head) && reader.Value() == d
  {
    hide RangeScript.ReadUnsigned, DefaultTransition, ParseVersion, ParseTransitions;
    var version := ReadVersion(reader);
    if version.Err? {
      return Err(version.error);
    }
    var coder := reader.ReadUnsigned();
    if coder.Err? {
      return Err(coder.error);
    }
    if coder.value > 2 {
      return Err(UnsupportedFeature);
    }
    var table := DefaultTransition();
    if coder.value == 2 {
      var custom := ReadTransitions(reader);
      if custom.Err? {
        return Err(custom.error);
      }
      table := custom.value;
    }
    r := Ok(Head(version.value.0, version.value.1, if coder.value == 0 then GolombRiceMode else RangeMode, table));
  }

  method ReadSampleFormat(reader: RangeCoder, version: nat) returns (r: Result<(nat, nat)>)
    requires reader.Valid() && reader.initialized
    modifies reader
    ensures reader.Valid() && reader.initialized
    ensures match ParseSamples(old(reader.Value()), version)
            case Err(error) => r == Err(error)
            case Ok((colorspaceType, bits, d)) => r == Ok((colorspaceType, bits)) && reader.Value() == d
  {
    hide RangeScript.ReadUnsigned;
    var colorspaceType := reader.ReadUnsigned();
    if colorspaceType.Err? {
      return Err(colorspaceType.error);
    }
    if colorspaceType.value > INT32_MAXIMUM {
      return Err(SyntaxError);
    }
    if colorspaceType.value > 1 {
      return Err(UnsupportedFeature);
    }
    if version < 1 {
      return Ok((colorspaceType.value, 8));
    }
    var bits := reader.ReadUnsigned();
    if bits.Err? {
      return Err(bits.error);
    }
    if bits.value > 16 {
      return Err(UnsupportedFeature);
    }
    r := Ok((colorspaceType.value, if bits.value == 0 then 8 else bits.value));
  }

  method ReadFormat(reader: RangeCoder, version: nat) returns (r: Result<Format>)
    requires reader.Valid() && reader.initialized
    modifies reader
    ensures reader.Valid() && reader.initialized
    ensures match ParseFormat(old(reader.Value()), version)
            case Err(error) => r == Err(error)
            case Ok((format, d)) => r == Ok(format) && reader.Value() == d
  {
    hide RangeScript.ReadUnsigned, ParseSamples, RangeScript.ReadBool;
    var samples := ReadSampleFormat(reader, version);
    if samples.Err? {
      return Err(samples.error);
    }
    var chroma := GetFlag(reader);
    var log2H := reader.ReadUnsigned();
    if log2H.Err? {
      return Err(log2H.error);
    }
    if log2H.value > 255 {
      return Err(SyntaxError);
    }
    var log2V := reader.ReadUnsigned();
    if log2V.Err? {
      return Err(log2V.error);
    }
    if log2V.value > 255 {
      return Err(SyntaxError);
    }
    var extra := GetFlag(reader);
    var (colorspaceType, bits) := samples.value;
    if HasInvalidRgbGeometry(colorspaceType == 1, chroma, log2H.value, log2V.value) {
      return Err(SyntaxError);
    }
    r := Ok(Format(colorspaceType, bits, chroma, log2H.value, log2V.value, extra));
  }

  method ReadGrid(reader: RangeCoder, version: nat) returns (r: Result<(nat, nat, nat)>)
    requires reader.Valid() && reader.initialized
    modifies reader
    ensures reader.Valid() && reader.initialized
    ensures match ParseGrid(old(reader.Value()), version)
            case Err(error) => r == Err(error)
            case Ok((h, v, count, d)) => r == Ok((h, v, count)) && reader.Value() == d
  {
    hide RangeScript.ReadUnsigned;
    if version < 3 {
      return Ok((1, 1, 1));
    }
    var h := reader.ReadUnsigned();
    if h.Err? {
      return Err(h.error);
    }
    if h.value >= UINT32_LIMIT {
      return Err(SyntaxError);
    }
    var v := reader.ReadUnsigned();
    if v.Err? {
      return Err(v.error);
    }
    if v.value >= UINT32_LIMIT {
      return Err(SyntaxError);
    }
    var count := reader.ReadUnsigned();
    if count.Err? {
      return Err(count.error);
    }
    if count.value == 0 || count.value > 8 {
      return Err(SyntaxError);
    }
    r := Ok((h.value + 1, v.value + 1, count.value));
  }

  method ReadSets(reader: RangeCoder, count: nat) returns (r: Result<seq<QuantTableSet>>)
    requires reader.Valid() && reader.initialized
    modifies reader
    ensures reader.Valid() && reader.initialized
    ensures match ParseSets(old(reader.Value()), [], count)
            case Err(_) => r.Err?
            case Ok((sets, d)) => r == Ok(sets) && reader.Value() == d
  {
    hide ParseSet;
    var got: seq<QuantTableSet> := [];
    ghost var goal := ParseSets(reader.Value(), [], count);
    for i := 0 to count
      invariant reader.Valid() && reader.initialized && |got| == i
      invariant goal.Ok? ==> ParseSets(reader.Value(), got, count) == goal
      invariant goal.Err? ==> ParseSets(reader.Value(), got, count).Err?
    {
      var t := ReadTableSet(reader);
      if t.Err? {
        return Err(t.error);
      }
      got := got + [t.value];
    }
    r := Ok(got);
  }

  method ReadContext(reader: RangeCoder, prediction: ScalarStates) returns (r: Result<ScalarStates>)
    requires reader.Valid() && reader.initialized
    modifies reader
    ensures reader.Valid() && reader.initialized
    ensures match ParseContext(old(reader.Value()), prediction, [])
            case Err(error) => r == Err(error)
            case Ok((context, d)) => r == Ok(context) && reader.Value() == d
  {
    hide RangeScript.ReadSymbol;
    var got: seq<byte> := [];
    ghost var goal := ParseContext(reader.Value(), prediction, []);
    for j := 0 to 32
      invariant reader.Valid() && reader.initialized && |got| == j
      invariant ParseContext(reader.Value(), prediction, got) == goal
    {
      var delta := reader.ReadSymbol(0, j, true);
      if delta.Err? {
        return Err(delta.error);
      }
      // Octet arithmetic: the sum counts modulo 256.
      got := got + [(prediction[j] as int + delta.value) % 256];
    }
    r := Ok(got);
  }

  method ReadContexts(reader: RangeCoder, count: nat) returns (r: Result<InitialStateSet>)
    requires reader.Valid() && reader.initialized
    modifies reader
    ensures reader.Valid() && reader.initialized
    ensures match ParseContexts(old(reader.Value()), NO_STATES, count)
            case Err(error) => r == Err(error)
            case Ok((contexts, d)) => r == Ok(contexts) && reader.Value() == d
  {
    hide ParseContext, FirstPrediction;
    var got: InitialStateSet := NO_STATES;
    ghost var goal := ParseContexts(reader.Value(), got, count);
    for c := 0 to count
      invariant reader.Valid() && reader.initialized && |got| == c
      invariant ParseContexts(reader.Value(), got, count) == goal
    {
      var context := ReadContext(reader, PredictionFor(got, c));
      if context.Err? {
        return Err(context.error);
      }
      got := got + [context.value];
    }
    r := Ok(got);
  }

  method ReadStates(reader: RangeCoder, sets: seq<QuantTableSet>) returns (r: Result<seq<InitialStateSet>>)
    requires reader.Valid() && reader.initialized
    modifies reader
    ensures reader.Valid() && reader.initialized
    ensures match ParseStates(old(reader.Value()), sets, [])
            case Err(error) => r == Err(error)
            case Ok((states, d)) => r == Ok(states) && reader.Value() == d
  {
    hide ParseContexts, RangeScript.ReadBool;
    var got: seq<InitialStateSet> := [];
    ghost var goal := ParseStates(reader.Value(), sets, []);
    for i := 0 to |sets|
      invariant reader.Valid() && reader.initialized && |got| == i
      invariant ParseStates(reader.Value(), sets, got) == goal
    {
      var coded := GetFlag(reader);
      var contexts: InitialStateSet := NO_STATES;
      if coded {
        var found := ReadContexts(reader, sets[i].contextCount);
        if found.Err? {
          return Err(found.error);
        }
        contexts := found.value;
      }
      got := got + [contexts];
    }
    r := Ok(got);
  }

  method ReadEnding(reader: RangeCoder) returns (r: Result<(bool, bool)>)
    requires reader.Valid() && reader.initialized
    modifies reader
    ensures reader.Valid() && reader.initialized
    ensures match ParseEnding(old(reader.Value()))
            case Err(error) => r == Err(error)
            case Ok((ec, intra, d)) => r == Ok((ec, intra)) && reader.Value() == d
  {
    hide RangeScript.ReadUnsigned;
    var ec := reader.ReadUnsigned();
    if ec.Err? {
      return Err(ec.error);
    }
    if ec.value > 1 {
      return Err(UnsupportedFeature);
    }
    var intra := reader.ReadUnsigned();
    if intra.Err? {
      return Err(intra.error);
    }
    if intra.value > 1 {
      return Err(UnsupportedFeature);
    }
    r := Ok((ec.value == 1, intra.value == 1));
  }

  method ReadTail(reader: RangeCoder, version: nat, sets: seq<QuantTableSet>) returns (r: Result<(seq<InitialStateSet>, bool, bool)>)
    requires reader.Valid() && reader.initialized
    modifies reader
    ensures reader.Valid() && reader.initialized
    ensures match ParseTail(old(reader.Value()), version, sets)
            case Err(error) => r == Err(error)
            case Ok((states, ec, intra, d)) => r == Ok((states, ec, intra)) && reader.Value() == d
  {
    hide ParseStates, ParseEnding;
    if version < 3 {
      return Ok(([], false, false));
    }
    var states := ReadStates(reader, sets);
    if states.Err? {
      return Err(states.error);
    }
    var ending := ReadEnding(reader);
    r := if ending.Ok? then Ok((states.value, ending.value.0, ending.value.1)) else Err(ending.error);
  }

  /** The whole configuration; on success the reader is left with the stream's transition table. */
  method ReadParameters(reader: RangeCoder) returns (r: Result<StreamParameters>)
    requires reader.Valid() && reader.initialized
    requires reader.table == DefaultTransition()
    modifies reader
    ensures reader.Valid() && reader.initialized
    ensures match ParseParameters(old(reader.Value()))
            case Err(_) => r.Err?
            case Ok((s, d)) => r == Ok(s) && reader.Value() == d.(table := s.stateTransition)
  {
    hide ParseHead, ParseFormat, ParseGrid, ParseSets, ParseTail, DefaultTransition;
    var head := ReadHead(reader);
    if head.Err? {
      return Err(head.error);
    }
    var format := ReadFormat(reader, head.value.version);
    if format.Err? {
      return Err(format.error);
    }
    var grid := ReadGrid(reader, head.value.version);
    if grid.Err? {
      return Err(grid.error);
    }
    var sets := ReadSets(reader, grid.value.2);
    if sets.Err? {
      return Err(sets.error);
    }
    var tail := ReadTail(reader, head.value.version, sets.value);
    if tail.Err? {
      return Err(tail.error);
    }
    var _ := reader.SetStateTransition(head.value.table);
    var f := format.value;
    r := Ok(StreamParameters(head.value.version, head.value.microVersion, head.value.mode, 0, 0, f.bits, f.colorspaceType, f.chroma,
                             f.extra, f.log2H, f.log2V, grid.value.0, grid.value.1, sets.value, tail.value.0, head.value.table,
                             tail.value.1, tail.value.2));
  }

  /** A reader at the beginning of a record or of its parameters. */
  method OpenRecord(bytes: seq<byte>, count: nat) returns (r: Status, reader: RangeCoder)
    requires 1 <= count <= MAX_SCALAR_CONTEXTS
    ensures fresh(reader) && reader.Valid()
    ensures RecordContexts(count).Ok?
    ensures if |bytes| < 2 then r == Err(SyntaxError)
            else r == Ok(()) && reader.initialized
                 && reader.Value() == FreshDecoder(bytes, RecordContexts(count).value, DefaultTransition())
  {
    hide Build, DefaultTransition;
    OneBankBuilds(count);
    reader := new RangeCoder();
    r := reader.Reset(bytes, [count], [], DEFAULT_STATE, DefaultTransition());
  }

  /** Strips the parity of a version 3 record after checking it. */
  method StripParity(record: seq<byte>) returns (r: Result<seq<byte>>)
    ensures r == ParameterPayload(record)
  {
    hide RangeScript.ReadUnsigned, DefaultTransition, Remainder, Build;
    var status, probe := OpenRecord(record, 1);
    if status.Err? {
      return Err(status.error);
    }
    var version := probe.ReadUnsigned();
    if version.Err? {
      return Err(version.error);
    }
    if version.value < 3 {
      return Ok(record);
    }
    if |record| < PARITY_SIZE {
      return Err(SyntaxError);
    }
    var crc := Crc32(record);
    if crc != ZERO {
      return Err(CrcMismatch);
    }
    r := Ok(record[..|record| - PARITY_SIZE]);
  }

  method ReadRecord(record: seq<byte>) returns (r: Result<StreamParameters>)
    ensures match ParseRecord(record)
            case Err(_) => r.Err?
            case Ok(s) => r == Ok(s)
  {
    hide ParameterPayload, ParseParameters, DefaultTransition, Build;
    if |record| == 0 {
      return Err(InvalidArgument);
    }
    var payload := StripParity(record);
    if payload.Err? {
      return Err(payload.error);
    }
    var status, reader := OpenRecord(payload.value, RECORD_CONTEXTS);
    if status.Err? {
      return Err(status.error);
    }
    r := ReadParameters(reader);
  }
}
