// Reading slice headers, and decoding one slice, with the decoder objects.

module SliceReading {
  import opened Basics
  import opened Bits
  import opened RangeInterval
  import opened RangeSymbols
  import opened RangeContexts
  import opened RangeScript
  import opened RangeDecoding
  import opened StreamModel
  import opened SliceSchedule
  import opened SliceStates
  import opened GolombSlice
  import opened GolombContent
  import opened GolombSliceDecoding
  import opened RangeSlice
  import opened RangeSliceDecoding
  import opened SliceRaster
  import opened SliceHeader
  import opened SliceLayouts
  import opened RangeSliceCodec
  import opened GolombSliceCodec
  import opened SliceCodec
  import opened SliceCoding

  method ParseRectangle(reader: RangeCoder, s: StreamParameters) returns (r: Result<Rect>)
    requires reader.Valid() && reader.initialized
    modifies reader
    ensures reader.Valid() && reader.initialized
    ensures match ReadRectangle(old(reader.Value()), s)
            case Err(error) => r == Err(error)
            case Ok((rect, d)) => r == Ok(rect) && reader.Value() == d
  {
    hide RangeScript.ReadUnsigned;
    var x := reader.ReadUnsigned();
    if x.Err? {
      return Err(x.error);
    }
    if x.value > s.numHSlices || x.value > UINT32_MAX {
      return Err(SyntaxError);
    }
    var y := reader.ReadUnsigned();
    if y.Err? {
      return Err(y.error);
    }
    if y.value > s.numVSlices || y.value > UINT32_MAX {
      return Err(SyntaxError);
    }
    var width := reader.ReadUnsigned();
    if width.Err? {
      return Err(width.error);
    }
    if width.value >= UINT32_MAX {
      return Err(SyntaxError);
    }
    var height := reader.ReadUnsigned();
    if height.Err? {
      return Err(height.error);
    }
    if height.value >= UINT32_MAX {
      return Err(SyntaxError);
    }
    if width.value + 1 > s.numHSlices - x.value || height.value + 1 > s.numVSlices - y.value {
      return Err(SyntaxError);
    }
    r := Ok(Rect(x.value, y.value, width.value + 1, height.value + 1));
  }

  method ParseIndexes(reader: RangeCoder, s: StreamParameters, count: nat) returns (r: Result<seq<nat>>)
    requires reader.Valid() && reader.initialized
    modifies reader
    ensures reader.Valid() && reader.initialized
    ensures match ReadIndexes(old(reader.Value()), s, [], count)
            case Err(error) => r == Err(error)
            case Ok((indexes, d)) => r == Ok(indexes) && reader.Value() == d
  {
    hide RangeScript.ReadUnsigned;
    var got: seq<nat> := [];
    ghost var goal := ReadIndexes(reader.Value(), s, [], count);
    for i := 0 to count
      invariant reader.Valid() && reader.initialized && |got| == i
      invariant ReadIndexes(reader.Value(), s, got, count) == goal
    {
      var index := reader.ReadUnsigned();
      if index.Err? {
        return Err(index.error);
      }
      if index.value > UINT32_MAX {
        return Err(SyntaxError);
      }
      if index.value >= |s.quantTableSets| {
        return Err(SyntaxError);
      }
      got := got + [index.value];
    }
    r := Ok(got);
  }

  method ParsePicture(reader: RangeCoder) returns (r: Result<(nat, nat, nat)>)
    requires reader.Valid() && reader.initialized
    modifies reader
    ensures reader.Valid() && reader.initialized
    ensures match ReadPicture(old(reader.Value()))
            case Err(error) => r == Err(error)
            case Ok((structure, num, den, d)) => r == Ok((structure, num, den)) && reader.Value() == d
  {
    hide RangeScript.ReadUnsigned;
    var structure := reader.ReadUnsigned();
    if structure.Err? {
      return Err(structure.error);
    }
    if structure.value > 3 {
      return Err(SyntaxError);
    }
    var num := reader.ReadUnsigned();
    if num.Err? {
      return Err(num.error);
    }
    var den := reader.ReadUnsigned();
    if den.Err? {
      return Err(den.error);
    }
    r := if num.value == 0 || den.value == 0 then Ok((structure.value, 0, 0)) else Ok((structure.value, num.value, den.value));
  }

  method ParseDescriptor(reader: RangeCoder, s: StreamParameters) returns (r: Result<HeaderValues>)
    requires reader.Valid() && reader.initialized
    modifies reader
    ensures reader.Valid() && reader.initialized
    ensures match ReadDescriptor(old(reader.Value()), s)
            case Err(error) => r == Err(error)
            case Ok((v, d)) => r == Ok(v) && reader.Value() == d
  {
    hide ReadRectangle, ReadIndexes, ReadPicture, RasterStatus;
    var rect := ParseRectangle(reader, s);
    if rect.Err? {
      return Err(rect.error);
    }
    var indexes := ParseIndexes(reader, s, QuantTableSetIndexCount(s));
    if indexes.Err? {
      return Err(indexes.error);
    }
    var picture := ParsePicture(reader);
    if picture.Err? {
      return Err(picture.error);
    }
    var v := HeaderValues(rect.value.x, rect.value.y, rect.value.width, rect.value.height, indexes.value,
                          picture.value.0, picture.value.1, picture.value.2);
    var status := RasterStatus(s, v);
    r := if status.Ok? then Ok(v) else Err(status.error);
  }

  /** The flag of a first slice, then the header. */
  method ParseDescription(reader: RangeCoder, s: StreamParameters, first: bool) returns (r: Result<(bool, HeaderValues)>)
    requires reader.Valid() && reader.initialized
    modifies reader
    ensures reader.Valid() && reader.initialized
    ensures match ReadDescription(old(reader.Value()), s, first)
            case Err(error) => r == Err(error)
            case Ok((keyframe, v, d)) => r == Ok((keyframe, v)) && reader.Value() == d
  {
    hide ReadDescriptor, RangeScript.ReadBool, Build;
    var keyframe := false;
    if first {
      FlagReadable(reader);
      var flag := reader.ReadBool();
      if flag.Err? {
        return Err(InvalidState);
      }
      keyframe := flag.value;
      if !keyframe && s.intraOnly {
        return Err(SyntaxError);
      }
      HeaderContextsExist();
      var status := reader.ReconfigureContexts([1], []);
      if status.Err? {
        return Err(InvalidState);
      }
    }
    var v := ParseDescriptor(reader, s);
    r := if v.Ok? then Ok((keyframe, v.value)) else Err(v.error);
  }

  lemma FlagReadable(reader: RangeCoder)
    requires reader.Valid() && reader.initialized
    ensures RangeScript.ReadBool(reader.Value()).Ok?
  {
    FirstContextExists(reader.contexts);
  }

  /** A reader at the beginning of a slice, moved past its description. */
  method OpenSlice(s: StreamParameters, bytes: seq<byte>, first: bool) returns (r: Result<Description>, reader: RangeCoder)
    ensures fresh(reader) && reader.Valid()
    ensures match Describe(s, bytes, first)
            case Err(error) => r == Err(error)
            case Ok((description, d)) => r == Ok(description) && reader.initialized && reader.Value() == d
  {
    hide ReadDescription, Build;
    HeaderContextsExist();
    reader := new RangeCoder();
    var status := reader.Reset(bytes, [1], [], DEFAULT_STATE, s.stateTransition);
    if status.Err? {
      return Err(status.error), reader;
    }
    var found := ParseDescription(reader, s, first);
    if found.Err? {
      return Err(found.error), reader;
    }
    r := Ok(Description(found.value.0, found.value.1, reader.bytePosition));
  }

  /** What the frame parser does with each located slice. */
  method DescribeBytes(s: StreamParameters, bytes: seq<byte>, first: bool) returns (r: Result<Description>)
    ensures r == DescribeSlice(s, bytes, first)
  {
    hide Describe;
    var reader;
    r, reader := OpenSlice(s, bytes, first);
    if r.Ok? && s.entropyMode == GolombRiceMode {
      var position := if reader.bytePosition != 0 && reader.low % 256 != 0 then reader.bytePosition - 1 else reader.bytePosition;
      r := Ok(r.value.(position := position));
    }
  }

  /** A slice in range mode: its description must be the expected one, then come its samples. */
  method DecodeRangeBytes(s: StreamParameters, payload: seq<byte>, first: bool, expected: Description, saved: seq<seq<ScalarStates>>)
    returns (r: Result<(Planes, seq<seq<ScalarStates>>)>)
    requires IsSupported(s) && IsPlaced(s, expected.header)
    ensures r == DecodeRangeSlice(s, payload, first, expected, saved)
  {
    hide Describe, SliceLayout, StartBanks, Build, DecodeRangeContent, IsSupported, IsPlaced;
    var found, reader := OpenSlice(s, payload, first);
    if found.Err? {
      return Err(found.error);
    }
    if found.value.header != expected.header || found.value.position != expected.position {
      return Err(SyntaxError);
    }
    var v := expected.header;
    var layout := SliceLayout(s, v);
    if layout.Err? {
      return Err(layout.error);
    }
    SliceLayoutFits(s, v);
    var banks := StartBanks(s, v, saved);
    if banks.Err? {
      return Err(banks.error);
    }
    var image := DecodeWith(reader, layout.value, Counts(s, v), banks.value);
    if image.Err? {
      return Err(image.error);
    }
    var contexts := reader.CopyContexts();
    r := Ok((image.value, contexts.value));
  }

  method DecodeWith(reader: RangeCoder, l: Layout, counts: seq<nat>, banks: seq<seq<ScalarStates>>) returns (r: Result<Planes>)
    requires reader.Valid() && reader.initialized && IsLayout(l)
    modifies reader
    ensures reader.Valid() && reader.initialized
    ensures match Read(old(reader.Value()), ReconfigureRequest(counts, banks))
            case Err(error) => r == Err(error)
            case Ok((_, d1)) =>
              match DecodeRangeContent(l, d1)
              case Err(error) => r == Err(error)
              case Ok((image, d2)) => r == Ok(image) && reader.Value() == d2
  {
    hide DecodeRangeContent;
    var built := RangeEncodingError(counts, banks);
    var status := reader.ReconfigureContexts(counts, banks);
    if status.Err? {
      return Err(built);
    }
    var state := FreshState(l);
    r := DecodeRangeSamples(reader, l, state);
  }

  /** The error of a refused set of banks. */
  function RangeEncodingError(counts: seq<nat>, banks: seq<seq<ScalarStates>>): ErrorCode {
    match Build(counts, banks, DEFAULT_STATE)
    case Err(error) => error
    case Ok(_) => InvalidState
  }

  /** A slice in Golomb-Rice mode, from a boundary to the footer. */
  method DecodeGolombFrom(s: StreamParameters, payload: seq<byte>, v: HeaderValues, boundary: nat, tolerant: bool, saved: GolombSaved)
    returns (r: Result<(Planes, GolombSaved)>)
    requires IsSupported(s) && IsPlaced(s, v)
    ensures r == DecodeFrom(s, payload, v, boundary, tolerant, saved)
  {
    hide SliceLayout, DecodeContent, IsSupported, IsPlaced;
    if |payload| <= boundary {
      return Err(SyntaxError);
    }
    var layout := SliceLayout(s, v);
    if layout.Err? {
      return Err(layout.error);
    }
    SliceLayoutFits(s, v);
    var l := layout.value;
    PreparedFits(l, saved.banks, saved.runs);
    var state := FreshState(l);
    state.golombBanks := saved.banks;
    state.golombRuns := saved.runs;
    assert state.Aboves() == FreshLines(l);
    var image := GolombSliceDecoding.DecodeSlice(l, payload[boundary..], state, tolerant);
    if image.Err? {
      return Err(image.error);
    }
    r := Ok((image.value, GolombSaved(state.golombBanks, state.golombRuns)));
  }

  /** The boundaries a slice in Golomb-Rice mode may start from, in the order they are tried. */
  method ContentCandidates(s: StreamParameters, payload: seq<byte>, position: nat) returns (candidates: seq<nat>)
    ensures candidates == if !CanReadAhead(payload, position) then [position]
                          else if PrefersReadAhead(s) then [position - 1, position] else [position, position - 1]
  {
    if 0 < position <= |payload| {
      var early := position - 1;
      if PrefersReadAhead(s) {
        candidates := [early, position];
      } else {
        candidates := [position, early];
      }
    } else {
      candidates := [position];
    }
  }

  /** Candidate after candidate, each from the same state; the first success counts, or else the
      first failure. */
  method DecodeGolombBytes(s: StreamParameters, payload: seq<byte>, description: Description, saved: GolombSaved)
    returns (r: Result<(Planes, GolombSaved)>)
    requires IsSupported(s) && IsPlaced(s, description.header)
    ensures r == DecodeGolombSlice(s, payload, description, saved)
  {
    hide DecodeFrom, IsSupported, IsPlaced;
    var v := description.header;
    if !CanReadAhead(payload, description.position) {
      r := DecodeGolombFrom(s, payload, v, description.position, false, saved);
      return;
    }
    var candidates := ContentCandidates(s, payload, description.position);
    assert |candidates| == 2;
    var firstError: Option<ErrorCode> := None;
    for i := 0 to |candidates|
      invariant firstError.None? <==> i == 0
      invariant forall k :: 0 <= k < i ==> DecodeFrom(s, payload, v, candidates[k], true, saved).Err?
      invariant 0 < i ==> DecodeFrom(s, payload, v, candidates[0], true, saved) == Err(firstError.value)
    {
      r := DecodeGolombFrom(s, payload, v, candidates[i], true, saved);
      if r.Ok? {
        assert i == 0 || i == 1;
        return;
      }
      if firstError.None? {
        firstError := Some(r.error);
      }
    }
    assert DecodeFrom(s, payload, v, candidates[1], true, saved).Err?;
    r := Err(firstError.value);
  }

  method DecodeBytes(s: StreamParameters, payload: seq<byte>, first: bool, description: Description, saved: Saved)
    returns (r: Result<(Planes, Saved)>)
    requires IsSupported(s) && IsPlaced(s, description.header)
    ensures r == SliceCodec.DecodeSlice(s, payload, first, description, saved)
  {
    hide DecodeRangeSlice, DecodeGolombSlice;
    if s.entropyMode == RangeMode {
      var range := DecodeRangeBytes(s, payload, first, description, saved.contexts);
      r := if range.Ok? then Ok((range.value.0, saved.(contexts := range.value.1))) else Err(range.error);
    } else {
      var golomb := DecodeGolombBytes(s, payload, description, saved.golomb);
      r := if golomb.Ok? then Ok((golomb.value.0, saved.(golomb := golomb.value.1))) else Err(golomb.error);
    }
  }
}
