// Coding and decoding one slice with the coder objects.

module SliceCoding {
  import opened Basics
  import opened Bits
  import opened RangeInterval
  import opened RangeSymbols
  import opened RangeContexts
  import opened RangeScript
  import opened RangeEncoding
  import opened RangeDecoding
  import opened RangeNumbers
  import opened StreamModel
  import SampleModel
  import opened SliceSchedule
  import opened SliceStates
  import opened GolombSlice
  import opened GolombContent
  import opened GolombSliceCoding
  import opened GolombSliceDecoding
  import opened RangeSlice
  import opened RangeSliceCoding
  import opened RangeSliceDecoding
  import opened SliceRaster
  import opened SliceHeader
  import opened SliceLayouts
  import opened RangeSliceCodec
  import opened GolombSliceCodec
  import opened CodableSlot

  /** Position, size, table choices, picture structure and aspect ratio. */
  method WriteHeader(writer: RangeEncoder, s: StreamParameters, v: HeaderValues) returns (status: Status)
    requires writer.Valid() && writer.Writable()
    modifies writer
    ensures writer.Valid() && writer.Writable()
    ensures status.Ok? <==> Attempt(old(writer.Value()), HeaderScript(s, v)).Some?
    ensures status.Ok? ==> Attempt(old(writer.Value()), HeaderScript(s, v)) == Some(writer.Value())
  {
    hide WriteAll, RasterStatus;
    status := RasterStatus(s, v);
    if status.Err? {
      return;
    }
    if |v.indexes| != QuantTableSetIndexCount(s) {
      return Err(InvalidArgument);
    }
    if (v.sarNum == 0) != (v.sarDen == 0) {
      return Err(InvalidArgument);
    }
    HeaderSized(s, v);
    status := WriteNumbers(writer, HeaderNumbers(v));
  }

  lemma HeaderSized(s: StreamParameters, v: HeaderValues)
    requires RasterStatus(s, v).Ok?
    ensures 0 < v.width && 0 < v.height
  {
  }

  /** The flag, in the first slice of a frame only, and the header. */
  method WriteDescription(writer: RangeEncoder, s: StreamParameters, v: HeaderValues, first: bool, keyframe: bool) returns (status: Status)
    requires writer.Valid() && writer.Writable()
    modifies writer
    ensures writer.Valid() && writer.Writable()
    ensures status.Ok? <==> Attempt(old(writer.Value()), DescriptionOps(s, v, first, keyframe)).Some?
    ensures status.Ok? ==> Attempt(old(writer.Value()), DescriptionOps(s, v, first, keyframe)) == Some(writer.Value())
  {
    hide WriteAll, HeaderScript, RangeScript.WriteBool, Build;
    ghost var start := writer.Value();
    DescriptionInSteps(start, s, v, first, keyframe);
    if first {
      status := writer.WriteBool(keyframe);
      if status.Err? {
        return;
      }
      status := writer.ReconfigureContexts([1], []);
      if status.Err? {
        return;
      }
    }
    status := WriteHeader(writer, s, v);
  }

  lemma DescriptionInSteps(e: Encoder, s: StreamParameters, v: HeaderValues, first: bool, keyframe: bool)
    ensures Attempt(e, DescriptionOps(s, v, first, keyframe)) ==
            if !first then Attempt(e, HeaderScript(s, v))
            else
              match RangeScript.WriteBool(e, keyframe)
              case Err(_) => None
              case Ok(e1) =>
                match Write(e1, Operation(ReconfigureRequest([1], []), 0))
                case Err(_) => None
                case Ok(e2) => Attempt(e2, HeaderScript(s, v))
  {
    hide HeaderScript, RangeScript.WriteBool, Build;
    if HeaderScript(s, v).Ok? {
      var header := HeaderScript(s, v).value;
      if first {
        var flag := Flag(keyframe);
        var setup := Operation(ReconfigureRequest([1], []), 0);
        assert OpeningOps(first, keyframe) + header == [flag] + ([setup] + header);
        WriteAllConcat(e, [flag], [setup] + header);
        WriteOne(e, flag);
        if Write(e, flag).Ok? {
          WriteAllConcat(Write(e, flag).value, [setup], header);
          WriteOne(Write(e, flag).value, setup);
        }
      } else {
        assert OpeningOps(first, keyframe) + header == header;
      }
    }
  }

  /** A slice state with fresh line buffers. */
  method FreshState(l: Layout) returns (state: SliceState)
    requires IsLayout(l)
    ensures fresh(state) && state.Fits(l) && state.Aboves() == FreshLines(l)
    ensures state.golombBanks == [] && state.golombRuns == []
  {
    state := new SliceState();
    var status := state.Reset(l.widths);
    assert status.Ok?;
    assert state.Aboves() == FreshLines(l);
  }

  /** Sets up the contexts and codes the samples. */
  method WriteSamples(writer: RangeEncoder, s: StreamParameters, v: HeaderValues, image: Planes, saved: seq<seq<ScalarStates>>)
    returns (status: Status)
    requires writer.Valid() && writer.Writable()
    requires IsSupported(s) && IsPlaced(s, v)
    modifies writer
    ensures writer.Valid() && writer.Writable()
    ensures status.Ok? <==> Attempt(old(writer.Value()), SampleOps(s, v, image, saved)).Some?
    ensures status.Ok? ==> Attempt(old(writer.Value()), SampleOps(s, v, image, saved)) == Some(writer.Value())
  {
    hide WriteAll, StartBanks, Build, IsPlaced, IsSupported, ContentOps, SliceLayout;
    ghost var start := writer.Value();
    SamplesInSteps(start, s, v, image, saved);
    var layout := SliceLayout(s, v);
    if layout.Err? {
      return Err(layout.error);
    }
    var l := layout.value;
    SliceLayoutFits(s, v);
    if !Shaped(l, image) {
      return Err(InvalidArgument);
    }
    var banks := StartBanks(s, v, saved);
    if banks.Err? {
      return Err(banks.error);
    }
    status := writer.ReconfigureContexts(Counts(s, v), banks.value);
    if status.Err? {
      return;
    }
    var state := FreshState(l);
    status := EncodeRangeSamples(writer, l, image, state);
  }

  lemma SamplesInSteps(e: Encoder, s: StreamParameters, v: HeaderValues, image: Planes, saved: seq<seq<ScalarStates>>)
    requires IsSupported(s) && IsPlaced(s, v)
    ensures SliceLayout(s, v).Ok? ==> IsLayout(SliceLayout(s, v).value)
    ensures Attempt(e, SampleOps(s, v, image, saved)) ==
            if SliceLayout(s, v).Err? || StartBanks(s, v, saved).Err? || !Shaped(SliceLayout(s, v).value, image)
               || !IsImage(SliceLayout(s, v).value, image) then None
            else
              match Write(e, Operation(ContentRequest(s, v, StartBanks(s, v, saved).value), 0))
              case Err(_) => None
              case Ok(e1) => Attempt(e1, ContentOps(SliceLayout(s, v).value, image))
  {
    hide StartBanks, ContentOps, Build, IsSupported, IsPlaced;
    if SliceLayout(s, v).Ok? {
      SliceLayoutFits(s, v);
      if SampleOps(s, v, image, saved).Ok? {
        var setup := Operation(ContentRequest(s, v, StartBanks(s, v, saved).value), 0);
        var content := ContentOps(SliceLayout(s, v).value, image).value;
        WriteAllConcat(e, [setup], content);
        WriteOne(e, setup);
      }
    }
  }

  lemma SliceStartIs(s: StreamParameters)
    ensures Build([1], [], DEFAULT_STATE).Ok?
    ensures SliceStart(s) == FreshEncoder(Build([1], [], DEFAULT_STATE).value, s.stateTransition)
  {
    HeaderContextsExist();
  }

  /** A slice in range mode, closed, without its footer; nothing is handed out on failure. */
  method EncodeRangeSlice(s: StreamParameters, v: HeaderValues, first: bool, keyframe: bool, image: Planes, saved: seq<seq<ScalarStates>>)
    returns (r: Result<seq<byte>>, next: seq<seq<ScalarStates>>, ghost c: RangeCoded)
    requires IsSupported(s) && IsPlaced(s, v)
    ensures r.Ok? ==> IsRangeCoded(s, v, first, keyframe, image, saved, c) && r.value == c.payload && next == Captured(c.final.contexts)
    ensures r.Ok? <==> RangeCodes(s, v, first, keyframe, image, saved)
  {
    hide Build, DescriptionOps, SampleOps, IsPlaced, IsSupported, WriteAll;
    next := saved;
    SliceStartIs(s);
    var writer := new RangeEncoder();
    c := RangeCoded(writer.Value(), writer.Value(), []);
    var status := writer.Reset([1], [], DEFAULT_STATE, s.stateTransition);
    if status.Err? {
      return Err(InvalidState), next, c;
    }
    status := WriteDescription(writer, s, v, first, keyframe);
    if status.Err? {
      return Err(status.error), next, c;
    }
    ghost var header := writer.Value();
    status := WriteSamples(writer, s, v, image, saved);
    if status.Err? {
      return Err(status.error), next, c;
    }
    ghost var final := writer.Value();
    var banks := writer.CopyContexts();
    var payload := writer.FinalizeClosed();
    if banks.Err? || payload.Err? {
      return Err(InvalidState), next, c;
    }
    c := RangeCoded(header, final, payload.value);
    r, next := payload, banks.value;
  }

  /** A slice in Golomb-Rice mode: the finalized description and the aligned content. */
  method EncodeGolombSlice(s: StreamParameters, v: HeaderValues, first: bool, keyframe: bool, image: Planes, saved: GolombSaved)
    returns (r: Result<seq<byte>>, next: GolombSaved, ghost c: GolombCoded)
    requires IsSupported(s) && IsPlaced(s, v) && s.entropyMode == GolombRiceMode
    ensures r.Ok? ==> IsGolombCoded(s, v, first, keyframe, image, saved, c) && r.value == PayloadOf(c) && next == Kept(c.final)
    ensures r.Ok? <==> GolombCodes(s, v, first, keyframe, image, saved)
  {
    hide Build, DescriptionOps, IsPlaced, IsSupported, WriteAll, SliceLayout, CodeContent, BitsOf, Prefix;
    next := saved;
    SliceStartIs(s);
    var writer := new RangeEncoder();
    c := GolombCoded(writer.Value(), [], [], GolombState([], [], []));
    var status := writer.Reset([1], [], DEFAULT_STATE, s.stateTransition);
    if status.Err? {
      return Err(InvalidState), next, c;
    }
    status := WriteDescription(writer, s, v, first, keyframe);
    if status.Err? {
      return Err(status.error), next, c;
    }
    ghost var header := writer.Value();
    var description := writer.Finalize();
    if description.Err? {
      return Err(InvalidState), next, c;
    }
    var layout := SliceLayout(s, v);
    if layout.Err? {
      return Err(layout.error), next, c;
    }
    var l := layout.value;
    SliceLayoutFits(s, v);
    if !Shaped(l, image) {
      return Err(InvalidArgument), next, c;
    }
    var content;
    content, next := EncodeGolombContent(l, image, saved);
    if content.Err? {
      return Err(content.error), saved, c;
    }
    c := GolombCoded(header, description.value, content.value, GolombState(FinalLines(l, image, saved), next.banks, next.runs));
    r := Ok(description.value + content.value);
  }

  /** The line buffers after the last row. */
  ghost function FinalLines(l: Layout, image: Planes, saved: GolombSaved): seq<SampleModel.Above>
    requires IsLayout(l) && Shaped(l, image)
  {
    PreparedFits(l, saved.banks, saved.runs);
    match Prepared(l, saved.banks, saved.runs)
    case Err(_) => []
    case Ok(start) => match CodeContent(l, image, start) case Err(_) => [] case Ok((_, final)) => final.lines
  }

  method EncodeGolombContent(l: Layout, image: Planes, saved: GolombSaved) returns (r: Result<seq<byte>>, next: GolombSaved)
    requires IsLayout(l) && Shaped(l, image)
    ensures r.Ok? <==> GolombContentCodes(l, image, saved)
    ensures r.Ok? ==>
              && IsImage(l, image)
              && var start := Prepared(l, saved.banks, saved.runs);
              && start.Ok? && IsGolombState(l, start.value)
              && IsContent(l, image, start.value, r.value, GolombState(FinalLines(l, image, saved), next.banks, next.runs))
  {
    hide CodeContent, BitsOf, IsLayout, IsImage;
    PreparedFits(l, saved.banks, saved.runs);
    var state := FreshState(l);
    state.golombBanks := saved.banks;
    state.golombRuns := saved.runs;
    assert state.Aboves() == FreshLines(l);
    r := EncodeContent(l, image, state);
    next := GolombSaved(state.golombBanks, state.golombRuns);
  }
}
