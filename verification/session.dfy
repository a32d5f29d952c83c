// An encoder and a decoder that know of each other only what is sent: the configuration record,
// the frames, and the dimensions a container adds.

module Sessions {
  import opened Basics
  import opened RangeSymbols
  import opened RangeScript
  import opened StateTransition
  import opened SampleModel
  import opened StreamModel
  import opened SliceRaster
  import opened SliceCoverage
  import opened SliceSchedule
  import opened SliceHeader
  import opened SliceLayouts
  import opened GolombContent
  import opened CodableSlice
  import opened RangeSlice
  import opened RangeSliceCodec
  import opened GolombSliceCodec
  import opened SliceCodec
  import opened SliceFraming
  import opened FrameCodec
  import opened Configuration
  import opened ConfigurationRecord
  import opened EncoderProfile
  import opened FrameEncoding
  import opened FrameDecoding
  import opened FramePicture
  import opened SliceWrites
  import opened SliceGeometry
  import opened GolombRun
  import opened CodableSlot

  /** The same stream, once without initial states and once with empty ones. */
  predicate Alike(s: StreamParameters, t: StreamParameters) {
    && s.initialStates == [] && t == s.(initialStates := t.initialStates)
    && |t.initialStates| == |s.quantTableSets| && forall i :: 0 <= i < |t.initialStates| ==> t.initialStates[i] == []
  }

  lemma AlikeSupported(s: StreamParameters, t: StreamParameters, v: HeaderValues)
    requires Alike(s, t) && IsSupported(s)
    ensures IsSupported(t) && (IsPlaced(s, v) <==> IsPlaced(t, v)) && IsProfiled(s) == IsProfiled(t)
  {
  }

  lemma AlikeLayouts(s: StreamParameters, t: StreamParameters, v: HeaderValues)
    requires Alike(s, t) && IsPlaced(s, v) && IsPlaced(t, v)
    ensures TablesOf(s, v) == TablesOf(t, v) && SliceLayout(s, v) == SliceLayout(t, v)
  {
    hide RasterStatus;
    assert TablesOf(s, v) == TablesOf(t, v);
    assert LayoutOf(s, v).widths == LayoutOf(t, v).widths;
    assert LayoutOf(s, v).heights == LayoutOf(t, v).heights;
    assert LayoutOf(s, v).slots == LayoutOf(t, v).slots;
  }

  lemma AlikeStart(s: StreamParameters, t: StreamParameters, v: HeaderValues, saved: seq<seq<ScalarStates>>)
    requires Alike(s, t) && IsSupported(s) && IsSupported(t) && IsPlaced(s, v) && IsPlaced(t, v)
    ensures StartBanks(s, v, saved) == StartBanks(t, v, saved) && Counts(s, v) == Counts(t, v)
  {
    hide SliceLayout, TablesOf;
    AlikeLayouts(s, t, v);
    forall i | 0 <= i < |v.indexes|
      ensures v.indexes[i] < |s.quantTableSets|
    {
      assert v.indexes[i] in v.indexes;
    }
    assert CodedInitialBanks(s, v) == CodedInitialBanks(t, v);
    assert Counts(s, v) == Counts(t, v);
  }

  /** Slices are described and coded alike. */
  lemma AlikeCoded(s: StreamParameters, t: StreamParameters, v: HeaderValues, first: bool, keyframe: bool, image: Planes,
                   saved: Saved, payload: seq<byte>, next: Saved)
    requires Alike(s, t) && IsSupported(s)
    requires IsEncoded(s, v, first, keyframe, image, saved, payload, next)
    ensures IsEncoded(t, v, first, keyframe, image, saved, payload, next)
  {
    hide IsSupported, IsPlaced, WriteAll, StartBanks, CodeContent, Counts, SliceLayout;
    AlikeSupported(s, t, v);
    AlikeDescribed(s, t, v, first, keyframe);
    match s.entropyMode
    case RangeMode =>
      var c: RangeCoded :| AsRangeSlice(s, v, first, keyframe, image, saved, payload, next, c);
      AlikeSamples(s, t, v, image, saved.contexts);
      assert IsRangeCoded(t, v, first, keyframe, image, saved.contexts, c);
      assert AsRangeSlice(t, v, first, keyframe, image, saved, payload, next, c);
    case GolombRiceMode =>
      var c: GolombCoded :| AsGolombSlice(s, v, first, keyframe, image, saved, payload, next, c);
      AlikeLayouts(s, t, v);
      assert IsGolombCoded(t, v, first, keyframe, image, saved.golomb, c);
      assert AsGolombSlice(t, v, first, keyframe, image, saved, payload, next, c);
  }

  lemma AlikeDescribed(s: StreamParameters, t: StreamParameters, v: HeaderValues, first: bool, keyframe: bool)
    requires Alike(s, t)
    ensures SliceStart(s) == SliceStart(t) && DescriptionOps(s, v, first, keyframe) == DescriptionOps(t, v, first, keyframe)
    ensures HeaderCount(s, v, first, keyframe) == HeaderCount(t, v, first, keyframe)
  {
    hide WriteAll;
  }

  lemma AlikeSamples(s: StreamParameters, t: StreamParameters, v: HeaderValues, image: Planes, saved: seq<seq<ScalarStates>>)
    requires Alike(s, t) && IsSupported(s) && IsSupported(t) && IsPlaced(s, v) && IsPlaced(t, v)
    ensures SampleOps(s, v, image, saved) == SampleOps(t, v, image, saved)
  {
    hide IsSupported, IsPlaced, StartBanks, Counts, SliceLayout, ContentOps;
    AlikeLayouts(s, t, v);
    AlikeStart(s, t, v, saved);
  }

  /** Frames are coded alike, and have the same bytes. */
  lemma AlikeFrame(s: StreamParameters, t: StreamParameters, keyframe: bool, saved: seq<Saved>, f: FrameCoding)
    requires Alike(s, t) && IsFrameEncoded(s, keyframe, saved, f)
    ensures IsFrameEncoded(t, keyframe, saved, f) && FrameBytes(s, f) == FrameBytes(t, f)
    ensures 0 < s.numHSlices && (AllSurvive(s, keyframe, saved, f, 0) <==> AllSurvive(t, keyframe, saved, f, 0))
  {
    hide IsEncoded, StateBefore, Survives, Alike, Joined, CellHeader;
    AlikeCells(s, t);
    SupportedGrid(s);
    forall i: nat | i < |f.images|
      ensures IsSliceOf(t, keyframe, saved, f, i)
      ensures SliceSurvives(s, keyframe, saved, f, i) <==> SliceSurvives(t, keyframe, saved, f, i)
    {
      assert IsSliceOf(s, keyframe, saved, f, i);
      AlikeCoded(s, t, CellHeader(s, i), i == 0, keyframe, f.images[i], StateBefore(keyframe, saved, i), f.payloads[i], f.states[i]);
      AlikeSurvival(s, t, CellHeader(s, i), i == 0, keyframe, f.images[i], StateBefore(keyframe, saved, i), f.payloads[i], f.states[i]);
    }
  }

  lemma AlikeSurvival(s: StreamParameters, t: StreamParameters, v: HeaderValues, first: bool, keyframe: bool, image: Planes,
                      saved: Saved, payload: seq<byte>, next: Saved)
    requires Alike(s, t) && IsSupported(s)
    ensures Survives(s, v, first, keyframe, image, saved, payload, next) <==> Survives(t, v, first, keyframe, image, saved, payload, next)
  {
    hide IsSupported, IsPlaced, HeaderCount, DecodeContent, SliceLayout;
    AlikeDescribed(s, t, v, first, keyframe);
    AlikeSupported(s, t, v);
    if IsPlaced(s, v) {
      AlikeLayouts(s, t, v);
    }
  }

  lemma AlikeCells(s: StreamParameters, t: StreamParameters)
    requires Alike(s, t) && IsSupported(s)
    ensures IsSupported(t) && IsProfiled(s) == IsProfiled(t) && SliceCount(s) == SliceCount(t)
    ensures s.errorStatusEnabled == t.errorStatusEnabled && s.entropyMode == t.entropyMode && s.intraOnly == t.intraOnly
    ensures forall i: nat :: CellHeader(s, i) == CellHeader(t, i)
    ensures CellRects(s) == CellRects(t)
  {
  }

  lemma {:induction false} AlikeRun(s: StreamParameters, t: StreamParameters, steps: seq<Step>, saved: seq<Saved>)
    requires Alike(s, t) && IsSupported(s) && IsRun(s, steps, saved)
    ensures 0 < s.numHSlices
    ensures IsRun(t, steps, saved) && RunBytes(s, steps) == RunBytes(t, steps) && (RunSurvives(s, steps, saved) <==> RunSurvives(t, steps, saved))
    decreases |steps|
  {
    hide IsFrameEncoded, FrameBytes, AllSurvive, Alike, IsSupported;
    SupportedGrid(s);
    AlikeCells(s, t);
    if steps != [] {
      var f := steps[0].coding;
      AlikeFrame(s, t, steps[0].keyframe, saved, f);
      AlikeRun(s, t, steps[1..], f.states);
      assert RunBytes(s, steps) == [FrameBytes(s, f)] + RunBytes(s, steps[1..]);
      assert RunBytes(t, steps) == [FrameBytes(t, f)] + RunBytes(t, steps[1..]);
    }
  }

  /** The stream a decoder ends up with: the record's, with the dimensions of the container. */
  function ReceivedStream(s: StreamParameters): StreamParameters {
    WithDimensions(Normalized(s), s.width, s.height)
  }

  lemma ReceivedAlike(o: EncoderOptions, s: StreamParameters)
    requires IsProfileOf(o, s)
    ensures Alike(s, ReceivedStream(s))
  {
    hide DefaultTransition, ZeroTableSet, HasEmptyRegion, LimitsArea;
    assert ReadTable(s) == s.stateTransition;
  }

  /** Whatever calls succeeded and failed in between: a decoder that was given the encoder's record
      and is fed the frames of the successful calls returns their samples and holds, slice by slice,
      the encoder's own entropy states, if and only if every slice survives.  A slice cut into its
      header is refused, and so is a grid of more cells than 32 bits can count. */
  lemma DecoderFollows(e: FrameEncoder, verify: bool)
    requires e.Valid() && e.stream.Some?
    ensures var s := e.stream.value;
            && 0 < s.numHSlices
            && var t, survives := ReceivedStream(s), RunSurvives(s, e.history, []);
            && 0 < t.numHSlices
            && (s.entropyMode == GolombRiceMode && (!s.extraPlane || (s.numHSlices <= 1 && s.numVSlices <= 1)) ==> survives)
            && var decoded := DecodeRun(t, RunBytes(s, e.history), verify, NO_REFERENCE);
            && (e.history != [] && UINT32_MAX < SliceCount(s) ==> decoded == Err(ResourceExhausted))
            && (e.history == [] || SliceCount(s) <= UINT32_MAX ==>
                  && (InStep(t, e.history, verify, NO_REFERENCE) <==> survives)
                  && (survives ==> decoded == Ok((RunImages(e.history), Reference(e.sliceStates, e.sliceLayouts))))
                  && (!survives && s.entropyMode == RangeMode ==> decoded == Err(SyntaxError)))
  {
    hide IsRun, RunSurvives, InStep, DecodeRun, IsSupported, IsProfileOf, IsProfiled, FrameBytes, CellRects, DecodeFrame, SliceCount, Alike, ReceivedStream;
    var s, o := e.stream.value, e.options;
    var t := ReceivedStream(s);
    ProfileGuarantees(o, s);
    ReceivedAlike(o, s);
    AlikeCells(s, t);
    HistoryIsRun(s, e.history, o.keyframeInterval);
    AlikeRun(s, t, e.history, []);
    GolombRunSurvives(s, e.history, []);
    if e.history == [] {
      NoFrames(t, verify);
    } else if UINT32_MAX < SliceCount(s) {
      FirstFrameRefused(o, s, t, e.history, verify);
    } else {
      assert 0 % o.keyframeInterval == 0;
      RunDecodes(t, e.history, [], verify, NO_REFERENCE);
      if InStep(t, e.history, verify, NO_REFERENCE) {
        InStepDecodes(t, e.history, [], verify, NO_REFERENCE);
      }
    }
  }

  lemma NoFrames(t: StreamParameters, verify: bool)
    requires 0 < t.numHSlices
    ensures RunSurvives(t, [], []) && InStep(t, [], verify, NO_REFERENCE)
    ensures DecodeRun(t, RunBytes(t, []), verify, NO_REFERENCE) == Ok(([], NO_REFERENCE)) && RunImages([]) == []
  {
  }

  lemma FirstFrameRefused(o: EncoderOptions, s: StreamParameters, t: StreamParameters, steps: seq<Step>, verify: bool)
    requires IsProfileOf(o, s) && Alike(s, t) && UINT32_MAX < SliceCount(s)
    requires steps != [] && IsRun(s, steps, []) && RunBytes(s, steps) == RunBytes(t, steps)
    ensures DecodeRun(t, RunBytes(s, steps), verify, NO_REFERENCE) == Err(ResourceExhausted)
  {
    hide IsProfileOf, FrameBytes, DecodeFrame, IsSliceOf, SliceCount;
    ProfileGuarantees(o, s);
    SupportedGrid(s);
    AlikeCells(s, t);
    var f := steps[0].coding;
    assert f.payloads != [];
    JoinedNonEmpty(t, f);
    TooManySlices(t, FrameBytes(t, f), verify, NO_REFERENCE);
    assert RunBytes(t, steps)[0] == FrameBytes(t, f);
  }

  /** A picture an encoder should take: the stream's planes and depth, and in Golomb-Rice mode rows
      that a single run cannot outgrow. */
  predicate IsPresentable(s: StreamParameters, picture: Planes) {
    && IsPicture(s, picture)
    && (forall p, y :: 0 <= p < |picture| && 0 <= y < |picture[p]| ==> AllSamples(picture[p][y], s.bitsPerRawSample))
    && (s.entropyMode == GolombRiceMode ==> forall p :: 0 <= p < CodedPlaneCount(s) ==> PlaneWidth(s, p) < 0x100_0000)
  }

  /** Its slices are slice images, so the encoder codes it unless a slice outgrows its footer. */
  lemma PictureCut(o: EncoderOptions, s: StreamParameters, picture: Planes)
    requires IsProfileOf(o, s) && IsPresentable(s, picture)
    ensures IsSupported(s) && 0 < s.numHSlices && 0 < s.numVSlices
    ensures |CutFrame(s, picture)| == SliceCount(s) && ArePictures(s, CutFrame(s, picture))
  {
    hide IsProfileOf, IsPlain, IsSupported, SliceCount, IsPicture, CutFrame, IsPictureOf;
    ProfileGuarantees(o, s);
    PlainSupported(s);
    SupportedGrid(s);
    forall i | 0 <= i < SliceCount(s)
      ensures IsPictureOf(s, i, CutFrame(s, picture)[i])
    {
      CellPictured(o, s, picture, i);
    }
  }

  lemma PlainSupported(s: StreamParameters)
    requires IsPlain(s)
    ensures IsSupported(s)
  {
  }

  lemma LongestRun()
    ensures FullRun(RUN_INDEXES - 1) == 0x100_0000
  {
    assert Pow2(8) == 256;
    assert Pow2(16) == 0x1_0000;
  }

  lemma CellPictured(o: EncoderOptions, s: StreamParameters, picture: Planes, i: nat)
    requires IsProfileOf(o, s) && IsPresentable(s, picture) && IsSupported(s) && 0 < s.numHSlices && 0 < s.numVSlices && i < SliceCount(s)
    ensures IsPictureOf(s, i, CutFrame(s, picture)[i])
  {
    hide IsProfileOf, IsPlain, IsSupported, IsPlaced, CellHeader, PlaneWidth, PlaneHeight, Window, FullRun;
    CellsCodable(o, s, i);
    var v := CellHeader(s, i);
    CellInside(s, i);
    var image := CutFrame(s, picture)[i];
    assert image == CutSlice(s, picture, RectOf(v));
    LongestRun();
    SliceLayoutFits(s, v);
    SliceCutImage(s, v, picture);
  }

  lemma SliceCutImage(s: StreamParameters, v: HeaderValues, picture: Planes)
    requires IsPresentable(s, picture) && 0 < s.numHSlices && 0 < s.numVSlices && Inside(RectOf(v), s.numHSlices, s.numVSlices)
    requires IsPlaced(s, v) && IsLayout(LayoutOf(s, v))
    ensures IsImage(LayoutOf(s, v), CutSlice(s, picture, RectOf(v)))
    ensures forall p :: 0 <= p < CodedPlaneCount(s) ==> LayoutOf(s, v).widths[p] <= PlaneWidth(s, p)
  {
    hide IsPlaced, PlaneWidth, PlaneHeight, Window, IsLayout, TablesOf;
    var l, image := LayoutOf(s, v), CutSlice(s, picture, RectOf(v));
    forall p | 0 <= p < |image|
      ensures |image[p]| == l.heights[p] && l.widths[p] <= PlaneWidth(s, p)
      ensures forall y :: 0 <= y < |image[p]| ==> |image[p][y]| == l.widths[p] && AllSamples(image[p][y], l.bits)
    {
      WindowInside(s, p, RectOf(v));
      var w := Window(s, p, RectOf(v));
      assert image[p] == CutPlane(picture[p], w);
      forall y | 0 <= y < |image[p]|
        ensures |image[p][y]| == l.widths[p] && AllSamples(image[p][y], l.bits)
      {
        assert image[p][y] == picture[p][w.y + y][w.x..w.x + w.width];
        assert AllSamples(picture[p][w.y + y], l.bits);
      }
    }
  }

  /** From pictures to pictures: if the n-th frame an encoder coded was a picture cut into its cells,
      the decoder's n-th frame, in whatever order its slices were stored, shows that picture. */
  lemma PicturesFollow(e: FrameEncoder, verify: bool, n: nat, picture: Planes, trace: seq<Tagged>, p: nat, x: nat, y: nat)
    requires e.Valid() && e.stream.Some? && n < |e.history| && SliceCount(e.stream.value) <= UINT32_MAX
    requires RunSurvives(e.stream.value, e.history, [])
    requires 0 < e.stream.value.numVSlices && IsPicture(e.stream.value, picture)
    requires e.history[n].coding.images == CutFrame(e.stream.value, picture)
    requires var decoded := DecodeRun(ReceivedStream(e.stream.value), RunBytes(e.stream.value, e.history), verify, NO_REFERENCE);
             decoded.Ok? ==> |decoded.value.0| == |e.history|
                             && Interleaves(e.stream.value, CellRects(e.stream.value), decoded.value.0[n], trace)
    requires p < |picture| && y < |picture[p]| && x < |picture[p][y]|
    ensures DecodeRun(ReceivedStream(e.stream.value), RunBytes(e.stream.value, e.history), verify, NO_REFERENCE).Ok?
    ensures Stored(trace, p, x, y) == Some(picture[p][y][x])
  {
    hide IsSupported, IsProfileOf, SliceCount, RunSurvives, DecodeRun, RunBytes, ReceivedStream, CellRects, Interleaves, CutFrame, IsPicture, IsHistory, Stored;
    DecoderFollows(e, verify);
    assert RunImages(e.history)[n] == e.history[n].coding.images;
    CutReturns(e.stream.value, picture, trace, p, x, y);
  }
}
