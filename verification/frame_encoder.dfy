// The encoder: keyframe cadence, reference states per slice, and frames put together from slices.

module FrameEncoding {
  import opened Basics
  import opened StreamModel
  import opened SliceSchedule
  import opened SliceHeader
  import opened SliceLayouts
  import opened SliceRaster
  import opened RangeSliceCodec
  import opened GolombSliceCodec
  import opened SliceCodec
  import opened SliceCoding
  import opened SliceFraming
  import opened FrameCodec
  import opened CodableSlice
  import opened CodableSlot
  import opened Configuration
  import opened ConfigurationRoundTrip
  import opened ConfigurationRecord
  import opened ConfigurationWriting
  import opened EncoderProfile
  import opened SampleModel

  /** The coders accept the samples of the i-th cell. */
  ghost predicate CellCodes(s: StreamParameters, keyframe: bool, saved: seq<Saved>, i: nat, image: Planes)
    requires IsSupported(s) && 0 < s.numHSlices
  {
    IsPlaced(s, CellHeader(s, i)) && SlotCodes(s, CellHeader(s, i), i == 0, keyframe, image, StateBefore(keyframe, saved, i))
  }

  /** The samples of the i-th cell take more bytes than a footer can tell. */
  ghost predicate Outgrows(s: StreamParameters, keyframe: bool, saved: seq<Saved>, i: nat, image: Planes)
    requires 0 < s.numHSlices
  {
    exists payload, next :: IsTooLong(s, keyframe, saved, i, image, payload, next)
  }

  ghost predicate IsTooLong(s: StreamParameters, keyframe: bool, saved: seq<Saved>, i: nat, image: Planes, payload: seq<byte>, next: Saved)
    requires 0 < s.numHSlices
  {
    && IsEncoded(s, CellHeader(s, i), i == 0, keyframe, image, StateBefore(keyframe, saved, i), payload, next)
    && MAXIMUM_SLICE_SIZE < |payload|
  }

  /** Codes one slice of the grid from its own state. */
  method EncodeSlot(s: StreamParameters, keyframe: bool, i: nat, image: Planes, saved: seq<Saved>)
    returns (r: Result<seq<byte>>, next: Saved)
    requires IsSupported(s) && i < SliceCount(s)
    ensures 0 < s.numHSlices
    ensures r.Ok? ==> IsEncoded(s, CellHeader(s, i), i == 0, keyframe, image, StateBefore(keyframe, saved, i), r.value, next)
    ensures r.Ok? ==> |r.value| <= MAXIMUM_SLICE_SIZE
    ensures r.Err? && CellCodes(s, keyframe, saved, i, image) ==>
              r.error == ResourceExhausted && Outgrows(s, keyframe, saved, i, image)
  {
    hide IsRangeCoded, IsGolombCoded, IsSupported, CellHeader, SliceCount, RasterStatus, RangeCodes, GolombCodes;
    var start := StateBefore(keyframe, saved, i);
    next := start;
    SupportedGrid(s);
    var v := CellHeader(s, i);
    CellIndexed(s, i);
    var status := RasterStatus(s, v);
    if status.Err? {
      return Err(status.error), next;
    }
    if s.entropyMode == RangeMode {
      var payload, contexts, c := EncodeRangeSlice(s, v, i == 0, keyframe, image, start.contexts);
      if payload.Err? {
        return payload, next;
      }
      r, next := payload, start.(contexts := contexts);
      assert AsRangeSlice(s, v, i == 0, keyframe, image, start, r.value, next, c);
    } else {
      var payload, golomb, c := EncodeGolombSlice(s, v, i == 0, keyframe, image, start.golomb);
      if payload.Err? {
        return payload, next;
      }
      r, next := payload, start.(golomb := golomb);
      assert AsGolombSlice(s, v, i == 0, keyframe, image, start, r.value, next, c);
    }
    if |r.value| > MAXIMUM_SLICE_SIZE {
      assert IsTooLong(s, keyframe, saved, i, image, r.value, next);
      r := Err(ResourceExhausted);
    }
  }

  lemma CellIndexed(s: StreamParameters, i: nat)
    requires IsSupported(s)
    ensures |CellHeader(s, i).indexes| == QuantTableSetIndexCount(s)
  {
  }

  /** Codes every slice from its own state. */
  method EncodeSlots(s: StreamParameters, keyframe: bool, images: seq<Planes>, saved: seq<Saved>)
    returns (r: Status, payloads: seq<seq<byte>>, next: seq<Saved>)
    requires IsSupported(s) && |images| == SliceCount(s) && (keyframe || |saved| == SliceCount(s))
    ensures 0 < s.numHSlices
    ensures r.Ok? ==> IsFrameEncoded(s, keyframe, saved, FrameCoding(images, payloads, next))
    ensures r.Err? && AllCode(s, keyframe, saved, images) ==>
              r.error == ResourceExhausted && SomeOutgrows(s, keyframe, saved, images)
  {
    hide IsEncoded, IsSupported, CellHeader, SliceCount, StateBefore, CellCodes, Outgrows;
    payloads, next := [], [];
    SupportedGrid(s);
    for i := 0 to |images|
      invariant |payloads| == i && |next| == i
      invariant forall k :: 0 <= k < i ==> |payloads[k]| <= MAXIMUM_SLICE_SIZE
      invariant forall k: nat :: k < i ==>
        IsEncoded(s, CellHeader(s, k), k == 0, keyframe, images[k], StateBefore(keyframe, saved, k), payloads[k], next[k])
    {
      var payload, state := EncodeSlot(s, keyframe, i, images[i], saved);
      if payload.Err? {
        return Err(payload.error), payloads, next;
      }
      payloads, next := payloads + [payload.value], next + [state];
    }
    r := Ok(());
    Gathered(s, keyframe, saved, FrameCoding(images, payloads, next));
  }

  lemma Gathered(s: StreamParameters, keyframe: bool, saved: seq<Saved>, f: FrameCoding)
    requires IsSupported(s) && 0 < s.numHSlices
    requires |f.images| == SliceCount(s) && |f.payloads| == SliceCount(s) && |f.states| == SliceCount(s)
    requires keyframe || |saved| == SliceCount(s)
    requires forall k :: 0 <= k < |f.payloads| ==> |f.payloads[k]| <= MAXIMUM_SLICE_SIZE
    requires forall k: nat :: k < |f.payloads| ==>
      IsEncoded(s, CellHeader(s, k), k == 0, keyframe, f.images[k], StateBefore(keyframe, saved, k), f.payloads[k], f.states[k])
    ensures IsFrameEncoded(s, keyframe, saved, f)
  {
    hide IsEncoded, IsSupported, CellHeader, SliceCount, StateBefore;
  }

  /** Appends the footers and joins the slices. */
  method JoinSlices(s: StreamParameters, ghost f: FrameCoding, payloads: seq<seq<byte>>) returns (frame: seq<byte>)
    requires payloads == f.payloads && forall k :: 0 <= k < |payloads| ==> |payloads[k]| <= MAXIMUM_SLICE_SIZE
    ensures frame == FrameBytes(s, f)
  {
    hide Footered;
    frame := [];
    ghost var slices := FramedSlices(f);
    assert slices[..0] == [];
    for i := 0 to |payloads|
      invariant frame == Joined(s.errorStatusEnabled, slices[..i])
    {
      var slice := AppendFooter(s.errorStatusEnabled, 0, payloads[i]);
      assert slices[..i + 1][..i] == slices[..i];
      frame := frame + slice.value;
    }
    assert slices[..|payloads|] == slices;
  }

  /** The n-th frame since the encoder was configured, counting successes only, is a keyframe
      exactly when the interval divides n. */
  ghost predicate KeepsCadence(history: seq<Step>, interval: nat)
    requires 0 < interval
  {
    forall n :: 0 <= n < |history| ==> (history[n].keyframe <==> n % interval == 0)
  }

  /** Frames encoded one after the other. */
  ghost predicate IsHistory(s: StreamParameters, history: seq<Step>)
    decreases |history|
  {
    history == [] ||
    (var n := |history| - 1;
     && IsHistory(s, history[..n])
     && IsFrameEncoded(s, history[n].keyframe, LastStates(history[..n], []), history[n].coding))
  }

  /** Pictures of the right shape and depth for every cell, and no row too long for run mode. */
  ghost predicate ArePictures(s: StreamParameters, images: seq<Planes>)
    requires IsSupported(s) && 0 < s.numHSlices
  {
    forall i :: 0 <= i < |images| ==> IsPictureOf(s, i, images[i])
  }

  ghost predicate AllCode(s: StreamParameters, keyframe: bool, saved: seq<Saved>, images: seq<Planes>)
    requires IsSupported(s) && 0 < s.numHSlices
  {
    forall i :: 0 <= i < |images| ==> CellCodes(s, keyframe, saved, i, images[i])
  }

  ghost predicate SomeOutgrows(s: StreamParameters, keyframe: bool, saved: seq<Saved>, images: seq<Planes>)
    requires 0 < s.numHSlices
  {
    exists i :: 0 <= i < |images| && Outgrows(s, keyframe, saved, i, images[i])
  }

  ghost predicate IsPictureOf(s: StreamParameters, i: nat, image: Planes)
    requires IsSupported(s) && 0 < s.numHSlices
  {
    && IsPlaced(s, CellHeader(s, i))
    && IsSliceImage(s, CellHeader(s, i), image) && HasShortRows(s, CellHeader(s, i))
  }

  class FrameEncoder {
    const options: EncoderOptions
    var stream: Option<StreamParameters>
    var nextFrameIndex: nat
    var sliceStates: seq<Saved>
    var sliceLayouts: seq<Rect>
    ghost var history: seq<Step>

    /** Between calls: the index counts the successful frames, the cadence was kept, and the
        reference states are those of the last one. */
    ghost predicate Valid()
      reads this
    {
      && 0 < options.keyframeInterval
      && |history| == nextFrameIndex
      && KeepsCadence(history, options.keyframeInterval)
      && match stream
         case None => history == [] && sliceStates == [] && sliceLayouts == []
         case Some(s) =>
           && IsProfileOf(options, s) && IsSupported(s) && 0 < s.numHSlices && (s.intraOnly <==> options.keyframeInterval == 1)
           && IsHistory(s, history)
           && sliceStates == LastStates(history, [])
           && sliceLayouts == (if history == [] then [] else CellRects(s))
           && (history != [] ==> |sliceStates| == SliceCount(s))
    }

    constructor (o: EncoderOptions)
      requires 0 < o.keyframeInterval
      ensures Valid() && stream == None && options == o && history == []
    {
      options, stream, nextFrameIndex := o, None, 0;
      sliceStates, sliceLayouts, history := [], [], [];
    }

    /** Takes every stream the profile lets through, hands out its record, and starts anew; what the
        profile refuses changes nothing. */
    method Configure(info: StreamInfo) returns (r: Result<seq<byte>>)
      requires Valid()
      modifies this
      ensures Valid()
      ensures r.Ok? <==> NormalizeEncoderProfile(options, info).Ok?
      ensures r.Err? ==> unchanged(this)
      ensures r.Ok? ==>
                && stream == Some(NormalizeEncoderProfile(options, info).value) && history == [] && nextFrameIndex == 0
                && ParseRecord(r.value) == Ok(Normalized(stream.value))
    {
      hide NormalizeEncoderProfile, IsSupported, ParseRecord, IsRecord, IsStoredStream, ParameterOps;
      var normalized := NormalizeEncoderProfile(options, info);
      if normalized.Err? {
        return Err(normalized.error);
      }
      var s := normalized.value;
      assert IsProfileOf(options, s);
      ProfileGuarantees(options, s);
      SupportedGrid(s);
      RecordCodable(options, s);
      var record, body := WriteRecord(s);
      assert record.Ok?;
      RecordReadsBack(s, body, record.value);
      stream, nextFrameIndex := Some(s), 0;
      sliceStates, sliceLayouts, history := [], [], [];
      r := record;
    }

    /** Codes the next frame.  A failure changes nothing: neither the index nor the references.  A
        picture of the stream fails only if one of its slices outgrows the footer's size field. */
    method EncodeFrame(images: seq<Planes>) returns (r: Result<seq<byte>>)
      requires Valid()
      modifies this
      ensures Valid() && stream == old(stream)
      ensures stream.None? ==> r == Err(InvalidState)
      ensures r.Err? ==> unchanged(this)
      ensures r.Ok? ==>
                && stream.Some? && nextFrameIndex == old(nextFrameIndex) + 1
                && |history| == |old(history)| + 1 && history[..|old(history)|] == old(history)
                && var step := history[|old(history)|];
                && step.keyframe == (old(nextFrameIndex) % options.keyframeInterval == 0)
                && step.coding.images == images
                && r.value == FrameBytes(stream.value, step.coding)
                && IsFrameEncoded(stream.value, step.keyframe, LastStates(old(history), []), step.coding)
      ensures stream.Some? && |images| == SliceCount(stream.value) && ArePictures(stream.value, images) && r.Err? ==>
                && r.error == ResourceExhausted
                && SomeOutgrows(stream.value, nextFrameIndex % options.keyframeInterval == 0, LastStates(history, []), images)
    {
      hide IsSupported, IsProfileOf, SliceCount, IsFrameEncoded, FrameBytes, CellRects, ArePictures, AllCode, SomeOutgrows,
           KeepsCadence, IsHistory, LastStates;
      if stream.None? {
        return Err(InvalidState);
      }
      var s := stream.value;
      if |images| != SliceCount(s) {
        return Err(InvalidArgument);
      }
      var keyframe := nextFrameIndex % options.keyframeInterval == 0;
      if !keyframe {
        // Only the first frame could miss its references, and the first frame is a keyframe.
        assert nextFrameIndex > 0;
        if s.intraOnly {
          assert false;
        } else if |sliceStates| != SliceCount(s) || sliceLayouts != CellRects(s) {
          assert false;
        }
      }
      if ArePictures(s, images) {
        PicturesCode(options, s, history, keyframe, images);
      }
      NothingBefore(history);
      var status, payloads, next := EncodeSlots(s, keyframe, images, sliceStates);
      if status.Err? {
        return Err(status.error);
      }
      ghost var coding := FrameCoding(images, payloads, next);
      EncodedSizes(s, keyframe, sliceStates, coding);
      var frame := JoinSlices(s, coding, payloads);
      ghost var step := Step(keyframe, coding);
      HistoryGrows(s, history, step, options.keyframeInterval);
      sliceStates, sliceLayouts := next, CellRects(s);
      nextFrameIndex := nextFrameIndex + 1;
      history := history + [step];
      r := Ok(frame);
    }
  }

  /** A new encoder, unless the options make no sense. */
  method CreateEncoder(options: EncoderOptions) returns (r: Result<FrameEncoder>)
    ensures r.Ok? <==> 0 <= options.threadCount && 0 < options.keyframeInterval
    ensures r.Err? ==> r.error == InvalidArgument
    ensures r.Ok? ==> fresh(r.value) && r.value.Valid() && r.value.stream == None && r.value.options == options
  {
    if options.threadCount < 0 || options.keyframeInterval == 0 {
      return Err(InvalidArgument);
    }
    var encoder := new FrameEncoder(options);
    r := Ok(encoder);
  }

  /** What earlier frames left in a cell can be gone on from. */
  lemma {:induction false} HistoryResumes(o: EncoderOptions, s: StreamParameters, history: seq<Step>, i: nat)
    requires IsProfileOf(o, s) && 0 < o.keyframeInterval && 0 < s.numHSlices && i < SliceCount(s)
    requires IsHistory(s, history) && KeepsCadence(history, o.keyframeInterval) && history != []
    ensures IsSupported(s) && IsPlaced(s, CellHeader(s, i))
    ensures i < |LastStates(history, [])| && Resumes(s, CellHeader(s, i), LastStates(history, [])[i])
    decreases |history|
  {
    hide IsSupported, IsPlaced, IsPlain, IsProfileOf, IsEncoded, Resumes, CellHeader, SliceCount;
    var n := |history| - 1;
    var step := history[n];
    var before := LastStates(history[..n], []);
    ProfileGuarantees(o, s);
    CellsCodable(o, s, i);
    var v := CellHeader(s, i);
    if step.keyframe {
      BlankResumes(s, v);
    } else {
      assert n > 0;
      HistoryResumes(o, s, history[..n], i);
    }
    assert IsSliceOf(s, step.keyframe, before, step.coding, i);
    CodedResumes(s, v, i == 0, step.keyframe, step.coding.images[i], StateBefore(step.keyframe, before, i),
                 step.coding.payloads[i], step.coding.states[i]);
  }

  lemma PicturesCode(o: EncoderOptions, s: StreamParameters, history: seq<Step>, keyframe: bool, images: seq<Planes>)
    requires IsProfileOf(o, s) && 0 < o.keyframeInterval && IsSupported(s) && 0 < s.numHSlices
    requires IsHistory(s, history) && KeepsCadence(history, o.keyframeInterval) && (history == [] ==> keyframe)
    requires |images| == SliceCount(s) && ArePictures(s, images)
    ensures AllCode(s, keyframe, LastStates(history, []), images)
  {
    hide IsSupported, IsPlaced, IsPlain, IsProfileOf, Resumes, CellHeader, SliceCount, SlotCodes, IsSliceImage, HasShortRows, IsHistory;
    ProfileGuarantees(o, s);
    forall i | 0 <= i < |images|
      ensures CellCodes(s, keyframe, LastStates(history, []), i, images[i])
    {
      CellsCodable(o, s, i);
      var v := CellHeader(s, i);
      assert IsPictureOf(s, i, images[i]);
      if keyframe {
        BlankResumes(s, v);
      } else {
        HistoryResumes(o, s, history, i);
      }
      PictureCodes(s, v, i == 0, keyframe, images[i], StateBefore(keyframe, LastStates(history, []), i));
    }
  }

  lemma HistoryGrows(s: StreamParameters, history: seq<Step>, step: Step, interval: nat)
    requires 0 < interval && KeepsCadence(history, interval) && (step.keyframe <==> |history| % interval == 0)
    requires IsHistory(s, history) && IsFrameEncoded(s, step.keyframe, LastStates(history, []), step.coding)
    ensures KeepsCadence(history + [step], interval) && IsHistory(s, history + [step])
    ensures LastStates(history + [step], []) == step.coding.states
    ensures (history + [step])[..|history|] == history
  {
    hide IsFrameEncoded;
    assert (history + [step])[..|history|] == history;
  }

  lemma NothingBefore(history: seq<Step>)
    ensures history == [] ==> LastStates(history, []) == []
  {
  }

  lemma EncodedSizes(s: StreamParameters, keyframe: bool, saved: seq<Saved>, f: FrameCoding)
    requires IsFrameEncoded(s, keyframe, saved, f)
    ensures forall k :: 0 <= k < |f.payloads| ==> |f.payloads[k]| <= MAXIMUM_SLICE_SIZE
    ensures |f.states| == SliceCount(s) && 0 < s.numHSlices
  {
    hide IsEncoded;
    forall k | 0 <= k < |f.payloads|
      ensures |f.payloads[k]| <= MAXIMUM_SLICE_SIZE
    {
      assert IsSliceOf(s, keyframe, saved, f, k);
    }
  }

  lemma {:induction false} RunExtends(s: StreamParameters, steps: seq<Step>, saved: seq<Saved>, step: Step)
    requires IsRun(s, steps, saved)
    requires IsFrameEncoded(s, step.keyframe, LastStates(steps, saved), step.coding) && (s.intraOnly ==> step.keyframe)
    ensures IsRun(s, steps + [step], saved)
    decreases |steps|
  {
    hide IsFrameEncoded;
    if steps == [] {
      assert [step][1..] == [];
    } else {
      assert (steps + [step])[1..] == steps[1..] + [step];
      RunExtends(s, steps[1..], steps[0].coding.states, step);
    }
  }

  /** The history of an encoder is a run. */
  lemma {:induction false} HistoryIsRun(s: StreamParameters, history: seq<Step>, interval: nat)
    requires 0 < interval && IsHistory(s, history) && KeepsCadence(history, interval)
    requires s.intraOnly ==> interval == 1
    ensures IsRun(s, history, [])
    decreases |history|
  {
    hide IsFrameEncoded;
    if history != [] {
      var n := |history| - 1;
      HistoryIsRun(s, history[..n], interval);
      RunExtends(s, history[..n], [], history[n]);
      assert history == history[..n] + [history[n]];
    }
  }
}
