// The frame around the refused slice: two grey samples in two slices of their own.

module TinyFrame {
  import opened Basics
  import opened RangeInterval
  import opened RangeSymbols
  import opened RangeScript
  import opened StateTransition
  import opened SampleModel
  import opened StreamModel
  import opened SliceSchedule
  import opened SliceHeader
  import opened SliceLayouts
  import opened SliceCoverage
  import opened RangeSliceCodec
  import opened SliceCodec
  import opened SliceFraming
  import opened FrameCodec
  import opened CodableSlice
  import opened EncoderProfile
  import opened TinySlice

  lemma TinyCell()
    ensures CellHeader(TinyStream(), 1) == TINY_HEADER && SliceCount(TinyStream()) == 2
    ensures IsProfiled(TinyStream()) && TinyStream().entropyMode == RangeMode && !TinyStream().intraOnly
  {
    hide DefaultTransition, ZeroTableSet;
    assert CellHeader(TinyStream(), 1).indexes == [0, 0];
  }

  /** Only a first slice tells whether the frame is a keyframe. */
  lemma FlagUnused(image: Planes, saved: seq<seq<ScalarStates>>, c: RangeCoded)
    requires IsRangeCoded(TinyStream(), TINY_HEADER, false, true, image, saved, c)
    ensures IsRangeCoded(TinyStream(), TINY_HEADER, false, false, image, saved, c)
  {
    hide DefaultTransition, ZeroTableSet, SampleOps, WriteAll, HeaderScript, IsSupported, IsPlaced;
    assert DescriptionOps(TinyStream(), TINY_HEADER, false, true) == DescriptionOps(TinyStream(), TINY_HEADER, false, false);
  }

  lemma SecondCut(f: FrameCoding)
    requires IsFrameEncoded(TinyStream(), true, [], f) && f.images[1] == TINY_IMAGE
    ensures !AllSurvive(TinyStream(), true, [], f, 0)
  {
    hide DefaultTransition, ZeroTableSet, IsSupported, IsRangeCoded, HeaderCount, TinyStream, CellHeader, SliceCount;
    TinyCell();
    var s := TinyStream();
    SupportedGrid(s);
    assert IsSliceOf(s, true, [], f, 1);
    var c: RangeCoded :| AsRangeSlice(s, TINY_HEADER, false, true, TINY_IMAGE, NOTHING, f.payloads[1], f.states[1], c);
    CountOfHeader(s, TINY_HEADER, false, true, TINY_IMAGE, [], c);
    FlagUnused(TINY_IMAGE, [], c);
    TinyRefused(c, [0, 0, 0]);
    assert !SliceSurvives(s, true, [], f, 1);
  }

  const LEFT_HEADER := TINY_HEADER.(x := 0)

  lemma LeftCell()
    ensures CellHeader(TinyStream(), 0) == LEFT_HEADER && IsPlaced(TinyStream(), LEFT_HEADER)
    ensures IsWritable(LEFT_HEADER) && IsWritable(TINY_HEADER)
  {
    hide DefaultTransition, ZeroTableSet;
    assert CellHeader(TinyStream(), 0).indexes == [0, 0];
    assert RasterStatus(TinyStream(), LEFT_HEADER) == Ok(());
  }

  /** The encoder does code the slices of this frame, and few bytes are enough. */
  lemma CellCodes(v: HeaderValues, first: bool, keyframe: bool) returns (c: RangeCoded)
    requires IsTinyCell(v) && IsPlaced(TinyStream(), v) && IsWritable(v)
    ensures IsRangeCoded(TinyStream(), v, first, keyframe, TINY_IMAGE, [], c)
    ensures |c.payload| <= MAXIMUM_SLICE_SIZE
  {
    hide DefaultTransition, ZeroTableSet, IsPlain, IsSupported, IsPlaced, Admits, SampleOps, WriteAll, RasterStatus, StartBanks, IsImage, IsProfileOf;
    var s := TinyStream();
    TinyConfigured();
    ProfileGuarantees(TINY_OPTIONS, TinyStream());
    TinyPlaced();
    TinySamples(v);
    BlankBanks(s, v);
    c := RangeSliceCodes(s, v, first, keyframe, TINY_IMAGE, []);
    SliceStartSound(s);
    var ops := DescriptionOps(s, v, first, keyframe).value;
    WriteAllKeepsSound(SliceStart(s), ops);
    WriteAllShort(c.header, SampleOps(s, v, TINY_IMAGE, []).value);
    HeaderIsShort(s, v, first, keyframe);
    assert HeaderCount(s, v, first, keyframe) == c.header.interval.count;
  }

  lemma TinyEncoded(v: HeaderValues, first: bool, next: Saved, c: RangeCoded)
    requires IsRangeCoded(TinyStream(), v, first, true, TINY_IMAGE, [], c)
    requires next == NOTHING.(contexts := Captured(c.final.contexts))
    ensures IsEncoded(TinyStream(), v, first, true, TINY_IMAGE, NOTHING, c.payload, next)
  {
    hide IsRangeCoded, DefaultTransition, ZeroTableSet, Captured;
    assert AsRangeSlice(TinyStream(), v, first, true, TINY_IMAGE, NOTHING, c.payload, next, c);
  }

  lemma TinyFrameCodes() returns (f: FrameCoding)
    ensures IsFrameEncoded(TinyStream(), true, [], f) && f.images == [TINY_IMAGE, TINY_IMAGE]
  {
    hide TinyStream, IsSupported, IsPlaced, IsRangeCoded, IsEncoded, IsSliceOf, IsFrameEncoded, CellHeader, SliceCount, Captured, IsWritable;
    var s := TinyStream();
    TinyPlaced();
    TinyCell();
    LeftCell();
    SupportedGrid(s);
    var a := CellCodes(LEFT_HEADER, true, true);
    var b := CellCodes(TINY_HEADER, false, true);
    var left, right := NOTHING.(contexts := Captured(a.final.contexts)), NOTHING.(contexts := Captured(b.final.contexts));
    TinyEncoded(LEFT_HEADER, true, left, a);
    TinyEncoded(TINY_HEADER, false, right, b);
    f := FrameCoding([TINY_IMAGE, TINY_IMAGE], [a.payload, b.payload], [left, right]);
    IsSliceWhen(s, f, 0, LEFT_HEADER, TINY_IMAGE, a.payload, left);
    IsSliceWhen(s, f, 1, TINY_HEADER, TINY_IMAGE, b.payload, right);
    TwoSlices(s, f);
  }

  /** However the rest of the frame was coded, the decoder refuses what the encoder made. */
  lemma TinyFrameRefused(f: FrameCoding, verify: bool)
    requires IsFrameEncoded(TinyStream(), true, [], f) && f.images[1] == TINY_IMAGE
    ensures DecodeFrame(TinyStream(), FrameBytes(TinyStream(), f), verify, NO_REFERENCE) == Err(SyntaxError)
  {
    hide DefaultTransition, ZeroTableSet, IsFrameEncoded, FrameBytes, DecodeFrame, TinyStream, AllSurvive, IsProfiled;
    TinyCell();
    SecondCut(f);
    FrameDecodes(TinyStream(), true, [], f, verify, NO_REFERENCE);
  }

  /** So an encoder that kept to its own rules can produce a frame its decoder refuses. */
  lemma RefusedFrameExists(verify: bool) returns (f: FrameCoding)
    ensures IsProfileOf(TINY_OPTIONS, TinyStream()) && IsFrameEncoded(TinyStream(), true, [], f)
    ensures DecodeFrame(TinyStream(), FrameBytes(TinyStream(), f), verify, NO_REFERENCE) == Err(SyntaxError)
  {
    hide TinyStream, IsFrameEncoded, FrameBytes, DecodeFrame, IsProfileOf;
    TinyConfigured();
    f := TinyFrameCodes();
    TinyFrameRefused(f, verify);
  }
}
