// Which slices can always be coded in either mode, frame after frame.

module CodableSlot {
  import opened Basics
  import opened RangeSymbols
  import opened RangeScript
  import opened StateTransition
  import opened GolombLine
  import opened GolombRun
  import opened GolombSlice
  import opened GolombContent
  import opened StreamModel
  import opened SliceSchedule
  import opened SliceHeader
  import opened SliceLayouts
  import opened RangeSliceCodec
  import opened GolombSliceCodec
  import opened SliceCodec
  import opened CodableSlice

  /** The range coder accepts the description and the samples. */
  ghost predicate RangeCodes(s: StreamParameters, v: HeaderValues, first: bool, keyframe: bool, image: Planes,
                             saved: seq<seq<ScalarStates>>)
    requires IsSupported(s) && IsPlaced(s, v)
  {
    match Attempt(SliceStart(s), DescriptionOps(s, v, first, keyframe))
    case None => false
    case Some(header) => Attempt(header, SampleOps(s, v, image, saved)).Some?
  }

  /** The range coder accepts the description, the bit writer the samples. */
  ghost predicate GolombCodes(s: StreamParameters, v: HeaderValues, first: bool, keyframe: bool, image: Planes, saved: GolombSaved)
    requires IsSupported(s) && IsPlaced(s, v)
  {
    && Attempt(SliceStart(s), DescriptionOps(s, v, first, keyframe)).Some?
    && SliceLayout(s, v).Ok?
    && (SliceLayoutFits(s, v);
        GolombContentCodes(SliceLayout(s, v).value, image, saved))
  }

  ghost predicate GolombContentCodes(l: Layout, image: Planes, saved: GolombSaved)
    requires IsLayout(l)
  {
    PreparedFits(l, saved.banks, saved.runs);
    && IsImage(l, image)
    && Prepared(l, saved.banks, saved.runs).Ok?
    && CodeContent(l, image, Prepared(l, saved.banks, saved.runs).value).Ok?
  }

  ghost predicate SlotCodes(s: StreamParameters, v: HeaderValues, first: bool, keyframe: bool, image: Planes, saved: Saved)
    requires IsSupported(s) && IsPlaced(s, v)
  {
    match s.entropyMode
    case RangeMode => RangeCodes(s, v, first, keyframe, image, saved.contexts)
    case GolombRiceMode => GolombCodes(s, v, first, keyframe, image, saved.golomb)
  }

  /** State a slice can go on from: adapted contexts of the right sizes, or none. */
  ghost predicate Resumes(s: StreamParameters, v: HeaderValues, saved: Saved)
    requires IsSupported(s) && IsPlaced(s, v)
  {
    && IsUsable(s, saved)
    && match s.entropyMode
       case RangeMode => AreBanks(s, v, saved.contexts)
       case GolombRiceMode =>
         SliceLayout(s, v).Ok? && Prepared(SliceLayout(s, v).value, saved.golomb.banks, saved.golomb.runs).Ok?
  }

  /** In Golomb-Rice mode a run must not outgrow the run table. */
  predicate HasShortRows(s: StreamParameters, v: HeaderValues)
    requires IsPlaced(s, v)
  {
    s.entropyMode == GolombRiceMode ==>
      forall p :: 0 <= p < CodedPlaneCount(s) ==> LayoutOf(s, v).widths[p] < FullRun(RUN_INDEXES - 1)
  }

  lemma BlankResumes(s: StreamParameters, v: HeaderValues)
    requires IsPlain(s) && IsPlaced(s, v) && SliceLayout(s, v).Ok?
    ensures Resumes(s, v, NOTHING)
  {
    hide IsPlaced, DefaultTransition, SliceLayout;
    match s.entropyMode
    case RangeMode => BlankBanks(s, v);
    case GolombRiceMode => BlankPrepared(s, v);
  }

  lemma BlankPrepared(s: StreamParameters, v: HeaderValues)
    requires IsPlain(s) && IsPlaced(s, v) && SliceLayout(s, v).Ok?
    ensures Prepared(SliceLayout(s, v).value, [], []).Ok?
  {
    hide DefaultTransition, Covers, RasterStatus, IsSupported;
    CountsBounded(s, v);
    var l := SliceLayout(s, v).value;
    assert forall b :: 0 <= b < |l.tables| ==> l.tables[b].contextCount == Counts(s, v)[b];
  }

  lemma CodedUsable(s: StreamParameters, v: HeaderValues, first: bool, keyframe: bool, image: Planes, saved: Saved,
                    payload: seq<byte>, next: Saved)
    requires IsWritable(v) && IsUsable(s, saved) && (s.intraOnly ==> keyframe)
    requires IsEncoded(s, v, first, keyframe, image, saved, payload, next)
    ensures IsUsable(s, next)
  {
    hide IsEncoded, Outcome, IsUsable, DescribeSlice, DecodeSlice, IsSupported, IsPlaced;
    var description := SliceDecodes(s, v, first, keyframe, image, saved, payload, next, 0);
  }

  /** What a coded slice leaves can be gone on from. */
  lemma CodedResumes(s: StreamParameters, v: HeaderValues, first: bool, keyframe: bool, image: Planes, saved: Saved,
                     payload: seq<byte>, next: Saved)
    requires IsPlain(s) && IsPlaced(s, v) && IsWritable(v) && Resumes(s, v, saved) && (s.intraOnly ==> keyframe)
    requires IsEncoded(s, v, first, keyframe, image, saved, payload, next)
    ensures Resumes(s, v, next)
  {
    hide IsPlain, IsPlaced, IsWritable, SliceLayout, IsRangeCoded, IsGolombCoded, IsUsable, AreBanks, Prepared, IsSupported;
    CodedUsable(s, v, first, keyframe, image, saved, payload, next);
    match s.entropyMode
    case RangeMode =>
      var c: RangeCoded :| AsRangeSlice(s, v, first, keyframe, image, saved, payload, next, c);
      BanksResume(s, v, first, keyframe, image, saved.contexts, c);
    case GolombRiceMode =>
      var c: GolombCoded :| AsGolombSlice(s, v, first, keyframe, image, saved, payload, next, c);
      KeptPrepared(s, v, first, keyframe, image, saved.golomb, c);
  }

  lemma KeptPrepared(s: StreamParameters, v: HeaderValues, first: bool, keyframe: bool, image: Planes, saved: GolombSaved, c: GolombCoded)
    requires IsPlain(s) && IsPlaced(s, v) && IsGolombCoded(s, v, first, keyframe, image, saved, c)
    ensures SliceLayout(s, v).Ok? && Prepared(SliceLayout(s, v).value, Kept(c.final).banks, Kept(c.final).runs).Ok?
  {
    hide DefaultTransition, Covers, CodeContent, DescriptionOps, WriteAll, IsImage;
    BlankPrepared(s, v);
  }

  /** Every picture of a plain stream is coded, from whatever state earlier frames left. */
  lemma PictureCodes(s: StreamParameters, v: HeaderValues, first: bool, keyframe: bool, image: Planes, saved: Saved)
    requires IsPlain(s) && IsPlaced(s, v) && IsWritable(v) && HasShortRows(s, v)
    requires IsSliceImage(s, v, image) && Resumes(s, v, saved)
    ensures SlotCodes(s, v, first, keyframe, image, saved)
  {
    hide IsPlaced, DefaultTransition, DescriptionOps, SampleOps, WriteAll, Covers, IsSliceImage, AreBanks;
    match s.entropyMode
    case RangeMode =>
      var c := RangeSliceCodes(s, v, first, keyframe, image, saved.contexts);
    case GolombRiceMode =>
      var header := DescriptionWrites(s, v, first, keyframe);
      GolombPictureCodes(s, v, image, saved.golomb);
  }

  lemma GolombPictureCodes(s: StreamParameters, v: HeaderValues, image: Planes, saved: GolombSaved)
    requires IsPlain(s) && IsPlaced(s, v) && HasShortRows(s, v) && IsSliceImage(s, v, image) && s.entropyMode == GolombRiceMode
    requires 0 < CodedBits(s) && IsKept(s, saved)
    requires SliceLayout(s, v).Ok? && Prepared(SliceLayout(s, v).value, saved.banks, saved.runs).Ok?
    ensures SliceLayout(s, v).Ok? && IsLayout(SliceLayout(s, v).value)
    ensures GolombContentCodes(SliceLayout(s, v).value, image, saved)
  {
    hide DefaultTransition, Covers, CodeContent, AllAdapted, IsImage, IsAdapted, Prepared, FullRun, RasterStatus;
    SliceLayoutFits(s, v);
    CountsBounded(s, v);
    var l := SliceLayout(s, v).value;
    PreparedFits(l, saved.banks, saved.runs);
    PreparedAdapted(l, saved.banks, saved.runs);
    assert Encodable(l);
    ContentCodes(l, image, Prepared(l, saved.banks, saved.runs).value);
  }
}
