// Slices in either entropy mode, as the executors see them.

module SliceCodec {
  import opened Basics
  import opened RangeInterval
  import opened RangeSymbols
  import opened RangeContexts
  import opened RangeScript
  import opened GolombSlice
  import opened GolombContent
  import opened StreamModel
  import opened SliceSchedule
  import opened SliceHeader
  import opened SliceLayouts
  import opened RangeSliceCodec
  import opened GolombSliceCodec
  import opened SliceFraming

  /** The adaptive state a slice leaves behind, whichever mode filled it. */
  datatype Saved = Saved(golomb: GolombSaved, contexts: seq<seq<ScalarStates>>)

  const NOTHING := Saved(NOTHING_SAVED, [])

  /** A slice was coded into these bytes, leaving this state. */
  ghost predicate IsEncoded(s: StreamParameters, v: HeaderValues, first: bool, keyframe: bool, image: Planes,
                            saved: Saved, payload: seq<byte>, next: Saved)
  {
    match s.entropyMode
    case RangeMode =>
      exists c: RangeCoded :: AsRangeSlice(s, v, first, keyframe, image, saved, payload, next, c)
    case GolombRiceMode =>
      exists c: GolombCoded :: AsGolombSlice(s, v, first, keyframe, image, saved, payload, next, c)
  }

  /** How many bytes the encoder had when the header was finished. */
  function HeaderCount(s: StreamParameters, v: HeaderValues, first: bool, keyframe: bool): nat {
    match Attempt(SliceStart(s), DescriptionOps(s, v, first, keyframe))
    case None => 0
    case Some(header) => header.interval.count
  }

  /** Whether a coded slice reaches the decoder unharmed.  In range mode, closing must not have cut
      into the header.  In Golomb-Rice mode, what the decoder may try first, reading from one byte
      before the content, must fail or come to the same. */
  ghost predicate Survives(s: StreamParameters, v: HeaderValues, first: bool, keyframe: bool, image: Planes,
                           saved: Saved, payload: seq<byte>, next: Saved)
  {
    match s.entropyMode
    case RangeMode => HeaderCount(s, v, first, keyframe) <= |payload|
    case GolombRiceMode =>
      var early := ReadAhead(s, v, payload, HeaderCount(s, v, first, keyframe), saved.golomb);
      early.Err? || early == Ok((image, next.golomb))
  }

  /** What the decoder makes of a coded slice. */
  ghost function Outcome(s: StreamParameters, v: HeaderValues, first: bool, keyframe: bool, image: Planes,
                         saved: Saved, payload: seq<byte>, next: Saved): Result<(Planes, Saved)>
  {
    match s.entropyMode
    case RangeMode => if HeaderCount(s, v, first, keyframe) <= |payload| then Ok((image, next)) else Err(SyntaxError)
    case GolombRiceMode =>
      var early := ReadAhead(s, v, payload, HeaderCount(s, v, first, keyframe), saved.golomb);
      if early.Ok? then Ok((early.value.0, saved.(golomb := early.value.1))) else Ok((image, next))
  }

  /** A slice arrives as it was coded exactly when it survives; in range mode it is refused otherwise. */
  lemma OutcomeExactly(s: StreamParameters, v: HeaderValues, first: bool, keyframe: bool, image: Planes,
                       saved: Saved, payload: seq<byte>, next: Saved)
    requires IsEncoded(s, v, first, keyframe, image, saved, payload, next)
    ensures var outcome := Outcome(s, v, first, keyframe, image, saved, payload, next);
            && (outcome == Ok((image, next)) <==> Survives(s, v, first, keyframe, image, saved, payload, next))
            && (outcome == Ok((image, next)) || (if s.entropyMode == RangeMode then outcome == Err(SyntaxError) else outcome.Ok?))
  {
    hide HeaderCount, ReadAhead, IsRangeCoded, IsGolombCoded, Kept;
  }

  ghost predicate AsRangeSlice(s: StreamParameters, v: HeaderValues, first: bool, keyframe: bool, image: Planes,
                               saved: Saved, payload: seq<byte>, next: Saved, c: RangeCoded)
  {
    && IsRangeCoded(s, v, first, keyframe, image, saved.contexts, c)
    && payload == c.payload && next == saved.(contexts := Captured(c.final.contexts))
  }

  ghost predicate AsGolombSlice(s: StreamParameters, v: HeaderValues, first: bool, keyframe: bool, image: Planes,
                                saved: Saved, payload: seq<byte>, next: Saved, c: GolombCoded)
  {
    && IsGolombCoded(s, v, first, keyframe, image, saved.golomb, c)
    && payload == PayloadOf(c) && next == saved.(golomb := Kept(c.final))
  }

  function DescribeSlice(s: StreamParameters, bytes: seq<byte>, first: bool): Result<Description> {
    match s.entropyMode
    case RangeMode =>
      var (description, _) :- Describe(s, bytes, first);
      Ok(description)
    case GolombRiceMode => DescribeGolomb(s, bytes, first)
  }

  ghost function DecodeSlice(s: StreamParameters, payload: seq<byte>, first: bool, description: Description, saved: Saved)
    : Result<(Planes, Saved)>
    requires IsSupported(s) && IsPlaced(s, description.header)
  {
    match s.entropyMode
    case RangeMode =>
      var (image, contexts) :- DecodeRangeSlice(s, payload, first, description, saved.contexts);
      Ok((image, saved.(contexts := contexts)))
    case GolombRiceMode =>
      var (image, golomb) :- DecodeGolombSlice(s, payload, description, saved.golomb);
      Ok((image, saved.(golomb := golomb)))
  }

  /** State worth starting from: adapted Golomb-Rice contexts. */
  ghost predicate IsUsable(s: StreamParameters, saved: Saved) {
    0 < CodedBits(s) && IsKept(s, saved.golomb)
  }

  lemma SmallSizeByte(size: nat)
    requires size < 0x1_0000
    ensures NumberOctet(size, 16) == 0
  {
    assert Pow2(8) == 256;
    assert Pow2(16) == 0x1_0000;
    LowBitsSmall(size, 16);
    LowBitsSmall(0, 8);
  }

  /** The footer after a short slice begins with a zero. */
  lemma ShortFooter(ec: bool, errorStatus: byte, payload: seq<byte>)
    requires |payload| < 0x1_0000
    ensures var tail := Footered(ec, errorStatus, payload)[|payload|..];
            3 <= |tail| && tail[0] == 0 && Footered(ec, errorStatus, payload) == payload + tail
  {
    hide NumberOctet;
    SmallSizeByte(|payload|);
  }

  /** A coded slice, with its footer, is described as it was coded, and decoded to its outcome. */
  lemma SliceDecodes(s: StreamParameters, v: HeaderValues, first: bool, keyframe: bool, image: Planes,
                     saved: Saved, payload: seq<byte>, next: Saved, errorStatus: byte)
    returns (description: Description)
    requires IsEncoded(s, v, first, keyframe, image, saved, payload, next) && IsUsable(s, saved)
    requires IsTyped(v) && (s.intraOnly ==> keyframe)
    ensures IsSupported(s) && IsPlaced(s, v)
    ensures description.header == v && (first ==> description.keyframe == keyframe)
    ensures DescribeSlice(s, Footered(s.errorStatusEnabled, errorStatus, payload), first) == Ok(description)
    ensures DecodeSlice(s, payload, first, description, saved) == Outcome(s, v, first, keyframe, image, saved, payload, next)
    ensures IsUsable(s, next)
  {
    hide IsRangeCoded, IsGolombCoded, HeaderCount, Describe, DescribeGolomb, DecodeRangeSlice, DecodeGolombSlice, ReadAhead, Footered, IsSupported, IsPlaced, IsKept, CodedBits, Admits;
    var slice := Footered(s.errorStatusEnabled, errorStatus, payload);
    FooteredLength(s.errorStatusEnabled, errorStatus, payload);
    var tail := slice[|payload|..];
    assert slice == payload + tail;
    match s.entropyMode
    case RangeMode =>
      var c: RangeCoded :| AsRangeSlice(s, v, first, keyframe, image, saved, payload, next, c);
      CountOfHeader(s, v, first, keyframe, image, saved.contexts, c);
      FooterHarmless(s, v, first, keyframe, image, saved.contexts, c, errorStatus);
      RangeSliceDecodes(s, v, first, keyframe, image, saved.contexts, c, tail);
      description := Description(first && keyframe, v, c.header.interval.count);
    case GolombRiceMode =>
      var c: GolombCoded :| AsGolombSlice(s, v, first, keyframe, image, saved, payload, next, c);
      GolombPlaced(s, v, first, keyframe, image, saved.golomb, c);
      CountOfDescription(s, v, first, keyframe, image, saved.golomb, c);
      GolombSliceDecodes(s, v, first, keyframe, image, saved.golomb, c, tail);
      description := Description(first && keyframe, v, |c.description|);
  }

  lemma CountOfHeader(s: StreamParameters, v: HeaderValues, first: bool, keyframe: bool, image: Planes,
                      saved: seq<seq<ScalarStates>>, c: RangeCoded)
    requires IsRangeCoded(s, v, first, keyframe, image, saved, c)
    ensures HeaderCount(s, v, first, keyframe) == c.header.interval.count
  {
    hide SampleOps, DescriptionOps, WriteAll;
  }

  lemma CountOfDescription(s: StreamParameters, v: HeaderValues, first: bool, keyframe: bool, image: Planes, saved: GolombSaved, c: GolombCoded)
    requires IsGolombCoded(s, v, first, keyframe, image, saved, c)
    ensures HeaderCount(s, v, first, keyframe) == |c.description|
  {
    hide DescriptionOps, WriteAll, CodeContent, IsImage;
  }

  lemma GolombPlaced(s: StreamParameters, v: HeaderValues, first: bool, keyframe: bool, image: Planes, saved: GolombSaved, c: GolombCoded)
    requires IsGolombCoded(s, v, first, keyframe, image, saved, c)
    ensures IsSupported(s) && IsPlaced(s, v)
  {
  }

  /** The header's interval looks at the header's bytes only. */
  lemma HeaderAlone(s: StreamParameters, v: HeaderValues, first: bool, keyframe: bool, image: Planes,
                    saved: seq<seq<ScalarStates>>, c: RangeCoded, tail: seq<byte>)
    requires IsRangeCoded(s, v, first, keyframe, image, saved, c) && c.header.interval.count <= |c.payload|
    ensures Admits(c.payload + tail, c.header.interval)
  {
    hide SampleOps, DescriptionOps, WriteAll, IsSupported, IsPlaced;
    var n := c.header.interval.count;
    WriteAllNests(c.payload, c.header, SampleOps(s, v, image, saved).value);
    assert (c.payload + tail)[..n] == c.payload[..n];
    PrefixAgrees(c.payload + tail, c.payload, n);
  }

  /** A cut header is followed by the zero it was cut of. */
  lemma CutHeader(s: StreamParameters, v: HeaderValues, first: bool, keyframe: bool, image: Planes,
                  saved: seq<seq<ScalarStates>>, c: RangeCoded, tail: seq<byte>)
    requires IsRangeCoded(s, v, first, keyframe, image, saved, c)
    requires 0 < |tail| && tail[0] == 0
    ensures Admits(c.payload + tail, c.header.interval)
  {
    hide SampleOps, DescriptionOps, WriteAll, Admits, IsSupported, IsPlaced;
    ZeroTailAdmits(c.payload, tail, c.final.interval);
    WriteAllNests(c.payload + tail, c.header, SampleOps(s, v, image, saved).value);
  }

  /** The frame parser, which reads the footer along, always finds the description: either it does
      not reach the footer, or the slice is so short that its footer begins with a zero. */
  lemma FooterHarmless(s: StreamParameters, v: HeaderValues, first: bool, keyframe: bool, image: Planes,
                       saved: seq<seq<ScalarStates>>, c: RangeCoded, errorStatus: byte)
    requires IsRangeCoded(s, v, first, keyframe, image, saved, c) && IsTyped(v)
    ensures IsSupported(s) && IsPlaced(s, v)
    ensures var slice := Footered(s.errorStatusEnabled, errorStatus, c.payload);
            && 3 <= |slice[|c.payload|..]| && slice == c.payload + slice[|c.payload|..]
            && Admits(c.payload + slice[|c.payload|..], c.header.interval)
  {
    hide SampleOps, DescriptionOps, WriteAll, Admits, Footered;
    var tail := Footered(s.errorStatusEnabled, errorStatus, c.payload)[|c.payload|..];
    FooteredFront(s.errorStatusEnabled, errorStatus, c.payload);
    FooteredLength(s.errorStatusEnabled, errorStatus, c.payload);
    if c.header.interval.count <= |c.payload| {
      HeaderAlone(s, v, first, keyframe, image, saved, c, tail);
    } else {
      HeaderIsShort(s, v, first, keyframe);
      CountOfHeader(s, v, first, keyframe, image, saved, c);
      ShortFooter(s.errorStatusEnabled, errorStatus, c.payload);
      CutHeader(s, v, first, keyframe, image, saved, c, tail);
    }
  }

  /** No header comes near 64 KiB: at most a dozen numbers of at most 127 decisions each. */
  lemma HeaderIsShort(s: StreamParameters, v: HeaderValues, first: bool, keyframe: bool)
    ensures HeaderCount(s, v, first, keyframe) < 0x1_0000
  {
    hide WriteAll, RasterStatus;
    if Attempt(SliceStart(s), DescriptionOps(s, v, first, keyframe)).Some? {
      SliceStartSound(s);
      WriteAllShort(SliceStart(s), DescriptionOps(s, v, first, keyframe).value);
    }
  }
}
