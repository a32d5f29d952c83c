// Whole slices in range mode: keyframe flag, header and content in one payload, closed so that
// its last byte may be dropped, and read twice: once for its description, once for its samples.

module RangeSliceCodec {
  import opened Basics
  import opened RangeInterval
  import opened RangeSymbols
  import opened RangeContexts
  import opened RangeScript
  import opened RangeNumbers
  import opened StreamModel
  import opened SampleModel
  import opened SliceSchedule
  import opened RangeSlice
  import opened SliceHeader
  import opened SliceLayouts

  function HeaderContexts(): Result<Contexts> {
    Build([1], [], DEFAULT_STATE)
  }

  /** Only the first slice of a frame says whether the frame is a keyframe. */
  function OpeningOps(first: bool, keyframe: bool): seq<Operation> {
    if first then [Flag(keyframe), Operation(ReconfigureRequest([1], []), 0)]
    else []
  }

  function Counts(s: StreamParameters, v: HeaderValues): (c: seq<nat>)
    requires IsPlaced(s, v)
    ensures |c| == |v.indexes|
  {
    seq(|v.indexes|, i requires 0 <= i < |v.indexes| => TablesOf(s, v)[i].contextCount)
  }

  function CodedInitialBanks(s: StreamParameters, v: HeaderValues): seq<seq<ScalarStates>>
    requires IsSupported(s) && IsPlaced(s, v)
  {
    seq(|v.indexes|, i requires 0 <= i < |v.indexes| =>
      assert v.indexes[i] in v.indexes;
      if s.initialStates == [] then [] else s.initialStates[v.indexes[i]])
  }

  /** The banks a slice starts from: what its predecessor left, or the stream's initial states. */
  function StartBanks(s: StreamParameters, v: HeaderValues, saved: seq<seq<ScalarStates>>): Result<seq<seq<ScalarStates>>>
    requires IsSupported(s) && IsPlaced(s, v)
  {
    if saved == [] then Ok(CodedInitialBanks(s, v))
    else if |saved| != |v.indexes| then Err(InvalidState)
    else if exists i :: 0 <= i < |saved| && |saved[i]| != TablesOf(s, v)[i].contextCount then Err(InvalidState)
    else Ok(saved)
  }

  function ContentRequest(s: StreamParameters, v: HeaderValues, banks: seq<seq<ScalarStates>>): Request
    requires IsPlaced(s, v)
  {
    ReconfigureRequest(Counts(s, v), banks)
  }

  /** The description of a slice: flag and header. */
  function DescriptionOps(s: StreamParameters, v: HeaderValues, first: bool, keyframe: bool): Result<seq<Operation>> {
    var header :- HeaderScript(s, v);
    Ok(OpeningOps(first, keyframe) + header)
  }

  /** The samples of a slice, after the contexts have been set up. */
  ghost function SampleOps(s: StreamParameters, v: HeaderValues, image: Planes, saved: seq<seq<ScalarStates>>): Result<seq<Operation>>
    requires IsSupported(s) && IsPlaced(s, v)
  {
    var l :- SliceLayout(s, v);
    SliceLayoutFits(s, v);
    if !Shaped(l, image) || !IsImage(l, image) then Err(InvalidArgument)
    else
      var banks :- StartBanks(s, v, saved);
      var content :- ContentOps(l, image);
      Ok([Operation(ContentRequest(s, v, banks), 0)] + content)
  }

  ghost function Captured(c: Contexts): seq<seq<ScalarStates>> {
    if WellFormed(c) then Split(c) else []
  }

  function SliceStart(s: StreamParameters): Encoder {
    FreshEncoder(HeaderContexts().value, s.stateTransition)
  }

  /** A coded slice without its footer: where the encoder stood after the header, where it stood
      at the end, and the closed bytes. */
  datatype RangeCoded = RangeCoded(header: Encoder, final: Encoder, payload: seq<byte>)

  ghost predicate IsRangeCoded(s: StreamParameters, v: HeaderValues, first: bool, keyframe: bool, image: Planes,
                               saved: seq<seq<ScalarStates>>, c: RangeCoded)
  {
    && IsSupported(s) && IsPlaced(s, v)
    && DescriptionOps(s, v, first, keyframe).Ok?
    && SampleOps(s, v, image, saved).Ok?
    && WriteAll(SliceStart(s), DescriptionOps(s, v, first, keyframe).value) == Ok(c.header)
    && WriteAll(c.header, SampleOps(s, v, image, saved).value) == Ok(c.final)
    && Admits(c.payload, c.final.interval)
    && 2 <= |c.payload| && |c.payload| == Max(2, c.final.interval.count - 1)
  }

  /** What the frame parser learns from a slice: the flag, the header, and how far it read. */
  datatype Description = Description(keyframe: bool, header: HeaderValues, position: nat)

  /** Flag and header; the decoder is left where the content begins. */
  function ReadDescription(d: Decoder, s: StreamParameters, first: bool): Result<(bool, HeaderValues, Decoder)> {
    if !first then
      var (v, d') :- ReadDescriptor(d, s);
      Ok((false, v, d'))
    else
      var (keyframe, d1) :- ReadBool(d);
      if !keyframe && s.intraOnly then Err(SyntaxError)
      else
        var (_, d2) :- Read(d1, ReconfigureRequest([1], []));
        var (v, d') :- ReadDescriptor(d2, s);
        Ok((keyframe, v, d'))
  }

  /** The frame parser reads the description from the slice with its footer. */
  function Describe(s: StreamParameters, bytes: seq<byte>, first: bool): Result<(Description, Decoder)> {
    if |bytes| < 2 then Err(SyntaxError)
    else
      var c :- HeaderContexts();
      var (keyframe, v, d) :- ReadDescription(FreshDecoder(bytes, c, s.stateTransition), s, first);
      Ok((Description(keyframe, v, d.cursor.position), d))
  }

  /** The slice decoder reads the description again, from the slice without its footer, insists
      on the same result, and goes on with the content. */
  ghost function DecodeRangeSlice(s: StreamParameters, payload: seq<byte>, first: bool, expected: Description,
                                  saved: seq<seq<ScalarStates>>): Result<(Planes, seq<seq<ScalarStates>>)>
    requires IsSupported(s) && IsPlaced(s, expected.header)
  {
    var (found, d) :- Describe(s, payload, first);
    if found.header != expected.header || found.position != expected.position then Err(SyntaxError)
    else
      var v := expected.header;
      var l :- SliceLayout(s, v);
      SliceLayoutFits(s, v);
      var banks :- StartBanks(s, v, saved);
      var (_, d1) :- Read(d, ContentRequest(s, v, banks));
      var (image, d2) :- DecodeRangeContent(l, d1);
      Ok((image, Captured(d2.contexts)))
  }

  lemma HeaderContextsExist()
    ensures HeaderContexts().Ok? && WellFormed(HeaderContexts().value)
  {
    assert FirstBankError([1], [], 0) == None by {
      assert BankError([1], [], 0) == None;
    }
    BuildWellFormed([1], [], DEFAULT_STATE);
  }

  /** The numbers of a header fit the types they are kept in. */
  predicate IsTyped(v: HeaderValues) {
    && v.x <= UINT32_MAX && v.y <= UINT32_MAX && v.width <= UINT32_MAX && v.height <= UINT32_MAX
    && (forall i <- v.indexes :: i <= UINT32_MAX)
    && v.pictureStructure <= 2 * INT64_MAX + 1 && v.sarNum <= 2 * INT64_MAX + 1 && v.sarDen <= 2 * INT64_MAX + 1
  }

  lemma DescriptionRepresentable(s: StreamParameters, v: HeaderValues, first: bool, keyframe: bool)
    requires IsTyped(v) && DescriptionOps(s, v, first, keyframe).Ok?
    ensures AllRepresentable(DescriptionOps(s, v, first, keyframe).value)
  {
    hide Numbers;
    NumbersRepresentable(HeaderNumbers(v));
  }

  lemma SampleOpsRepresentable(s: StreamParameters, v: HeaderValues, image: Planes, saved: seq<seq<ScalarStates>>)
    requires IsSupported(s) && IsPlaced(s, v) && SampleOps(s, v, image, saved).Ok?
    ensures AllRepresentable(SampleOps(s, v, image, saved).value)
  {
    hide ContentOps, StartBanks, Counts, IsImage;
    SliceLayoutFits(s, v);
    ContentOpsRepresentable(SliceLayout(s, v).value, image);
  }

  /** Flag and header read back from any payload inside the header's interval. */
  lemma DescriptionReadsBack(s: StreamParameters, v: HeaderValues, first: bool, keyframe: bool, rest: seq<Operation>,
                             d: Decoder, final: Encoder)
    returns (d': Decoder)
    requires IsSized(s) && (s.intraOnly ==> keyframe) && DescriptionOps(s, v, first, keyframe).Ok?
    requires Scripted(d, DescriptionOps(s, v, first, keyframe).value + rest, final)
    ensures ReadDescription(d, s, first) == Ok((first && keyframe, v, d'))
    ensures Scripted(d', rest, final) && d'.payload == d.payload
  {
    hide Scripted, HeaderScript, ReadDescriptor, RangeScript.WriteBool, RangeScript.ReadBool;
    var header := HeaderScript(s, v).value;
    if first {
      var flag := Flag(keyframe);
      var setup := Operation(ReconfigureRequest([1], []), 0);
      assert OpeningOps(first, keyframe) + header + rest == [flag] + ([setup] + (header + rest));
      var d1 := FlagReadsBack(keyframe, [setup] + (header + rest), d, final);
      assert ([setup] + (header + rest))[1..] == header + rest;
      NextOperation(d1, [setup] + (header + rest), final);
      var d2 := Read(d1, setup.request).value.1;
      d' := HeaderReadsBack(s, v, header, rest, d2, final);
    } else {
      assert OpeningOps(first, keyframe) + header + rest == header + rest;
      d' := HeaderReadsBack(s, v, header, rest, d, final);
    }
  }

  /** From any payload inside the header's interval the description is read exactly, and the read
      position is the header's byte count as far as the payload reaches. */
  lemma Described(s: StreamParameters, v: HeaderValues, first: bool, keyframe: bool, header: Encoder, bytes: seq<byte>)
    returns (d: Decoder)
    requires IsSized(s) && IsTyped(v) && (s.intraOnly ==> keyframe) && DescriptionOps(s, v, first, keyframe).Ok?
    requires WriteAll(SliceStart(s), DescriptionOps(s, v, first, keyframe).value) == Ok(header)
    requires 2 <= |bytes| && Admits(bytes, header.interval)
    ensures Describe(s, bytes, first) == Ok((Description(first && keyframe, v, Min(header.interval.count, |bytes|)), d))
    ensures Matches(d, header) && d.payload == bytes
  {
    hide Scripted, DescriptionOps, ReadDescription;
    HeaderContextsExist();
    var ops := DescriptionOps(s, v, first, keyframe).value;
    DescriptionRepresentable(s, v, first, keyframe);
    var c := HeaderContexts().value;
    StartsScripted(bytes, c, s.stateTransition, ops, header);
    assert ops + [] == ops;
    d := DescriptionReadsBack(s, v, first, keyframe, [], FreshDecoder(bytes, c, s.stateTransition), header);
    ScriptEnds(d, header);
    assert d.payload == bytes;
    assert Describe(s, bytes, first) == Ok((Description(first && keyframe, v, d.cursor.position), d));
  }

  /** A zero byte after the closed payload stands for the one that may have been dropped. */
  lemma ZeroTailAdmits(payload: seq<byte>, tail: seq<byte>, iv: Interval)
    requires Admits(payload, iv) && iv.count - 1 <= |payload|
    requires 0 < |tail| && tail[0] == 0
    ensures Admits(payload + tail, iv)
  {
    var longer := payload + tail;
    if iv.count <= |payload| {
      assert longer[..iv.count] == payload[..iv.count];
      PrefixAgrees(longer, payload, iv.count);
    } else {
      var n := iv.count - 1;
      assert longer[..n] == payload[..n];
      PrefixAgrees(longer, payload, n);
      assert longer[n] == tail[0];
    }
  }

  lemma SliceStartSound(s: StreamParameters)
    ensures SoundEncoder(SliceStart(s))
  {
    HeaderContextsExist();
  }

  /** The samples of a slice read back from where its description ends. */
  lemma SamplesReadBack(s: StreamParameters, v: HeaderValues, image: Planes, saved: seq<seq<ScalarStates>>, d: Decoder,
                        header: Encoder, final: Encoder)
    returns (l: Layout, banks: seq<seq<ScalarStates>>, d1: Decoder, d2: Decoder)
    requires IsSupported(s) && IsPlaced(s, v) && SampleOps(s, v, image, saved).Ok?
    requires WriteAll(header, SampleOps(s, v, image, saved).value) == Ok(final)
    requires Matches(d, header) && Admits(d.payload, final.interval)
    ensures SliceLayout(s, v) == Ok(l) && IsLayout(l) && StartBanks(s, v, saved) == Ok(banks)
    ensures Read(d, ContentRequest(s, v, banks)) == Ok((0, d1))
    ensures DecodeRangeContent(l, d1) == Ok((image, d2)) && Matches(d2, final)
  {
    hide ContentOps, IsImage, DecodeRangeContent, Admits, IsSupported, IsPlaced;
    l := SliceLayout(s, v).value;
    SliceLayoutFits(s, v);
    banks := StartBanks(s, v, saved).value;
    var ops := SampleOps(s, v, image, saved).value;
    var setup := Operation(ContentRequest(s, v, banks), 0);
    var content := ContentOps(l, image).value;
    assert ops == [setup] + content && ops[1..] == content && ops[0] == setup;
    SampleOpsRepresentable(s, v, image, saved);
    assert Scripted(d, ops, final);
    hide Scripted, Matches;
    NextOperation(d, ops, final);
    d1 := Read(d, setup.request).value.1;
    assert content + [] == content;
    d2 := RangeContentReadsBack(l, image, content, [], d1, final);
    ScriptEnds(d2, final);
  }

  /** A slice in range mode comes back exactly, with the contexts its encoder ended with, if and
      only if closing the payload did not cut into the header.  The description itself is always
      read correctly as long as the bytes after the payload keep the header's interval. */
  lemma RangeSliceDecodes(s: StreamParameters, v: HeaderValues, first: bool, keyframe: bool, image: Planes,
                          saved: seq<seq<ScalarStates>>, c: RangeCoded, tail: seq<byte>)
    requires IsRangeCoded(s, v, first, keyframe, image, saved, c)
    requires IsTyped(v) && (s.intraOnly ==> keyframe)
    requires 3 <= |tail| && Admits(c.payload + tail, c.header.interval)
    ensures var description := Description(first && keyframe, v, c.header.interval.count);
            && Describe(s, c.payload + tail, first).Ok? && Describe(s, c.payload + tail, first).value.0 == description
            && DecodeRangeSlice(s, c.payload, first, description, saved) ==
               if c.header.interval.count <= |c.payload| then Ok((image, Captured(c.final.contexts))) else Err(SyntaxError)
  {
    hide Describe, SampleOps, DescriptionOps, WriteAll, Admits, Matches, StartBanks, SliceLayout, IsSupported, IsPlaced, DecodeRangeContent;
    SliceStartSound(s);
    WriteAllKeepsSound(SliceStart(s), DescriptionOps(s, v, first, keyframe).value);
    WriteAllKeepsSound(c.header, SampleOps(s, v, image, saved).value);
    WriteAllNests(c.payload, c.header, SampleOps(s, v, image, saved).value);
    SupportedSized(s);
    var outer := Described(s, v, first, keyframe, c.header, c.payload + tail);
    var d := Described(s, v, first, keyframe, c.header, c.payload);
    if c.header.interval.count <= |c.payload| {
      var l, banks, d1, d2 := SamplesReadBack(s, v, image, saved, d, c.header, c.final);
      SameContexts(d2, c.final);
    }
  }

  lemma SupportedSized(s: StreamParameters)
    requires IsSupported(s)
    ensures IsSized(s)
  {
  }

  lemma SameContexts(d: Decoder, e: Encoder)
    requires Matches(d, e)
    ensures d.contexts == e.contexts
  {
  }

  /** Samples change states, never the layout of the contexts. */
  lemma {:induction false} SamplesKeepSizes(e: Encoder, ops: seq<Operation>)
    requires WriteAll(e, ops).Ok? && forall op <- ops :: IsSampleOp(op)
    ensures WriteAll(e, ops).value.contexts.sizes == e.contexts.sizes
    decreases |ops|
  {
    hide Encode, SymbolDecisions;
    if ops != [] {
      assert ops[0] in ops && forall op <- ops[1..] :: op in ops;
      SamplesKeepSizes(Write(e, ops[0]).value, ops[1..]);
    }
  }

  /** The slice at the same place of the next frame, if that is no keyframe, starts its samples in
      exactly the contexts this one ended with. */
  lemma ContextsResume(s: StreamParameters, v: HeaderValues, first: bool, keyframe: bool, image: Planes,
                       saved: seq<seq<ScalarStates>>, c: RangeCoded, next: Encoder)
    requires IsRangeCoded(s, v, first, keyframe, image, saved, c)
    ensures WellFormed(c.final.contexts) && Captured(c.final.contexts) != []
    ensures StartBanks(s, v, Captured(c.final.contexts)) == Ok(Captured(c.final.contexts))
    ensures Write(next, Operation(ContentRequest(s, v, Captured(c.final.contexts)), 0)) == Ok(next.(contexts := c.final.contexts))
  {
    hide DescriptionOps, ContentOps, IsImage, IsSupported, IsPlaced, SliceLayout, Split;
    SliceStartSound(s);
    WriteAllKeepsSound(SliceStart(s), DescriptionOps(s, v, first, keyframe).value);
    WriteAllKeepsSound(c.header, SampleOps(s, v, image, saved).value);
    SliceLayoutFits(s, v);
    var l := SliceLayout(s, v).value;
    var content := ContentOps(l, image).value;
    var setup := Operation(ContentRequest(s, v, StartBanks(s, v, saved).value), 0);
    assert ([setup] + content)[1..] == content;
    ContentOpsRepresentable(l, image);
    SamplesKeepSizes(Write(c.header, setup).value, content);
    assert c.final.contexts.sizes == Counts(s, v);
    BuildOfSplit(c.final.contexts, DEFAULT_STATE);
    CapturedFits(s, v, c.final.contexts);
  }

  lemma CapturedFits(s: StreamParameters, v: HeaderValues, c: Contexts)
    requires IsSupported(s) && IsPlaced(s, v) && WellFormed(c) && c.sizes == Counts(s, v)
    ensures Captured(c) == Split(c) && Captured(c) != []
    ensures StartBanks(s, v, Captured(c)) == Ok(Captured(c))
  {
    hide IsSupported, IsPlaced, SplitFrom;
    forall i | 0 <= i < |Split(c)|
      ensures |Split(c)[i]| == c.sizes[i]
    {
      SplitAt(c, 0, i);
    }
  }
}
