// The frame decoder: parsing a frame, and decoding its slices one after the other or in batches.

module FrameDecoding {
  import opened Basics
  import opened StreamModel
  import opened SliceRaster
  import opened SliceCoverage
  import opened SliceSchedule
  import opened SliceHeader
  import opened SliceLayouts
  import opened RangeSliceCodec
  import opened SliceCodec
  import opened SliceReading
  import opened SliceFraming
  import opened ReferenceStates
  import opened FrameCodec
  import opened ConfigurationRecord
  import opened ConfigurationParsing

  method DescribeAll(s: StreamParameters, frame: seq<byte>, slices: seq<Slice>) returns (r: Result<seq<Description>>)
    requires forall k :: 0 <= k < |slices| ==> SliceEnd(s.errorStatusEnabled, slices[k]) <= |frame|
    ensures r == FrameCodec.Described(s, frame, slices, 0)
  {
    hide DescribeSlice;
    var found: seq<Description> := [];
    ghost var goal := FrameCodec.Described(s, frame, slices, 0);
    BehindNothing(found, goal);
    for i := 0 to |slices|
      invariant |found| == i
      invariant goal == Behind(found, FrameCodec.Described(s, frame, slices, i))
    {
      var end := SliceEnd(s.errorStatusEnabled, slices[i]);
      var description := DescribeBytes(s, frame[slices[i].offset..end], i == 0);
      if description.Err? {
        return Err(description.error);
      }
      BehindOne(found, description.value, FrameCodec.Described(s, frame, slices, i + 1));
      found := found + [description.value];
    }
    BehindNothing(found, goal);
    r := Ok(found);
  }

  function Behind<T>(found: seq<T>, rest: Result<seq<T>>): Result<seq<T>> {
    match rest
    case Err(error) => Err(error)
    case Ok(more) => Ok(found + more)
  }

  lemma BehindNothing<T>(found: seq<T>, rest: Result<seq<T>>)
    ensures Behind([], rest) == rest && Behind(found, Ok([])) == Ok(found)
  {
    assert found + [] == found;
    if rest.Ok? {
      assert [] + rest.value == rest.value;
    }
  }

  lemma BehindOne<T>(found: seq<T>, x: T, rest: Result<seq<T>>)
    ensures Behind(found + [x], rest) == match rest case Err(error) => Err(error) case Ok(more) => Ok(found + ([x] + more))
  {
    if rest.Ok? {
      AppendAssoc(found, [x], rest.value);
    }
  }

  /** Locate, describe, and check against the raster. */
  method ParseBytes(s: StreamParameters, frame: seq<byte>, verify: bool) returns (r: Result<Parsed>)
    ensures r == ParseFrame(s, frame, verify)
  {
    hide LocateSlices, FrameCodec.Described, Validated, Checked;
    if |frame| == 0 {
      return Err(InvalidArgument);
    }
    if s.width == 0 || s.height == 0 || s.numHSlices == 0 || s.numVSlices == 0 {
      return Err(InvalidState);
    }
    var slices := LocateAll(frame, s.errorStatusEnabled, verify, SliceCount(s));
    if slices.Err? {
      return Err(slices.error);
    }
    LocatedInside(frame, s.errorStatusEnabled, verify, SliceCount(s));
    var descriptions := DescribeAll(s, frame, slices.value);
    if descriptions.Err? {
      return Err(descriptions.error);
    }
    var status := ValidateCoverage(s.version, s.width, s.height, s.numHSlices, s.numVSlices, Rects(descriptions.value));
    if status.Err? {
      return Err(status.error);
    }
    r := Ok(Parsed(slices.value, descriptions.value));
  }

  lemma LocatedInside(frame: seq<byte>, ec: bool, verify: bool, limit: nat)
    requires LocateSlices(frame, ec, verify, limit).Ok?
    ensures var slices := LocateSlices(frame, ec, verify, limit).value;
            forall k :: 0 <= k < |slices| ==> SliceEnd(ec, slices[k]) <= |frame|
  {
    LocatedTile(frame, ec, verify, limit);
    var slices := LocateSlices(frame, ec, verify, limit).value;
    assert forall k :: 0 <= k < |slices| ==> Checked(frame, ec, verify, slices[k]);
  }

  method DecodeSlot(s: StreamParameters, frame: seq<byte>, p: Parsed, states: seq<Saved>, i: nat) returns (r: Result<(Planes, Saved)>)
    requires |p.slices| == |p.descriptions| == |states| && i < |states|
    requires forall k :: 0 <= k < |p.slices| ==> SliceEnd(s.errorStatusEnabled, p.slices[k]) <= |frame|
    ensures r == DecodeAt(s, frame, p, states, i)
  {
    hide SliceCodec.DecodeSlice;
    if !IsSupported(s) || !IsPlaced(s, p.descriptions[i].header) {
      return Err(SyntaxError);
    }
    assert SliceEnd(s.errorStatusEnabled, p.slices[i]) <= |frame|;
    var payload := frame[p.slices[i].offset..p.slices[i].offset + p.slices[i].size];
    r := DecodeBytes(s, payload, i == 0, p.descriptions[i], states[i]);
  }

  type Outcome = Result<(seq<Planes>, seq<Saved>)>

  function After(images: seq<Planes>, states: seq<Saved>, rest: Outcome): Outcome {
    match rest
    case Err(error) => Err(error)
    case Ok((more, last)) => Ok((images + more, states + last))
  }

  lemma AfterOne(images: seq<Planes>, states: seq<Saved>, image: Planes, state: Saved, rest: Outcome)
    ensures After(images, states, After([image], [state], rest)) == After(images + [image], states + [state], rest)
    ensures After([], [], rest) == rest
  {
    if rest.Ok? {
      AppendAssoc(images, [image], rest.value.0);
      AppendAssoc(states, [state], rest.value.1);
      assert [] + rest.value.0 == rest.value.0 && [] + rest.value.1 == rest.value.1;
    }
  }

  lemma AfterNothing(images: seq<Planes>, states: seq<Saved>)
    ensures After(images, states, Ok(([], []))) == Ok((images, states))
  {
    assert images + [] == images && states + [] == states;
  }

  /** One slice after the other; the first failure ends the frame. */
  method DecodeSerial(s: StreamParameters, frame: seq<byte>, p: Parsed, states: seq<Saved>) returns (r: Outcome)
    requires |p.slices| == |p.descriptions| == |states|
    requires forall k :: 0 <= k < |p.slices| ==> SliceEnd(s.errorStatusEnabled, p.slices[k]) <= |frame|
    ensures r == DecodeSlices(s, frame, p, states, 0)
  {
    hide DecodeAt;
    var images: seq<Planes> := [];
    var next: seq<Saved> := [];
    ghost var goal := DecodeSlices(s, frame, p, states, 0);
    AfterOne([], [], [], NOTHING, goal);
    for i := 0 to |states|
      invariant goal == After(images, next, DecodeSlices(s, frame, p, states, i))
    {
      var slot := DecodeSlot(s, frame, p, states, i);
      if slot.Err? {
        return Err(slot.error);
      }
      AfterOne(images, next, slot.value.0, slot.value.1, DecodeSlices(s, frame, p, states, i + 1));
      images, next := images + [slot.value.0], next + [slot.value.1];
    }
    AfterNothing(images, next);
    r := Ok((images, next));
  }

  /** The outcome of a frame from the outcomes of its slices. */
  function Collected(results: seq<Result<(Planes, Saved)>>, i: nat): Outcome
    requires i <= |results|
    decreases |results| - i
  {
    if i == |results| then Ok(([], []))
    else
      var (image, next) :- results[i];
      After([image], [next], Collected(results, i + 1))
  }

  lemma {:induction false} CollectedIsSerial(s: StreamParameters, frame: seq<byte>, p: Parsed, states: seq<Saved>,
                                             results: seq<Result<(Planes, Saved)>>, i: nat)
    requires |p.slices| == |p.descriptions| == |states| == |results| && i <= |states|
    requires forall k :: 0 <= k < |p.slices| ==> SliceEnd(s.errorStatusEnabled, p.slices[k]) <= |frame|
    requires forall k :: 0 <= k < |results| ==> results[k] == DecodeAt(s, frame, p, states, k)
    ensures Collected(results, i) == DecodeSlices(s, frame, p, states, i)
    decreases |states| - i
  {
    hide DecodeAt;
    if i < |states| {
      CollectedIsSerial(s, frame, p, states, results, i + 1);
    }
  }

  /** Batches of as many slices as there are workers.  Every slice is decoded, and whatever the
      number of workers, the status, samples and states are those of serial decoding. */
  method DecodeParallel(s: StreamParameters, frame: seq<byte>, p: Parsed, states: seq<Saved>, threads: nat) returns (r: Outcome)
    requires 0 < threads
    requires |p.slices| == |p.descriptions| == |states|
    requires forall k :: 0 <= k < |p.slices| ==> SliceEnd(s.errorStatusEnabled, p.slices[k]) <= |frame|
    ensures r == DecodeSlices(s, frame, p, states, 0)
  {
    hide DecodeAt;
    var workers := Min(threads, |states|);
    var results: seq<Result<(Planes, Saved)>> := [];
    var offset: nat := 0;
    while offset < |states|
      invariant |results| == Min(offset, |states|)
      invariant forall k :: 0 <= k < |results| ==> results[k] == DecodeAt(s, frame, p, states, k)
      decreases |states| - offset
    {
      var batch := Min(workers, |states| - offset);
      for i := 0 to batch
        invariant |results| == offset + i
        invariant forall k :: 0 <= k < |results| ==> results[k] == DecodeAt(s, frame, p, states, k)
      {
        var slot := DecodeSlot(s, frame, p, states, offset + i);
        results := results + [slot];
      }
      offset := offset + workers;
    }
    CollectedIsSerial(s, frame, p, states, results, 0);
    r := Collect(results);
  }

  /** The first failure in slice order, or everything. */
  method Collect(results: seq<Result<(Planes, Saved)>>) returns (r: Outcome)
    ensures r == Collected(results, 0)
  {
    var images: seq<Planes> := [];
    var next: seq<Saved> := [];
    ghost var goal := Collected(results, 0);
    AfterOne([], [], [], NOTHING, goal);
    for i := 0 to |results|
      invariant goal == After(images, next, Collected(results, i))
    {
      if results[i].Err? {
        return Err(results[i].error);
      }
      AfterOne(images, next, results[i].value.0, results[i].value.1, Collected(results, i + 1));
      images, next := images + [results[i].value.0], next + [results[i].value.1];
    }
    AfterNothing(images, next);
    r := Ok((images, next));
  }

  /** A request for zero threads asks the machine, which may not know. */
  function NormalizedThreadCount(requested: int, hardware: nat): (n: nat)
    ensures 0 < n
  {
    if requested < 0 then 1
    else if requested == 0 then (if hardware == 0 then 1 else hardware)
    else requested
  }

  datatype DecoderOptions = DecoderOptions(threadCount: int, strict: bool, verifyCrc: bool, frameWidth: nat, frameHeight: nat)

  /** Dimensions come from the container, if it knows them; the record does not carry any. */
  function WithDimensions(s: StreamParameters, width: nat, height: nat): StreamParameters {
    if width != 0 && height != 0 then s.(width := width, height := height) else s
  }

  class FrameDecoder {
    const options: DecoderOptions
    const threadCount: nat
    var stream: Option<StreamParameters>
    var sliceStates: seq<Saved>
    var sliceLayouts: seq<Rect>

    constructor (o: DecoderOptions, hardware: nat)
      ensures options == o && stream == None && Kept() == NO_REFERENCE && 0 < threadCount
    {
      options, stream := o, None;
      threadCount := NormalizedThreadCount(o.threadCount, hardware);
      sliceStates, sliceLayouts := [], [];
    }

    function Kept(): Reference
      reads this
    {
      Reference(sliceStates, sliceLayouts)
    }

    /** Takes the stream a record describes and forgets what earlier frames left; a record that
        cannot be parsed changes nothing. */
    method Configure(record: seq<byte>) returns (status: Status)
      modifies this
      ensures match ParseRecord(record)
              case Err(_) => status.Err? && unchanged(this)
              case Ok(s) =>
                && status.Ok? && Kept() == NO_REFERENCE
                && stream == Some(WithDimensions(s, options.frameWidth, options.frameHeight))
    {
      hide ParseRecord;
      var parsed := ReadRecord(record);
      if parsed.Err? {
        return Err(parsed.error);
      }
      stream := Some(WithDimensions(parsed.value, options.frameWidth, options.frameHeight));
      sliceStates, sliceLayouts := [], [];
      status := Ok(());
    }

    /** Decodes a frame; the reference states change only when every slice succeeded, and nothing
        depends on how many threads there are. */
    method Decode(frame: seq<byte>) returns (r: Result<seq<Planes>>)
      requires 0 < threadCount
      modifies this
      ensures stream == old(stream)
      ensures stream.None? || stream.value.width == 0 || stream.value.height == 0 ==> r == Err(InvalidState) && unchanged(this)
      ensures stream.Some? && stream.value.width != 0 && stream.value.height != 0 ==>
                match DecodeFrame(stream.value, frame, options.verifyCrc, old(Kept()))
                case Err(error) => r == Err(error) && unchanged(this)
                case Ok((images, reference)) => r == Ok(images) && Kept() == reference
    {
      hide ParseFrame, DecodeSlices, Continued;
      if stream.None? || stream.value.width == 0 || stream.value.height == 0 {
        return Err(InvalidState);
      }
      var s := stream.value;
      var parsed := ParseBytes(s, frame, options.verifyCrc);
      if parsed.Err? {
        return Err(parsed.error);
      }
      var p := parsed.value;
      if |p.descriptions| == 0 {
        return Err(SyntaxError);
      }
      var layouts := Rects(p.descriptions);
      var working := Blanks(|layouts|, NOTHING);
      if !p.descriptions[0].keyframe {
        var matched := MatchReferences(sliceLayouts, sliceStates, layouts, NOTHING);
        if matched.Err? {
          return Err(matched.error);
        }
        working := matched.value;
      }
      var outcome: Outcome;
      if threadCount > 1 && |p.slices| >= 2 {
        outcome := DecodeParallel(s, frame, p, working, threadCount);
      } else {
        outcome := DecodeSerial(s, frame, p, working);
      }
      if outcome.Err? {
        return Err(outcome.error);
      }
      sliceStates, sliceLayouts := outcome.value.1, layouts;
      r := Ok(outcome.value.0);
    }
  }

  /** A new decoder, unless the options make no sense; only strict parsing exists. */
  method CreateDecoder(options: DecoderOptions, hardware: nat) returns (r: Result<FrameDecoder>)
    ensures r.Ok? <==> 0 <= options.threadCount && options.strict && (options.frameWidth == 0 <==> options.frameHeight == 0)
    ensures r.Err? ==> r.error == if options.threadCount < 0 || options.strict then InvalidArgument else UnsupportedFeature
    ensures r.Ok? ==> fresh(r.value) && r.value.options == options && r.value.stream == None && 0 < r.value.threadCount
  {
    if options.threadCount < 0 {
      return Err(InvalidArgument);
    }
    if !options.strict {
      return Err(UnsupportedFeature);
    }
    if (options.frameWidth == 0) != (options.frameHeight == 0) {
      return Err(InvalidArgument);
    }
    var decoder := new FrameDecoder(options, hardware);
    r := Ok(decoder);
  }
}
