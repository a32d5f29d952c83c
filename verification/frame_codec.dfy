// Whole frames and whole runs of frames: the encoder's slices joined, located again, described,
// checked against the raster, matched with their reference states and decoded.

module FrameCodec {
  import opened Basics
  import opened StreamModel
  import opened SliceRaster
  import opened SliceCoverage
  import opened SliceSchedule
  import opened SliceHeader
  import opened SliceLayouts
  import opened RangeSliceCodec
  import opened GolombSliceCodec
  import opened SliceCodec
  import opened SliceFraming
  import opened ReferenceStates

  function SliceCount(s: StreamParameters): nat {
    s.numHSlices * s.numVSlices
  }

  /** The encoder codes one slice per cell of the grid, row by row. */
  function CellHeader(s: StreamParameters, i: nat): HeaderValues
    requires 0 < s.numHSlices
  {
    HeaderValues(i % s.numHSlices, i / s.numHSlices, 1, 1, seq(QuantTableSetIndexCount(s), _ => 0), 0, 0, 0)
  }

  function CellRects(s: StreamParameters): (r: seq<Rect>)
    requires 0 < s.numHSlices
    ensures |r| == SliceCount(s)
  {
    seq(SliceCount(s), i requires 0 <= i < SliceCount(s) => RectOf(CellHeader(s, i)))
  }

  /** What coding a frame produced: for each slice its samples, its bytes and its state. */
  datatype FrameCoding = FrameCoding(images: seq<Planes>, payloads: seq<seq<byte>>, states: seq<Saved>)

  function StateBefore(keyframe: bool, saved: seq<Saved>, i: nat): Saved {
    if keyframe || |saved| <= i then NOTHING else saved[i]
  }

  /** The slices of a frame, each coded from the state its predecessor left; the size is the
      limit the footer sets. */
  ghost predicate IsFrameEncoded(s: StreamParameters, keyframe: bool, saved: seq<Saved>, f: FrameCoding) {
    && IsSupported(s)
    && |f.images| == SliceCount(s) && |f.payloads| == SliceCount(s) && |f.states| == SliceCount(s)
    && (keyframe || |saved| == SliceCount(s))
    && forall i: nat :: i < SliceCount(s) ==> IsSliceOf(s, keyframe, saved, f, i)
  }

  ghost predicate IsSliceOf(s: StreamParameters, keyframe: bool, saved: seq<Saved>, f: FrameCoding, i: nat)
    requires 0 < s.numHSlices && i < |f.images| && i < |f.payloads| && i < |f.states|
  {
    && IsEncoded(s, CellHeader(s, i), i == 0, keyframe, f.images[i], StateBefore(keyframe, saved, i), f.payloads[i], f.states[i])
    && |f.payloads[i]| <= MAXIMUM_SLICE_SIZE
  }

  /** Every slice from the i-th one on reaches the decoder unharmed. */
  ghost predicate AllSurvive(s: StreamParameters, keyframe: bool, saved: seq<Saved>, f: FrameCoding, i: nat)
    requires 0 < s.numHSlices
  {
    forall k: nat :: i <= k < |f.payloads| && k < |f.images| && k < |f.states| ==> SliceSurvives(s, keyframe, saved, f, k)
  }

  ghost predicate SliceSurvives(s: StreamParameters, keyframe: bool, saved: seq<Saved>, f: FrameCoding, i: nat)
    requires 0 < s.numHSlices && i < |f.images| && i < |f.payloads| && i < |f.states|
  {
    Survives(s, CellHeader(s, i), i == 0, keyframe, f.images[i], StateBefore(keyframe, saved, i), f.payloads[i], f.states[i])
  }

  lemma SupportedGrid(s: StreamParameters)
    requires IsSupported(s)
    ensures 0 < s.numHSlices && 0 < s.numVSlices
  {
  }

  function FramedSlices(f: FrameCoding): (r: seq<Framed>)
    ensures |r| == |f.payloads|
  {
    seq(|f.payloads|, i requires 0 <= i < |f.payloads| => Framed(f.payloads[i], 0))
  }

  function FrameBytes(s: StreamParameters, f: FrameCoding): seq<byte> {
    Joined(s.errorStatusEnabled, FramedSlices(f))
  }

  /** The descriptions of the located slices from the i-th one on. */
  function Described(s: StreamParameters, frame: seq<byte>, slices: seq<Slice>, i: nat): (r: Result<seq<Description>>)
    requires i <= |slices| && forall k :: 0 <= k < |slices| ==> SliceEnd(s.errorStatusEnabled, slices[k]) <= |frame|
    ensures r.Ok? ==> |r.value| == |slices| - i
    decreases |slices| - i
  {
    if i == |slices| then Ok([])
    else
      var end := SliceEnd(s.errorStatusEnabled, slices[i]);
      var description :- DescribeSlice(s, frame[slices[i].offset..end], i == 0);
      var more :- Described(s, frame, slices, i + 1);
      Ok([description] + more)
  }

  function Rects(descriptions: seq<Description>): (r: seq<Rect>)
    ensures |r| == |descriptions|
  {
    seq(|descriptions|, i requires 0 <= i < |descriptions| => RectOf(descriptions[i].header))
  }

  /** A parsed frame. */
  datatype Parsed = Parsed(slices: seq<Slice>, descriptions: seq<Description>)

  ghost function ParseFrame(s: StreamParameters, frame: seq<byte>, verify: bool): (r: Result<Parsed>)
    ensures r.Ok? ==> |r.value.slices| == |r.value.descriptions|
    ensures r.Ok? ==> forall k :: 0 <= k < |r.value.slices| ==> SliceEnd(s.errorStatusEnabled, r.value.slices[k]) <= |frame|
  {
    if frame == [] then Err(InvalidArgument)
    else if s.width == 0 || s.height == 0 || s.numHSlices == 0 || s.numVSlices == 0 then Err(InvalidState)
    else
      var slices :- LocateSlices(frame, s.errorStatusEnabled, verify, SliceCount(s));
      LocatedTile(frame, s.errorStatusEnabled, verify, SliceCount(s));
      assert forall k :: 0 <= k < |slices| ==> Checked(frame, s.errorStatusEnabled, verify, slices[k]);
      var descriptions :- Described(s, frame, slices, 0);
      var _ :- Validated(s.numHSlices, s.numVSlices, LimitsArea(s.version, s.width, s.height), Rects(descriptions));
      Ok(Parsed(slices, descriptions))
  }

  /** What a decoder keeps between frames. */
  datatype Reference = Reference(states: seq<Saved>, layouts: seq<Rect>)

  const NO_REFERENCE := Reference([], [])

  function WorkingStates(keyframe: bool, r: Reference, current: seq<Rect>): Result<seq<Saved>> {
    if keyframe then Ok(Blanks(|current|, NOTHING)) else Continued(r.layouts, r.states, current, NOTHING)
  }

  /** The i-th slice, from its own bytes and its own state. */
  ghost function DecodeAt(s: StreamParameters, frame: seq<byte>, p: Parsed, states: seq<Saved>, i: nat): Result<(Planes, Saved)>
    requires |p.slices| == |p.descriptions| == |states| && i < |states|
    requires forall k :: 0 <= k < |p.slices| ==> SliceEnd(s.errorStatusEnabled, p.slices[k]) <= |frame|
  {
    if !IsSupported(s) || !IsPlaced(s, p.descriptions[i].header) then Err(SyntaxError)
    else
      assert SliceEnd(s.errorStatusEnabled, p.slices[i]) <= |frame|;
      var payload := frame[p.slices[i].offset..p.slices[i].offset + p.slices[i].size];
      DecodeSlice(s, payload, i == 0, p.descriptions[i], states[i])
  }

  /** Decodes the slices from the i-th one on; the first failure decides. */
  ghost function DecodeSlices(s: StreamParameters, frame: seq<byte>, p: Parsed, states: seq<Saved>, i: nat): (r: Result<(seq<Planes>, seq<Saved>)>)
    requires |p.slices| == |p.descriptions| == |states| && i <= |states|
    requires forall k :: 0 <= k < |p.slices| ==> SliceEnd(s.errorStatusEnabled, p.slices[k]) <= |frame|
    decreases |states| - i
  {
    if i == |states| then Ok(([], []))
    else
      var (image, next) :- DecodeAt(s, frame, p, states, i);
      var (images, more) :- DecodeSlices(s, frame, p, states, i + 1);
      Ok(([image] + images, [next] + more))
  }

  /** A frame and the reference it leaves; the reference changes only on success. */
  ghost function DecodeFrame(s: StreamParameters, frame: seq<byte>, verify: bool, reference: Reference): Result<(seq<Planes>, Reference)>
  {
    var p :- ParseFrame(s, frame, verify);
    if p.descriptions == [] then Err(SyntaxError)
    else
      var states :- WorkingStates(p.descriptions[0].keyframe, reference, Rects(p.descriptions));
      if |states| != |p.slices| then Err(InternalError)
      else
        var (images, next) :- DecodeSlices(s, frame, p, states, 0);
        Ok((images, Reference(next, Rects(p.descriptions))))
  }

  lemma CellPlace(s: StreamParameters, i: nat)
    requires 0 < s.numHSlices && i < SliceCount(s)
    ensures i % s.numHSlices < s.numHSlices && i / s.numHSlices < s.numVSlices
    ensures i == i / s.numHSlices * s.numHSlices + i % s.numHSlices
  {
    var q, h := i / s.numHSlices, s.numHSlices;
    assert i == h * q + i % h;
    if s.numVSlices <= q {
      MulMonotone(h, s.numVSlices, q);
      assert false;
    }
  }

  lemma CellIndex(s: StreamParameters, column: nat, row: nat)
    requires column < s.numHSlices && row < s.numVSlices
    ensures row * s.numHSlices + column < SliceCount(s)
    ensures (row * s.numHSlices + column) % s.numHSlices == column && (row * s.numHSlices + column) / s.numHSlices == row
  {
    var h := s.numHSlices;
    MulMonotone(h, row + 1, s.numVSlices);
    assert h * (row + 1) == row * h + h;
    DivUnique(row * h + column, h, row, column);
  }

  /** The cells of the grid cover it exactly, and no two are the same. */
  lemma CellsCover(s: StreamParameters)
    requires 0 < s.numHSlices && 0 < s.numVSlices
    ensures AllInside(CellRects(s), s.numHSlices, s.numVSlices)
    ensures ExactCover(CellRects(s), s.numHSlices, s.numVSlices)
    ensures Distinct(CellRects(s))
  {
    hide SliceCount;
    var rects := CellRects(s);
    forall i | 0 <= i < |rects|
      ensures Inside(rects[i], s.numHSlices, s.numVSlices)
    {
      CellPlace(s, i);
    }
    forall column: nat, row: nat | column < s.numHSlices && row < s.numVSlices
      ensures CoveredOnce(rects, column, row)
    {
      OneCell(s, column, row);
    }
    forall i, j | 0 <= i < j < |rects|
      ensures rects[i] != rects[j]
    {
      CellPlace(s, i);
      CellPlace(s, j);
    }
  }

  lemma OneCell(s: StreamParameters, column: nat, row: nat)
    requires column < s.numHSlices && row < s.numVSlices
    ensures CoveredOnce(CellRects(s), column, row)
  {
    hide SliceCount;
    var rects := CellRects(s);
    var i := row * s.numHSlices + column;
    CellIndex(s, column, row);
    forall j | 0 <= j < |rects| && Holds(rects[j], column, row)
      ensures j == i
    {
      CellPlace(s, j);
    }
    assert OnlyOne(rects, i, column, row);
  }

  /** What the encoder's profile guarantees: frames larger than CIF have at least four slices, and
      the slices can be counted in 32 bits. */
  predicate IsProfiled(s: StreamParameters) {
    && 0 < s.width && 0 < s.height
    && (LimitsArea(s.version, s.width, s.height) ==> 4 <= SliceCount(s))
    && SliceCount(s) <= UINT32_MAX
  }

  lemma CellsAccepted(s: StreamParameters)
    requires IsSupported(s) && IsProfiled(s)
    ensures Validated(s.numHSlices, s.numVSlices, LimitsArea(s.version, s.width, s.height), CellRects(s)).Ok?
  {
    hide Validated, LimitsArea, ExactCover;
    CellsCover(s);
    var limited := LimitsArea(s.version, s.width, s.height);
    ValidatedExactly(s.numHSlices, s.numVSlices, limited, CellRects(s));
    forall i | 0 <= i < |CellRects(s)|
      ensures Acceptable(CellRects(s)[i], s.numHSlices, s.numVSlices, limited)
    {
      assert Inside(CellRects(s)[i], s.numHSlices, s.numVSlices);
      assert CellRects(s)[i].width == 1 && CellRects(s)[i].height == 1;
    }
  }

  lemma CellTyped(s: StreamParameters, i: nat)
    requires IsSupported(s) && i < SliceCount(s)
    ensures IsTyped(CellHeader(s, i))
  {
    CellPlace(s, i);
  }

  /** What the decoder makes of the i-th slice. */
  ghost function SliceOutcome(s: StreamParameters, keyframe: bool, saved: seq<Saved>, f: FrameCoding, i: nat): Result<(Planes, Saved)>
    requires 0 < s.numHSlices && i < |f.images| && i < |f.payloads| && i < |f.states|
  {
    Outcome(s, CellHeader(s, i), i == 0, keyframe, f.images[i], StateBefore(keyframe, saved, i), f.payloads[i], f.states[i])
  }

  /** The i-th slice of an encoded frame is described as it was coded, and decoded to its outcome. */
  lemma EncodedSliceDecodes(s: StreamParameters, keyframe: bool, saved: seq<Saved>, f: FrameCoding, i: nat)
    returns (description: Description)
    requires IsFrameEncoded(s, keyframe, saved, f) && i < SliceCount(s)
    requires (s.intraOnly ==> keyframe) && IsUsable(s, StateBefore(keyframe, saved, i))
    ensures IsPlaced(s, CellHeader(s, i)) && description.header == CellHeader(s, i) && (i == 0 ==> description.keyframe == keyframe)
    ensures DescribeSlice(s, Footered(s.errorStatusEnabled, 0, f.payloads[i]), i == 0) == Ok(description)
    ensures DecodeSlice(s, f.payloads[i], i == 0, description, StateBefore(keyframe, saved, i)) == SliceOutcome(s, keyframe, saved, f, i)
    ensures IsUsable(s, f.states[i])
  {
    hide IsEncoded, IsUsable, DescribeSlice, DecodeSlice, CellHeader, SliceCount, StateBefore, Outcome;
    assert IsSliceOf(s, keyframe, saved, f, i);
    CellTyped(s, i);
    description := SliceDecodes(s, CellHeader(s, i), i == 0, keyframe, f.images[i], StateBefore(keyframe, saved, i),
                                f.payloads[i], f.states[i], 0);
  }

  ghost predicate AllUsable(s: StreamParameters, states: seq<Saved>) {
    forall i :: 0 <= i < |states| ==> IsUsable(s, states[i])
  }

  lemma UsableBefore(s: StreamParameters, keyframe: bool, saved: seq<Saved>, i: nat)
    requires IsSupported(s) && AllUsable(s, saved)
    ensures IsUsable(s, StateBefore(keyframe, saved, i))
  {
  }

  /** Descriptions that belong to the slices of an encoded frame. */
  ghost predicate Belong(s: StreamParameters, keyframe: bool, saved: seq<Saved>, f: FrameCoding, descriptions: seq<Description>)
    requires IsFrameEncoded(s, keyframe, saved, f)
  {
    && |descriptions| == SliceCount(s)
    && forall i: nat :: i < SliceCount(s) ==> Belongs(s, keyframe, saved, f, i, descriptions[i])
  }

  ghost predicate Belongs(s: StreamParameters, keyframe: bool, saved: seq<Saved>, f: FrameCoding, i: nat, description: Description)
    requires IsFrameEncoded(s, keyframe, saved, f) && i < SliceCount(s)
  {
    && IsPlaced(s, CellHeader(s, i)) && description.header == CellHeader(s, i) && (i == 0 ==> description.keyframe == keyframe)
    && DescribeSlice(s, Footered(s.errorStatusEnabled, 0, f.payloads[i]), i == 0) == Ok(description)
    && DecodeSlice(s, f.payloads[i], i == 0, description, StateBefore(keyframe, saved, i)) == SliceOutcome(s, keyframe, saved, f, i)
    && IsUsable(s, f.states[i])
  }

  lemma {:induction false} DescriptionsBelong(s: StreamParameters, keyframe: bool, saved: seq<Saved>, f: FrameCoding, n: nat)
    returns (descriptions: seq<Description>)
    requires IsFrameEncoded(s, keyframe, saved, f) && (s.intraOnly ==> keyframe) && AllUsable(s, saved) && n <= SliceCount(s)
    ensures |descriptions| == n
    ensures forall i: nat :: i < n ==> Belongs(s, keyframe, saved, f, i, descriptions[i])
  {
    hide Belongs, IsFrameEncoded, SliceCount;
    if n == 0 {
      descriptions := [];
    } else {
      var before := DescriptionsBelong(s, keyframe, saved, f, n - 1);
      var last := OneBelongs(s, keyframe, saved, f, n - 1);
      descriptions := before + [last];
    }
  }

  lemma OneBelongs(s: StreamParameters, keyframe: bool, saved: seq<Saved>, f: FrameCoding, i: nat) returns (description: Description)
    requires IsFrameEncoded(s, keyframe, saved, f) && (s.intraOnly ==> keyframe) && AllUsable(s, saved) && i < SliceCount(s)
    ensures Belongs(s, keyframe, saved, f, i, description)
  {
    hide IsSupported, IsPlaced, DescribeSlice, DecodeSlice, IsUsable, StateBefore, CellHeader, SliceCount, IsSliceOf, SliceOutcome;
    UsableBefore(s, keyframe, saved, i);
    description := EncodedSliceDecodes(s, keyframe, saved, f, i);
  }

  lemma FramedAt(s: StreamParameters, f: FrameCoding, i: nat)
    requires i < |f.payloads|
    ensures var slice := Expected(s.errorStatusEnabled, FramedSlices(f))[i];
            var frame := FrameBytes(s, f);
            && SliceEnd(s.errorStatusEnabled, slice) <= |frame|
            && frame[slice.offset..SliceEnd(s.errorStatusEnabled, slice)] == Footered(s.errorStatusEnabled, 0, f.payloads[i])
            && frame[slice.offset..slice.offset + slice.size] == f.payloads[i]
  {
    hide Footered, Expected, Joined;
    ExpectedBytes(s.errorStatusEnabled, FramedSlices(f), i);
    ExpectedPayload(s.errorStatusEnabled, FramedSlices(f), i);
  }

  lemma {:induction false} DescribedBack(s: StreamParameters, keyframe: bool, saved: seq<Saved>, f: FrameCoding,
                                         descriptions: seq<Description>, i: nat)
    requires IsFrameEncoded(s, keyframe, saved, f) && Belong(s, keyframe, saved, f, descriptions) && i <= SliceCount(s)
    ensures var slices := Expected(s.errorStatusEnabled, FramedSlices(f));
            && (forall k :: 0 <= k < |slices| ==> SliceEnd(s.errorStatusEnabled, slices[k]) <= |FrameBytes(s, f)|)
            && Described(s, FrameBytes(s, f), slices, i) == Ok(descriptions[i..])
    decreases SliceCount(s) - i
  {
    hide Expected, FrameBytes, Footered, DescribeSlice, DecodeSlice, IsSupported, IsPlaced, IsUsable, CellHeader, SliceCount, IsSliceOf, SliceOutcome, StateBefore;
    var slices := Expected(s.errorStatusEnabled, FramedSlices(f));
    forall k | 0 <= k < |slices|
      ensures SliceEnd(s.errorStatusEnabled, slices[k]) <= |FrameBytes(s, f)|
    {
      FramedAt(s, f, k);
    }
    if i < SliceCount(s) {
      DescribedBack(s, keyframe, saved, f, descriptions, i + 1);
      FramedAt(s, f, i);
      assert Belongs(s, keyframe, saved, f, i, descriptions[i]);
      assert descriptions[i..] == [descriptions[i]] + descriptions[i + 1..];
    }
  }

  /** What the decoder makes of the slices from the i-th one on; the first failure decides. */
  ghost function Arrived(s: StreamParameters, keyframe: bool, saved: seq<Saved>, f: FrameCoding, i: nat): (r: Result<(seq<Planes>, seq<Saved>)>)
    requires 0 < s.numHSlices && |f.images| == |f.payloads| == |f.states| && i <= |f.payloads|
    ensures r.Ok? ==> |r.value.0| == |r.value.1| == |f.payloads| - i
    decreases |f.payloads| - i
  {
    if i == |f.payloads| then Ok(([], []))
    else
      var (image, next) :- SliceOutcome(s, keyframe, saved, f, i);
      var (images, more) :- Arrived(s, keyframe, saved, f, i + 1);
      Ok(([image] + images, [next] + more))
  }

  lemma {:induction false} ArrivedAt(s: StreamParameters, keyframe: bool, saved: seq<Saved>, f: FrameCoding, i: nat, k: nat)
    requires 0 < s.numHSlices && |f.images| == |f.payloads| == |f.states| && i <= k < |f.payloads|
    requires Arrived(s, keyframe, saved, f, i).Ok?
    ensures SliceOutcome(s, keyframe, saved, f, k).Ok?
    ensures Arrived(s, keyframe, saved, f, i).value.0[k - i] == SliceOutcome(s, keyframe, saved, f, k).value.0
    decreases k - i
  {
    hide SliceOutcome;
    if i < k {
      ArrivedAt(s, keyframe, saved, f, i + 1, k);
    }
  }

  lemma {:induction false} SlicesDecode(s: StreamParameters, keyframe: bool, saved: seq<Saved>, f: FrameCoding,
                                        p: Parsed, states: seq<Saved>, i: nat)
    requires IsFrameEncoded(s, keyframe, saved, f) && Belong(s, keyframe, saved, f, p.descriptions) && i <= SliceCount(s)
    requires p.slices == Expected(s.errorStatusEnabled, FramedSlices(f))
    requires |states| == SliceCount(s) && forall k: nat :: k < SliceCount(s) ==> states[k] == StateBefore(keyframe, saved, k)
    requires forall k :: 0 <= k < |p.slices| ==> SliceEnd(s.errorStatusEnabled, p.slices[k]) <= |FrameBytes(s, f)|
    ensures DecodeSlices(s, FrameBytes(s, f), p, states, i) == Arrived(s, keyframe, saved, f, i)
    decreases SliceCount(s) - i
  {
    hide Expected, FrameBytes, Footered, DescribeSlice, DecodeSlice, IsSupported, IsPlaced, IsUsable, CellHeader, SliceCount, StateBefore, IsSliceOf,
         SliceOutcome;
    SupportedGrid(s);
    EncodedLengths(s, keyframe, saved, f);
    if i < SliceCount(s) {
      SlicesDecode(s, keyframe, saved, f, p, states, i + 1);
      FramedAt(s, f, i);
      assert Belongs(s, keyframe, saved, f, i, p.descriptions[i]);
    }
  }

  /** The slices arrive as they were coded exactly when all survive; in range mode they are refused
      otherwise, in Golomb-Rice mode others arrive. */
  lemma {:induction false} ArrivedExactly(s: StreamParameters, keyframe: bool, saved: seq<Saved>, f: FrameCoding, i: nat)
    requires IsFrameEncoded(s, keyframe, saved, f) && 0 < s.numHSlices && i <= SliceCount(s)
    ensures Arrived(s, keyframe, saved, f, i) == Ok((f.images[i..], f.states[i..])) <==> AllSurvive(s, keyframe, saved, f, i)
    ensures AllSurvive(s, keyframe, saved, f, i)
         || (if s.entropyMode == RangeMode then Arrived(s, keyframe, saved, f, i) == Err(SyntaxError) else Arrived(s, keyframe, saved, f, i).Ok?)
    decreases SliceCount(s) - i
  {
    hide IsSupported, CellHeader, SliceCount, StateBefore, IsEncoded, SliceOutcome, SliceSurvives;
    EncodedLengths(s, keyframe, saved, f);
    if i < SliceCount(s) {
      ArrivedExactly(s, keyframe, saved, f, i + 1);
      SliceExactly(s, keyframe, saved, f, i);
      assert f.images[i..] == [f.images[i]] + f.images[i + 1..];
      assert f.states[i..] == [f.states[i]] + f.states[i + 1..];
      assert AllSurvive(s, keyframe, saved, f, i) <==> SliceSurvives(s, keyframe, saved, f, i) && AllSurvive(s, keyframe, saved, f, i + 1);
      var first, rest := SliceOutcome(s, keyframe, saved, f, i), Arrived(s, keyframe, saved, f, i + 1);
      if first.Ok? && rest.Ok? {
        Prepended(f.images[i], f.images[i + 1..], f.states[i], f.states[i + 1..], first, rest);
      }
    } else {
      assert f.images[i..] == [] && f.states[i..] == [];
    }
  }

  lemma Prepended(image: Planes, images: seq<Planes>, state: Saved, states: seq<Saved>, first: Result<(Planes, Saved)>,
                  rest: Result<(seq<Planes>, seq<Saved>)>)
    requires first.Ok? && rest.Ok?
    ensures ([first.value.0] + rest.value.0, [first.value.1] + rest.value.1) == ([image] + images, [state] + states)
            <==> first == Ok((image, state)) && rest == Ok((images, states))
  {
    if [first.value.0] + rest.value.0 == [image] + images {
      assert ([first.value.0] + rest.value.0)[0] == image && ([first.value.0] + rest.value.0)[1..] == images;
    }
    if [first.value.1] + rest.value.1 == [state] + states {
      assert ([first.value.1] + rest.value.1)[0] == state && ([first.value.1] + rest.value.1)[1..] == states;
    }
  }

  lemma SliceExactly(s: StreamParameters, keyframe: bool, saved: seq<Saved>, f: FrameCoding, i: nat)
    requires IsFrameEncoded(s, keyframe, saved, f) && 0 < s.numHSlices && i < SliceCount(s)
    ensures var outcome := SliceOutcome(s, keyframe, saved, f, i);
            && (outcome == Ok((f.images[i], f.states[i])) <==> SliceSurvives(s, keyframe, saved, f, i))
            && (outcome == Ok((f.images[i], f.states[i])) || (if s.entropyMode == RangeMode then outcome == Err(SyntaxError) else outcome.Ok?))
  {
    hide IsSupported, CellHeader, SliceCount, StateBefore, IsEncoded, Outcome, Survives;
    assert IsSliceOf(s, keyframe, saved, f, i);
    OutcomeExactly(s, CellHeader(s, i), i == 0, keyframe, f.images[i], StateBefore(keyframe, saved, i), f.payloads[i], f.states[i]);
  }

  /** The states a decoder starts the slices from are those the encoder started from. */
  lemma StatesMatch(s: StreamParameters, keyframe: bool, saved: seq<Saved>, reference: Reference)
    requires 0 < s.numHSlices && 0 < s.numVSlices && 0 < SliceCount(s)
    requires keyframe || (|saved| == SliceCount(s) && reference == Reference(saved, CellRects(s)))
    ensures WorkingStates(keyframe, reference, CellRects(s)).Ok?
    ensures var states := WorkingStates(keyframe, reference, CellRects(s)).value;
            |states| == SliceCount(s) && forall k: nat :: k < SliceCount(s) ==> states[k] == StateBefore(keyframe, saved, k)
  {
    hide SliceCount, CellRects, Continued, ExactCover, Distinct;
    if !keyframe {
      CellsCover(s);
      var cells := CellRects(s);
      ContinuedExactly(cells, saved, cells, NOTHING);
      forall k: nat | k < SliceCount(s)
        ensures k < |Continued(cells, saved, cells, NOTHING).value|
        ensures Continued(cells, saved, cells, NOTHING).value[k] == saved[k]
      {
        SameLayoutsContinue(cells, saved, cells, NOTHING, k, k);
      }
    }
  }

  lemma JoinedNonEmpty(s: StreamParameters, f: FrameCoding)
    requires f.payloads != []
    ensures FrameBytes(s, f) != []
  {
    hide Footered;
    FooteredLength(s.errorStatusEnabled, 0, f.payloads[|f.payloads| - 1]);
  }

  lemma CountPositive(s: StreamParameters)
    requires 0 < s.numHSlices && 0 < s.numVSlices
    ensures 0 < SliceCount(s)
  {
    MulMonotone(s.numHSlices, 1, s.numVSlices);
  }

  lemma PayloadsAppendable(s: StreamParameters, keyframe: bool, saved: seq<Saved>, f: FrameCoding)
    requires IsFrameEncoded(s, keyframe, saved, f)
    ensures AllAppendable(s.errorStatusEnabled, FramedSlices(f))
  {
    hide IsEncoded;
    forall i | 0 <= i < |FramedSlices(f)|
      ensures Append(s.errorStatusEnabled, FramedSlices(f)[i].errorStatus, FramedSlices(f)[i].payload).Ok?
    {
      assert IsSliceOf(s, keyframe, saved, f, i);
    }
  }

  lemma RectsBelong(s: StreamParameters, keyframe: bool, saved: seq<Saved>, f: FrameCoding, descriptions: seq<Description>)
    requires IsFrameEncoded(s, keyframe, saved, f) && Belong(s, keyframe, saved, f, descriptions)
    ensures Rects(descriptions) == CellRects(s)
  {
    hide SliceCount, DecodeSlice, DescribeSlice, Footered, IsEncoded, IsUsable;
    forall i | 0 <= i < |descriptions|
      ensures Rects(descriptions)[i] == CellRects(s)[i]
    {
      assert Belongs(s, keyframe, saved, f, i, descriptions[i]);
    }
  }

  /** A coded frame is located, described and accepted by the raster validator. */
  lemma FrameParses(s: StreamParameters, keyframe: bool, saved: seq<Saved>, f: FrameCoding, verify: bool,
                    descriptions: seq<Description>)
    requires IsFrameEncoded(s, keyframe, saved, f) && IsProfiled(s) && Belong(s, keyframe, saved, f, descriptions)
    ensures ParseFrame(s, FrameBytes(s, f), verify) == Ok(Parsed(Expected(s.errorStatusEnabled, FramedSlices(f)), descriptions))
    ensures Rects(descriptions) == CellRects(s) && 0 < |descriptions|
  {
    hide Located, Joined, Expected, SliceCount, Validated, LimitsArea, IsEncoded, Belongs, IsSliceOf, Described, Footered;
    CountPositive(s);
    PayloadsAppendable(s, keyframe, saved, f);
    JoinedNonEmpty(s, f);
    ProfiledCount(s);
    LocatedBack(s.errorStatusEnabled, FramedSlices(f), verify, SliceCount(s));
    DescribedBack(s, keyframe, saved, f, descriptions, 0);
    assert descriptions[0..] == descriptions;
    RectsBelong(s, keyframe, saved, f, descriptions);
    CellsAccepted(s);
  }

  lemma ProfiledCount(s: StreamParameters)
    requires IsProfiled(s)
    ensures SliceCount(s) <= 0xffff_ffff
  {
  }

  lemma UsableAfter(s: StreamParameters, keyframe: bool, saved: seq<Saved>, f: FrameCoding, descriptions: seq<Description>)
    requires IsFrameEncoded(s, keyframe, saved, f) && Belong(s, keyframe, saved, f, descriptions)
    ensures AllUsable(s, f.states)
  {
    hide IsUsable, DecodeSlice, DescribeSlice, IsEncoded, Footered;
    forall i | 0 <= i < |f.states|
      ensures IsUsable(s, f.states[i])
    {
      assert Belongs(s, keyframe, saved, f, i, descriptions[i]);
    }
  }

  /** Whole frames: the decoder gets what arrives of the slices, and keeps their states for the same
      places of the raster.  These are the coded samples and the encoder's states exactly when every
      slice survives; in range mode the frame is refused otherwise. */
  lemma FrameDecodes(s: StreamParameters, keyframe: bool, saved: seq<Saved>, f: FrameCoding, verify: bool, reference: Reference)
    requires IsFrameEncoded(s, keyframe, saved, f) && IsProfiled(s) && AllUsable(s, saved) && (s.intraOnly ==> keyframe)
    requires keyframe || reference == Reference(saved, CellRects(s))
    ensures 0 < s.numHSlices
    ensures DecodeFrame(s, FrameBytes(s, f), verify, reference) == WithLayouts(s, Arrived(s, keyframe, saved, f, 0))
    ensures DecodeFrame(s, FrameBytes(s, f), verify, reference) == Ok((f.images, Reference(f.states, CellRects(s))))
            <==> AllSurvive(s, keyframe, saved, f, 0)
    ensures s.entropyMode == RangeMode && !AllSurvive(s, keyframe, saved, f, 0) ==>
              DecodeFrame(s, FrameBytes(s, f), verify, reference) == Err(SyntaxError)
    ensures AllUsable(s, f.states)
  {
    hide ParseFrame, Expected, FrameBytes, SliceCount, WorkingStates, CellRects, DecodeSlices, Belongs, IsSliceOf, AllUsable, IsProfiled, Footered,
         AllSurvive, Arrived;
    CountPositive(s);
    var descriptions := DescriptionsBelong(s, keyframe, saved, f, SliceCount(s));
    assert Belong(s, keyframe, saved, f, descriptions);
    FrameParses(s, keyframe, saved, f, verify, descriptions);
    var p := Parsed(Expected(s.errorStatusEnabled, FramedSlices(f)), descriptions);
    assert Belongs(s, keyframe, saved, f, 0, descriptions[0]);
    FirstTells(s, keyframe, saved, f, descriptions[0]);
    StatesMatch(s, keyframe, saved, reference);
    var states := WorkingStates(keyframe, reference, CellRects(s)).value;
    SlicesDecode(s, keyframe, saved, f, p, states, 0);
    ArrivedExactly(s, keyframe, saved, f, 0);
    assert f.images[0..] == f.images && f.states[0..] == f.states;
    UsableAfter(s, keyframe, saved, f, descriptions);
  }

  /** Decoded slices and the reference they leave. */
  function WithLayouts(s: StreamParameters, slices: Result<(seq<Planes>, seq<Saved>)>): Result<(seq<Planes>, Reference)>
    requires 0 < s.numHSlices
  {
    var (images, states) :- slices;
    Ok((images, Reference(states, CellRects(s))))
  }

  lemma FirstTells(s: StreamParameters, keyframe: bool, saved: seq<Saved>, f: FrameCoding, description: Description)
    requires IsFrameEncoded(s, keyframe, saved, f) && 0 < SliceCount(s) && Belongs(s, keyframe, saved, f, 0, description)
    ensures description.keyframe == keyframe
  {
  }

  /** One successful call of the encoder. */
  datatype Step = Step(keyframe: bool, coding: FrameCoding)

  /** Frames coded one after the other, each from the states the one before it left. */
  ghost predicate IsRun(s: StreamParameters, steps: seq<Step>, saved: seq<Saved>)
    decreases |steps|
  {
    steps == [] ||
    (IsFrameEncoded(s, steps[0].keyframe, saved, steps[0].coding) && (s.intraOnly ==> steps[0].keyframe)
     && IsRun(s, steps[1..], steps[0].coding.states))
  }

  function RunBytes(s: StreamParameters, steps: seq<Step>): (frames: seq<seq<byte>>)
    ensures |frames| == |steps|
  {
    seq(|steps|, i requires 0 <= i < |steps| => FrameBytes(s, steps[i].coding))
  }

  function RunImages(steps: seq<Step>): (images: seq<seq<Planes>>)
    ensures |images| == |steps|
  {
    seq(|steps|, i requires 0 <= i < |steps| => steps[i].coding.images)
  }

  ghost function DecodeRun(s: StreamParameters, frames: seq<seq<byte>>, verify: bool, reference: Reference)
    : Result<(seq<seq<Planes>>, Reference)>
    decreases |frames|
  {
    if frames == [] then Ok(([], reference))
    else
      var (images, next) :- DecodeFrame(s, frames[0], verify, reference);
      var (more, last) :- DecodeRun(s, frames[1..], verify, next);
      Ok(([images] + more, last))
  }

  /** The states after a run. */
  function LastStates(steps: seq<Step>, saved: seq<Saved>): seq<Saved> {
    if steps == [] then saved else steps[|steps| - 1].coding.states
  }

  /** Every slice of every frame of a run survives. */
  ghost predicate RunSurvives(s: StreamParameters, steps: seq<Step>, saved: seq<Saved>)
    requires 0 < s.numHSlices
    decreases |steps|
  {
    steps == [] ||
    (AllSurvive(s, steps[0].keyframe, saved, steps[0].coding, 0) && RunSurvives(s, steps[1..], steps[0].coding.states))
  }

  /** After every frame of a run the decoder has returned what was coded and holds what the encoder holds. */
  ghost predicate InStep(s: StreamParameters, steps: seq<Step>, verify: bool, reference: Reference)
    requires 0 < s.numHSlices
    decreases |steps|
  {
    steps == [] ||
    (var f := steps[0].coding;
     var next := Reference(f.states, CellRects(s));
     DecodeFrame(s, FrameBytes(s, f), verify, reference) == Ok((f.images, next)) && InStep(s, steps[1..], verify, next))
  }

  lemma {:induction false} InStepDecodes(s: StreamParameters, steps: seq<Step>, saved: seq<Saved>, verify: bool, reference: Reference)
    requires 0 < s.numHSlices && InStep(s, steps, verify, reference)
    ensures DecodeRun(s, RunBytes(s, steps), verify, reference) ==
            Ok((RunImages(steps), if steps == [] then reference else Reference(LastStates(steps, saved), CellRects(s))))
    decreases |steps|
  {
    hide CellRects, FrameBytes, DecodeFrame;
    if steps != [] {
      var f := steps[0].coding;
      assert RunBytes(s, steps)[1..] == RunBytes(s, steps[1..]);
      assert [RunImages(steps)[0]] + RunImages(steps[1..]) == RunImages(steps);
      InStepDecodes(s, steps[1..], f.states, verify, Reference(f.states, CellRects(s)));
    }
  }

  /** Over any run of frames, keyframes or not, a decoder fed the frames in order stays in step with
      the encoder, samples and per-slice states, if and only if every slice survives; in range mode
      it refuses the run otherwise. */
  lemma {:induction false} RunDecodes(s: StreamParameters, steps: seq<Step>, saved: seq<Saved>, verify: bool, reference: Reference)
    requires IsRun(s, steps, saved) && IsProfiled(s) && AllUsable(s, saved) && 0 < s.numHSlices
    requires (steps != [] && steps[0].keyframe) || reference == Reference(saved, CellRects(s))
    ensures InStep(s, steps, verify, reference) <==> RunSurvives(s, steps, saved)
    ensures s.entropyMode == RangeMode && !RunSurvives(s, steps, saved) ==>
              DecodeRun(s, RunBytes(s, steps), verify, reference) == Err(SyntaxError)
    decreases |steps|
  {
    hide IsFrameEncoded, IsProfiled, AllUsable, CellRects, FrameBytes, DecodeFrame, AllSurvive, Arrived;
    if steps != [] {
      var f := steps[0].coding;
      EncodedLengths(s, steps[0].keyframe, saved, f);
      FrameDecodes(s, steps[0].keyframe, saved, f, verify, reference);
      assert RunBytes(s, steps)[1..] == RunBytes(s, steps[1..]);
      RunDecodes(s, steps[1..], f.states, verify, Reference(f.states, CellRects(s)));
    }
  }

  lemma EncodedLengths(s: StreamParameters, keyframe: bool, saved: seq<Saved>, f: FrameCoding)
    requires IsFrameEncoded(s, keyframe, saved, f)
    ensures |f.images| == |f.payloads| == |f.states| == SliceCount(s)
  {
  }

  /** Without an extra plane, or with one slice, nothing is read ahead of time, and every Golomb-Rice
      slice survives. */
  lemma {:induction false} GolombRunSurvives(s: StreamParameters, steps: seq<Step>, saved: seq<Saved>)
    requires 0 < s.numHSlices
    ensures s.entropyMode == GolombRiceMode && (!s.extraPlane || (s.numHSlices <= 1 && s.numVSlices <= 1)) ==>
              RunSurvives(s, steps, saved)
    decreases |steps|
  {
    hide IsFrameEncoded, DecodeFrom, CellHeader;
    if steps != [] {
      GolombRunSurvives(s, steps[1..], steps[0].coding.states);
    }
  }

  /** Slices that cannot be counted in 32 bits are refused before any is looked at. */
  lemma TooManySlices(s: StreamParameters, frame: seq<byte>, verify: bool, reference: Reference)
    requires frame != [] && 0 < s.width && 0 < s.height && 0 < s.numHSlices && 0 < s.numVSlices && UINT32_MAX < SliceCount(s)
    ensures DecodeFrame(s, frame, verify, reference) == Err(ResourceExhausted)
  {
    hide SliceCount;
  }

  /** A frame of two coded slices is a coded frame. */
  lemma TwoSlices(s: StreamParameters, f: FrameCoding)
    requires IsSupported(s) && 0 < s.numHSlices && SliceCount(s) == 2
    requires |f.images| == 2 && |f.payloads| == 2 && |f.states| == 2
    requires IsSliceOf(s, true, [], f, 0) && IsSliceOf(s, true, [], f, 1)
    ensures IsFrameEncoded(s, true, [], f)
  {
    hide IsSupported, SliceCount, IsSliceOf;
  }

  lemma IsSliceWhen(s: StreamParameters, f: FrameCoding, i: nat, v: HeaderValues, image: Planes, payload: seq<byte>, next: Saved)
    requires 0 < s.numHSlices && i < |f.images| && i < |f.payloads| && i < |f.states|
    requires CellHeader(s, i) == v && f.images[i] == image && f.payloads[i] == payload && f.states[i] == next
    requires IsEncoded(s, v, i == 0, true, image, NOTHING, payload, next) && |payload| <= MAXIMUM_SLICE_SIZE
    ensures IsSliceOf(s, true, [], f, i)
  {
    hide IsEncoded, CellHeader;
  }
}
