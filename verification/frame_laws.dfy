// What a frame depends on: of the reference, of its other slices, and of the place of each slice.

module FrameLaws {
  import opened Basics
  import opened StreamModel
  import opened SliceRaster
  import opened SliceCoverage
  import opened SliceSchedule
  import opened SliceHeader
  import opened SliceLayouts
  import opened RangeSliceCodec
  import opened SliceCodec
  import opened SliceFraming
  import opened ReferenceStates
  import opened FrameCodec

  /** A keyframe, of whatever bytes, decodes to the same whatever was decoded before. */
  lemma KeyframeForgets(s: StreamParameters, frame: seq<byte>, verify: bool, a: Reference, b: Reference)
    requires ParseFrame(s, frame, verify).Ok? ==>
               ParseFrame(s, frame, verify).value.descriptions != [] && ParseFrame(s, frame, verify).value.descriptions[0].keyframe
    ensures DecodeFrame(s, frame, verify, a) == DecodeFrame(s, frame, verify, b)
  {
    hide ParseFrame, DecodeSlices;
  }

  /** Slices are decoded each for itself: all succeed or the frame fails with the first failure. */
  lemma {:induction false} SlicesApart(s: StreamParameters, frame: seq<byte>, p: Parsed, states: seq<Saved>, i: nat)
    requires |p.slices| == |p.descriptions| == |states| && i <= |states|
    requires forall k :: 0 <= k < |p.slices| ==> SliceEnd(s.errorStatusEnabled, p.slices[k]) <= |frame|
    ensures DecodeSlices(s, frame, p, states, i).Ok? <==> forall k: nat :: i <= k < |states| ==> DecodeAt(s, frame, p, states, k).Ok?
    ensures DecodeSlices(s, frame, p, states, i).Ok? ==>
              && |DecodeSlices(s, frame, p, states, i).value.0| == |DecodeSlices(s, frame, p, states, i).value.1| == |states| - i
              && forall k: nat :: i <= k < |states| ==>
                   && DecodeSlices(s, frame, p, states, i).value.0[k - i] == DecodeAt(s, frame, p, states, k).value.0
                   && DecodeSlices(s, frame, p, states, i).value.1[k - i] == DecodeAt(s, frame, p, states, k).value.1
    decreases |states| - i
  {
    hide DecodeAt;
    if i < |states| {
      SlicesApart(s, frame, p, states, i + 1);
    }
  }

  lemma {:induction false} FirstFailureDecides(s: StreamParameters, frame: seq<byte>, p: Parsed, states: seq<Saved>, i: nat, k: nat)
    requires |p.slices| == |p.descriptions| == |states| && i <= k < |states|
    requires forall k :: 0 <= k < |p.slices| ==> SliceEnd(s.errorStatusEnabled, p.slices[k]) <= |frame|
    requires DecodeAt(s, frame, p, states, k).Err? && forall j: nat :: i <= j < k ==> DecodeAt(s, frame, p, states, j).Ok?
    ensures DecodeSlices(s, frame, p, states, i) == Err(DecodeAt(s, frame, p, states, k).error)
    decreases k - i
  {
    hide DecodeAt;
    if i < k {
      FirstFailureDecides(s, frame, p, states, i + 1, k);
    }
  }

  /** The states a frame of whatever bytes starts its slices from: none in a keyframe, otherwise for each
      slice the one the reference holds for the same rectangle, wherever it stood there. */
  lemma StatesResumed(keyframe: bool, r: Reference, current: seq<Rect>, k: nat, j: nat)
    requires WorkingStates(keyframe, r, current).Ok? && k < |current|
    requires !keyframe ==> Distinct(r.layouts) && Distinct(current) && j < |r.layouts| && r.layouts[j] == current[k]
    ensures |WorkingStates(keyframe, r, current).value| == |current|
    ensures !keyframe ==> |r.states| == |r.layouts|
    ensures WorkingStates(keyframe, r, current).value[k] == if keyframe then NOTHING else r.states[j]
  {
    hide Paired;
    if !keyframe {
      SameLayoutsContinue(r.layouts, r.states, current, NOTHING, k, j);
    }
  }

  /** What is kept after a frame: the states its slices ended with, and their rectangles. */
  lemma ReferenceReplaced(s: StreamParameters, frame: seq<byte>, verify: bool, r: Reference)
    requires DecodeFrame(s, frame, verify, r).Ok?
    ensures ParseFrame(s, frame, verify).Ok? && ParseFrame(s, frame, verify).value.descriptions != []
    ensures var p := ParseFrame(s, frame, verify).value;
            var states := WorkingStates(p.descriptions[0].keyframe, r, Rects(p.descriptions));
            && states.Ok? && |states.value| == |p.slices|
            && var decoded := DecodeSlices(s, frame, p, states.value, 0);
            && decoded.Ok?
            && DecodeFrame(s, frame, verify, r).value == (decoded.value.0, Reference(decoded.value.1, Rects(p.descriptions)))
  {
    hide ParseFrame, DecodeSlices, WorkingStates;
  }

  /** The encoder's slices: one per cell, row by row, from nothing in a keyframe and otherwise from what the
      slice of the same number left; the first one, and no other, says whether it is a keyframe. */
  lemma SlicesPlaced(s: StreamParameters, keyframe: bool, saved: seq<Saved>, f: FrameCoding, i: nat, column: nat, row: nat)
    requires IsFrameEncoded(s, keyframe, saved, f)
    requires column < s.numHSlices && row < s.numVSlices && i == row * s.numHSlices + column
    ensures i < |f.images| == |f.payloads| == |f.states| == s.numHSlices * s.numVSlices && (keyframe || i < |saved|)
    ensures var v := HeaderValues(column, row, 1, 1, seq(QuantTableSetIndexCount(s), _ => 0), 0, 0, 0);
            IsEncoded(s, v, i == 0, keyframe, f.images[i], if keyframe then NOTHING else saved[i], f.payloads[i], f.states[i])
    ensures |f.payloads[i]| <= 0xff_ffff
  {
    hide IsEncoded, IsSupported;
    CellIndex(s, column, row);
    assert IsSliceOf(s, keyframe, saved, f, i);
  }
}
