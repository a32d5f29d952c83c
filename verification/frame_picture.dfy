// Whole pictures: cut into slices, coded, joined, located, decoded, and stored back into one frame.

module FramePicture {
  import opened Basics
  import opened StreamModel
  import opened SliceRaster
  import opened SliceCoverage
  import opened SliceGeometry
  import opened SliceSchedule
  import opened SliceWrites
  import opened SliceCodec
  import opened FrameCodec

  /** Planes of the stream's size. */
  predicate IsPicture(s: StreamParameters, picture: Planes) {
    && |picture| == CodedPlaneCount(s)
    && forall p :: 0 <= p < |picture| ==> IsPlane(picture[p], PlaneWidth(s, p), PlaneHeight(s, p))
  }

  predicate IsPlane(plane: seq<seq<int>>, width: nat, height: nat) {
    |plane| == height && forall y :: 0 <= y < |plane| ==> |plane[y]| == width
  }

  /** The samples of one slice. */
  function CutSlice(s: StreamParameters, picture: Planes, rect: Rect): (image: Planes)
    requires 0 < s.numHSlices && 0 < s.numVSlices && IsPicture(s, picture) && Inside(rect, s.numHSlices, s.numVSlices)
    ensures |image| == |picture|
  {
    seq(|picture|, p requires 0 <= p < |picture| =>
      WindowInside(s, p, rect);
      CutPlane(picture[p], Window(s, p, rect)))
  }

  /** The slices of a frame, one per cell of the grid. */
  function CutFrame(s: StreamParameters, picture: Planes): (images: seq<Planes>)
    requires 0 < s.numHSlices && 0 < s.numVSlices && IsPicture(s, picture)
    ensures |images| == SliceCount(s)
  {
    seq(SliceCount(s), i requires 0 <= i < SliceCount(s) =>
      CellInside(s, i);
      CutSlice(s, picture, CellRects(s)[i]))
  }

  lemma CellInside(s: StreamParameters, i: nat)
    requires 0 < s.numHSlices && i < SliceCount(s)
    ensures Inside(CellRects(s)[i], s.numHSlices, s.numVSlices)
  {
    CellPlace(s, i);
  }

  lemma CutFills(s: StreamParameters, picture: Planes, rect: Rect)
    requires 0 < s.numHSlices && 0 < s.numVSlices && IsPicture(s, picture) && Inside(rect, s.numHSlices, s.numVSlices)
    ensures FillsWindows(s, rect, CutSlice(s, picture, rect))
  {
    hide Window, PlaneWidth, PlaneHeight;
    var image := CutSlice(s, picture, rect);
    forall p | 0 <= p < |image|
      ensures FillsWindow(Window(s, p, rect), image[p])
    {
      WindowInside(s, p, rect);
    }
  }

  lemma CutSample(s: StreamParameters, picture: Planes, rect: Rect, p: nat, x: nat, y: nat)
    requires 0 < s.numHSlices && 0 < s.numVSlices && IsPicture(s, picture) && Inside(rect, s.numHSlices, s.numVSlices)
    requires p < |picture| && Holds(Window(s, p, rect), x, y) && y < |picture[p]| && x < |picture[p][y]|
    ensures FillsWindows(s, rect, CutSlice(s, picture, rect))
    ensures var w := Window(s, p, rect);
            && FillsWindow(w, CutSlice(s, picture, rect)[p])
            && CutSlice(s, picture, rect)[p][y - w.y][x - w.x] == picture[p][y][x]
  {
    hide Window, PlaneWidth, PlaneHeight;
    CutFills(s, picture, rect);
    WindowInside(s, p, rect);
    var w := Window(s, p, rect);
    assert FillsWindow(w, CutSlice(s, picture, rect)[p]);
    var part := CutPlane(picture[p], w);
    assert part[y - w.y] == picture[p][w.y + (y - w.y)][w.x..w.x + w.width];
  }

  /** Whatever the order in which the slices of a picture are stored into a frame, the picture comes
      together again. */
  lemma CutReturns(s: StreamParameters, picture: Planes, trace: seq<Tagged>, p: nat, x: nat, y: nat)
    requires 0 < s.numHSlices && 0 < s.numVSlices && IsPicture(s, picture)
    requires Interleaves(s, CellRects(s), CutFrame(s, picture), trace)
    requires p < |picture| && y < |picture[p]| && x < |picture[p][y]|
    ensures Stored(trace, p, x, y) == Some(picture[p][y][x])
  {
    hide ExactCover, CellRects, PlaneWidth, PlaneHeight, Interleaves, Stored, CutSlice, SliceCount, FillsWindows, Window;
    CellsCover(s);
    var rects, images := CellRects(s), CutFrame(s, picture);
    forall i | 0 <= i < |rects|
      ensures FillsWindows(s, rects[i], images[i]) && p < |images[i]|
    {
      CutFills(s, picture, rects[i]);
    }
    var owner := SampleArrives(s, rects, images, trace, p, x, y);
    CutSample(s, picture, rects[owner], p, x, y);
  }

  /** A picture cut into the slices of the grid, encoded and decoded, comes back sample by sample,
      whatever the order in which the decoded slices store their samples into the frame. */
  lemma PictureReturns(s: StreamParameters, keyframe: bool, saved: seq<Saved>, f: FrameCoding, picture: Planes, verify: bool,
                       reference: Reference, trace: seq<Tagged>, p: nat, x: nat, y: nat)
    requires IsFrameEncoded(s, keyframe, saved, f) && IsProfiled(s) && AllUsable(s, saved) && (s.intraOnly ==> keyframe)
    requires keyframe || reference == Reference(saved, CellRects(s))
    requires 0 < s.numHSlices && 0 < s.numVSlices && AllSurvive(s, keyframe, saved, f, 0)
    requires IsPicture(s, picture) && f.images == CutFrame(s, picture)
    requires DecodeFrame(s, FrameBytes(s, f), verify, reference).Ok? ==>
               Interleaves(s, CellRects(s), DecodeFrame(s, FrameBytes(s, f), verify, reference).value.0, trace)
    requires p < |picture| && y < |picture[p]| && x < |picture[p][y]|
    ensures DecodeFrame(s, FrameBytes(s, f), verify, reference).Ok?
    ensures Stored(trace, p, x, y) == Some(picture[p][y][x])
  {
    hide IsFrameEncoded, IsProfiled, AllUsable, AllSurvive, FrameBytes, DecodeFrame, CellRects, Interleaves, Stored, CutFrame;
    FrameDecodes(s, keyframe, saved, f, verify, reference);
    CutReturns(s, picture, trace, p, x, y);
  }
}
