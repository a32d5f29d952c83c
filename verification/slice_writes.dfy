// Slices decoded at the same time write into one frame.  Whatever the order in which their
// writes happen to fall, the frame ends up the same, because no sample belongs to two slices.

module SliceWrites {
  import opened Basics
  import opened StreamModel
  import opened SliceRaster
  import opened SliceCoverage
  import opened SliceGeometry
  import opened SliceSchedule

  /** A sample stored by a slice. */
  datatype Write = Write(plane: nat, x: nat, y: nat, value: int)

  /** A write and the slice it comes from. */
  datatype Tagged = Tagged(slice: nat, write: Write)

  /** What a sample of the frame holds after the writes; None if none of them stored it. */
  function Stored(trace: seq<Tagged>, plane: nat, x: nat, y: nat): Option<int>
  {
    if trace == [] then None
    else
      var last := trace[|trace| - 1].write;
      if last.plane == plane && last.x == x && last.y == y then Some(last.value)
      else Stored(trace[..|trace| - 1], plane, x, y)
  }

  /** The writes of one slice, in their order. */
  function Projected(trace: seq<Tagged>, slice: nat): seq<Tagged> {
    if trace == [] then []
    else
      var n := |trace| - 1;
      if trace[n].slice == slice then Projected(trace[..n], slice) + [trace[n]] else Projected(trace[..n], slice)
  }

  /** Every slice writes inside its own window of each plane. */
  ghost predicate Confined(s: StreamParameters, slices: seq<Rect>, trace: seq<Tagged>)
    requires 0 < s.numHSlices && 0 < s.numVSlices
  {
    forall k :: 0 <= k < |trace| ==>
      && trace[k].slice < |slices|
      && Holds(Window(s, trace[k].write.plane, slices[trace[k].slice]), trace[k].write.x, trace[k].write.y)
  }

  /** A sample is decided by the slice it belongs to alone. */
  lemma {:induction false} OwnerDecides(s: StreamParameters, slices: seq<Rect>, trace: seq<Tagged>, plane: nat, x: nat, y: nat, owner: nat)
    requires 0 < s.numHSlices && 0 < s.numVSlices && Confined(s, slices, trace)
    requires owner < |slices| && OnlyOne(Windows(s, plane, slices), owner, x, y)
    ensures Stored(trace, plane, x, y) == Stored(Projected(trace, owner), plane, x, y)
    decreases |trace|
  {
    hide Window;
    if trace != [] {
      var n := |trace| - 1;
      OwnerDecides(s, slices, trace[..n], plane, x, y, owner);
      var last := trace[n];
      if last.write.plane == plane && last.write.x == x && last.write.y == y {
        TheOwner(s, slices, plane, x, y, owner, last.slice);
      }
      if last.slice == owner {
        var projected := Projected(trace, owner);
        assert projected[..|projected| - 1] == Projected(trace[..n], owner);
      }
    }
  }

  lemma TheOwner(s: StreamParameters, slices: seq<Rect>, plane: nat, x: nat, y: nat, owner: nat, slice: nat)
    requires 0 < s.numHSlices && 0 < s.numVSlices && slice < |slices|
    requires owner < |slices| && OnlyOne(Windows(s, plane, slices), owner, x, y)
    requires Holds(Window(s, plane, slices[slice]), x, y)
    ensures slice == owner
  {
    hide Window;
    assert Holds(Windows(s, plane, slices)[slice], x, y);
  }

  /** If the slices tile the raster, any two interleavings of the same slices' writes leave the
      same frame: decoding in parallel, with any number of threads, is decoding in series. */
  lemma OrderIrrelevant(s: StreamParameters, slices: seq<Rect>, a: seq<Tagged>, b: seq<Tagged>, plane: nat, x: nat, y: nat)
    requires 0 < s.numHSlices && 0 < s.numVSlices && ExactCover(slices, s.numHSlices, s.numVSlices)
    requires Confined(s, slices, a) && Confined(s, slices, b)
    requires forall i :: 0 <= i < |slices| ==> Projected(a, i) == Projected(b, i)
    requires x < PlaneWidth(s, plane) && y < PlaneHeight(s, plane)
    ensures Stored(a, plane, x, y) == Stored(b, plane, x, y)
  {
    hide Stored, Projected, ExactCover, OnlyOne, PlaneWidth, PlaneHeight, Window;
    PlaneTiled(s, plane, slices);
    var owner := OwnerOf(s, slices, plane, x, y);
    OwnerDecides(s, slices, a, plane, x, y, owner);
    OwnerDecides(s, slices, b, plane, x, y, owner);
  }

  lemma OwnerOf(s: StreamParameters, slices: seq<Rect>, plane: nat, x: nat, y: nat) returns (owner: nat)
    requires 0 < s.numHSlices && 0 < s.numVSlices
    requires ExactCover(Windows(s, plane, slices), PlaneWidth(s, plane), PlaneHeight(s, plane))
    requires x < PlaneWidth(s, plane) && y < PlaneHeight(s, plane)
    ensures owner < |slices| && OnlyOne(Windows(s, plane, slices), owner, x, y)
  {
    hide OnlyOne, PlaneWidth, PlaneHeight, Window;
    var windows := Windows(s, plane, slices);
    assert CoveredOnce(windows, x, y);
    var i :| OnlyOne(windows, i, x, y);
    OnlyOneInside(windows, i, x, y);
    owner := i;
  }

  lemma OnlyOneInside(windows: seq<Rect>, i: int, x: nat, y: nat)
    requires OnlyOne(windows, i, x, y)
    ensures 0 <= i < |windows|
  {
  }

  /** The part of a plane inside a window. */
  function CutPlane(plane: seq<seq<int>>, w: Rect): (part: seq<seq<int>>)
    requires w.y + w.height <= |plane| && forall y :: 0 <= y < |plane| ==> w.x + w.width <= |plane[y]|
    ensures |part| == w.height && forall y :: 0 <= y < |part| ==> |part[y]| == w.width
  {
    seq(w.height, y requires 0 <= y < w.height => plane[w.y + y][w.x..w.x + w.width])
  }

  /** Windows of slices on the raster stay inside their plane. */
  lemma WindowInside(s: StreamParameters, p: nat, slice: Rect)
    requires 0 < s.numHSlices && 0 < s.numVSlices && Inside(slice, s.numHSlices, s.numVSlices)
    ensures Window(s, p, slice).x + Window(s, p, slice).width <= PlaneWidth(s, p)
    ensures Window(s, p, slice).y + Window(s, p, slice).height <= PlaneHeight(s, p)
  {
    hide ScaledGridPosition, PlaneWidth, PlaneHeight;
    PositionEnds(PlaneWidth(s, p), s.numHSlices);
    PositionEnds(PlaneHeight(s, p), s.numVSlices);
    PositionMonotone(PlaneWidth(s, p), s.numHSlices, slice.x + slice.width, s.numHSlices);
    PositionMonotone(PlaneHeight(s, p), s.numVSlices, slice.y + slice.height, s.numVSlices);
    PositionMonotone(PlaneWidth(s, p), s.numHSlices, slice.x, slice.x + slice.width);
    PositionMonotone(PlaneHeight(s, p), s.numVSlices, slice.y, slice.y + slice.height);
  }

  lemma {:induction false} StoredConcat(a: seq<Tagged>, b: seq<Tagged>, plane: nat, x: nat, y: nat)
    ensures Stored(a + b, plane, x, y) == if Stored(b, plane, x, y).Some? then Stored(b, plane, x, y) else Stored(a, plane, x, y)
    decreases |b|
  {
    if b == [] {
      assert a + b == a;
    } else {
      var n := |b| - 1;
      assert (a + b)[..|a + b| - 1] == a + b[..n] && (a + b)[|a + b| - 1] == b[n];
      StoredConcat(a, b[..n], plane, x, y);
    }
  }

  /** The first n samples of row y of a slice's window, left to right. */
  function RowTrace(slice: nat, plane: nat, w: Rect, y: nat, row: seq<int>, n: nat): seq<Tagged>
    requires n <= |row|
  {
    if n == 0 then []
    else RowTrace(slice, plane, w, y, row, n - 1) + [Tagged(slice, Write(plane, w.x + n - 1, w.y + y, row[n - 1]))]
  }

  /** The first n rows, top to bottom. */
  function PlaneTrace(slice: nat, plane: nat, w: Rect, part: seq<seq<int>>, n: nat): seq<Tagged>
    requires n <= |part|
  {
    if n == 0 then []
    else PlaneTrace(slice, plane, w, part, n - 1) + RowTrace(slice, plane, w, n - 1, part[n - 1], |part[n - 1]|)
  }

  /** The first n planes of a decoded slice, stored at its place in the frame. */
  function SliceTrace(s: StreamParameters, slice: nat, rect: Rect, image: Planes, n: nat): seq<Tagged>
    requires 0 < s.numHSlices && 0 < s.numVSlices && n <= |image|
  {
    if n == 0 then []
    else SliceTrace(s, slice, rect, image, n - 1) + PlaneTrace(slice, n - 1, Window(s, n - 1, rect), image[n - 1], |image[n - 1]|)
  }

  lemma {:induction false} RowStored(slice: nat, plane: nat, w: Rect, y: nat, row: seq<int>, n: nat, p: nat, px: nat, py: nat)
    requires n <= |row|
    ensures Stored(RowTrace(slice, plane, w, y, row, n), p, px, py) ==
            if p == plane && py == w.y + y && w.x <= px < w.x + n then Some(row[px - w.x]) else None
    ensures forall e <- RowTrace(slice, plane, w, y, row, n) ::
              e.slice == slice && e.write.plane == plane && e.write.y == w.y + y && w.x <= e.write.x < w.x + n
    decreases n
  {
    if n > 0 {
      RowStored(slice, plane, w, y, row, n - 1, p, px, py);
      var trace := RowTrace(slice, plane, w, y, row, n);
      assert trace[..|trace| - 1] == RowTrace(slice, plane, w, y, row, n - 1);
    }
  }

  lemma {:induction false} PlaneStored(slice: nat, plane: nat, w: Rect, part: seq<seq<int>>, n: nat, p: nat, px: nat, py: nat)
    requires n <= |part| && forall k :: 0 <= k < |part| ==> |part[k]| == w.width
    ensures Stored(PlaneTrace(slice, plane, w, part, n), p, px, py) ==
            if p == plane && w.y <= py < w.y + n && w.x <= px < w.x + w.width then Some(part[py - w.y][px - w.x]) else None
    ensures forall e <- PlaneTrace(slice, plane, w, part, n) ::
              e.slice == slice && e.write.plane == plane && w.y <= e.write.y < w.y + n && w.x <= e.write.x < w.x + w.width
    decreases n
  {
    hide RowTrace, Stored;
    if n == 0 {
      NothingStored(p, px, py);
    } else {
      PlaneStored(slice, plane, w, part, n - 1, p, px, py);
      RowStored(slice, plane, w, n - 1, part[n - 1], |part[n - 1]|, p, px, py);
      StoredConcat(PlaneTrace(slice, plane, w, part, n - 1), RowTrace(slice, plane, w, n - 1, part[n - 1], |part[n - 1]|), p, px, py);
    }
  }

  lemma NothingStored(p: nat, px: nat, py: nat)
    ensures Stored([], p, px, py) == None
  {
  }

  /** The planes of a decoded slice have the size of its windows. */
  ghost predicate FillsWindows(s: StreamParameters, rect: Rect, image: Planes)
    requires 0 < s.numHSlices && 0 < s.numVSlices
  {
    forall p :: 0 <= p < |image| ==> FillsWindow(Window(s, p, rect), image[p])
  }

  predicate FillsWindow(w: Rect, part: seq<seq<int>>) {
    |part| == w.height && forall k :: 0 <= k < |part| ==> |part[k]| == w.width
  }

  lemma {:induction false} SliceStored(s: StreamParameters, slice: nat, rect: Rect, image: Planes, n: nat, p: nat, px: nat, py: nat)
    requires 0 < s.numHSlices && 0 < s.numVSlices && n <= |image| && FillsWindows(s, rect, image)
    ensures p < n && Holds(Window(s, p, rect), px, py) ==>
              var w := Window(s, p, rect);
              Stored(SliceTrace(s, slice, rect, image, n), p, px, py) == Some(image[p][py - w.y][px - w.x])
    ensures !(p < n && Holds(Window(s, p, rect), px, py)) ==> Stored(SliceTrace(s, slice, rect, image, n), p, px, py) == None
    ensures forall e <- SliceTrace(s, slice, rect, image, n) ::
              e.slice == slice && Holds(Window(s, e.write.plane, rect), e.write.x, e.write.y)
    decreases n
  {
    hide Window, PlaneTrace, Stored;
    if n == 0 {
      NothingStored(p, px, py);
    } else {
      SliceStored(s, slice, rect, image, n - 1, p, px, py);
      var w := Window(s, n - 1, rect);
      assert FillsWindow(w, image[n - 1]);
      PlaneStored(slice, n - 1, w, image[n - 1], |image[n - 1]|, p, px, py);
      StoredConcat(SliceTrace(s, slice, rect, image, n - 1), PlaneTrace(slice, n - 1, w, image[n - 1], |image[n - 1]|), p, px, py);
    }
  }

  /** Every slice stores its own image, in its own order; between slices any interleaving. */
  ghost predicate Interleaves(s: StreamParameters, rects: seq<Rect>, images: seq<Planes>, trace: seq<Tagged>)
    requires 0 < s.numHSlices && 0 < s.numVSlices
  {
    && |images| == |rects|
    && (forall k :: 0 <= k < |trace| ==> trace[k].slice < |rects|)
    && forall i :: 0 <= i < |rects| ==> Projected(trace, i) == SliceTrace(s, i, rects[i], images[i], |images[i]|)
  }

  lemma {:induction false} InItsProjection(trace: seq<Tagged>, k: nat)
    requires k < |trace|
    ensures trace[k] in Projected(trace, trace[k].slice)
    decreases |trace|
  {
    if k < |trace| - 1 {
      InItsProjection(trace[..|trace| - 1], k);
    }
  }

  lemma InterleavedConfined(s: StreamParameters, rects: seq<Rect>, images: seq<Planes>, trace: seq<Tagged>)
    requires 0 < s.numHSlices && 0 < s.numVSlices && Interleaves(s, rects, images, trace)
    requires forall i :: 0 <= i < |rects| ==> FillsWindows(s, rects[i], images[i])
    ensures Confined(s, rects, trace)
  {
    hide Window, SliceTrace, Projected, FillsWindows, Holds;
    forall k | 0 <= k < |trace|
      ensures Holds(Window(s, trace[k].write.plane, rects[trace[k].slice]), trace[k].write.x, trace[k].write.y)
    {
      var i := trace[k].slice;
      InItsProjection(trace, k);
      SliceStored(s, i, rects[i], images[i], |images[i]|, 0, 0, 0);
    }
  }

  /** Whatever the interleaving, every sample of the frame is the one its own slice decoded. */
  lemma SampleArrives(s: StreamParameters, rects: seq<Rect>, images: seq<Planes>, trace: seq<Tagged>, p: nat, x: nat, y: nat)
    returns (owner: nat)
    requires 0 < s.numHSlices && 0 < s.numVSlices && ExactCover(rects, s.numHSlices, s.numVSlices)
    requires Interleaves(s, rects, images, trace)
    requires forall i :: 0 <= i < |rects| ==> FillsWindows(s, rects[i], images[i]) && p < |images[i]|
    requires x < PlaneWidth(s, p) && y < PlaneHeight(s, p)
    ensures owner < |rects| && Holds(Window(s, p, rects[owner]), x, y)
    ensures var w := Window(s, p, rects[owner]);
            && FillsWindow(w, images[owner][p])
            && Stored(trace, p, x, y) == Some(images[owner][p][y - w.y][x - w.x])
  {
    hide ExactCover, OnlyOne, PlaneWidth, PlaneHeight, Window, SliceTrace, Projected, Stored;
    InterleavedConfined(s, rects, images, trace);
    PlaneTiled(s, p, rects);
    owner := OwnerOf(s, rects, p, x, y);
    OwnerHolds(s, rects, p, x, y, owner);
    OwnerDecides(s, rects, trace, p, x, y, owner);
    SliceStored(s, owner, rects[owner], images[owner], |images[owner]|, p, x, y);
    assert FillsWindow(Window(s, p, rects[owner]), images[owner][p]);
  }

  lemma OwnerHolds(s: StreamParameters, slices: seq<Rect>, p: nat, x: nat, y: nat, owner: nat)
    requires 0 < s.numHSlices && 0 < s.numVSlices
    requires owner < |slices| && OnlyOne(Windows(s, p, slices), owner, x, y)
    ensures Holds(Window(s, p, slices[owner]), x, y)
  {
  }
}
