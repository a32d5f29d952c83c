// Rows of a window on their way into the encoder and out of the decoder.

module SliceWindow {
  import opened Basics
  import opened SampleModel
  import opened ColorTransform
  import opened StreamModel
  import opened SliceSchedule
  import opened SliceStates

  /** Input samples must fit the configured depth. */
  method LoadRow(row: seq<int>, bits: nat) returns (r: Result<seq<int>>)
    ensures AllSamples(row, bits) ==> r == Ok(row)
    ensures !AllSamples(row, bits) ==> r == Err(InvalidArgument)
  {
    var samples: seq<int> := [];
    for x := 0 to |row|
      invariant samples == row[..x] && AllSamples(row[..x], bits)
    {
      if row[x] < 0 || Pow2(bits) <= row[x] {
        assert !IsSample(row[x], bits);
        return Err(InvalidArgument);
      }
      samples := samples + [row[x]];
    }
    assert row[..|row|] == row;
    r := Ok(samples);
  }

  /** Rows y of all planes of an RGB window, transformed; an extra plane is kept as it is.
      Only the first `checked` planes are checked here. */
  method LoadRgbRows(l: Layout, image: Planes, y: nat, checked: nat) returns (r: Result<seq<seq<int>>>)
    requires IsLayout(l) && Shaped(l, image) && l.rgb && y < l.heights[0] && 3 <= checked <= |image|
    ensures r.Ok? <==> forall p :: 0 <= p < checked ==> AllSamples(image[p][y], l.bits)
    ensures r.Ok? ==> |r.value| == |image| && forall p :: 0 <= p < |image| ==> r.value[p] == TransformedPlane(l, image, p)[y]
    ensures r.Err? ==> r.error == InvalidArgument
  {
    hide AllSamples, ForwardRows;
    var rows: seq<seq<int>> := [];
    for p := 0 to checked
      invariant |rows| == p
      invariant forall k :: 0 <= k < p ==> rows[k] == image[k][y] && AllSamples(image[k][y], l.bits)
    {
      var row := LoadRow(image[p][y], l.bits);
      if row.Err? {
        return Err(row.error);
      }
      rows := rows + [row.value];
    }
    var transformed := TransformRows(Rows(rows[0], rows[1], rows[2]), l.bits, l.extraPlane);
    rows := [transformed.first, transformed.second, transformed.third] + if l.extraPlane then [image[3][y]] else [];
    r := Ok(rows);
  }

  /** The transform, pixel by pixel. */
  method TransformRows(rows: Rows, bits: nat, extraPlane: bool) returns (r: Rows)
    requires Even(rows)
    ensures r == ForwardRows(rows, bits, extraPlane)
  {
    hide Forward;
    var y, cb, cr: seq<int> := [], [], [];
    ghost var goal := ForwardRows(rows, bits, extraPlane);
    for x := 0 to |rows.first|
      invariant y == goal.first[..x] && cb == goal.second[..x] && cr == goal.third[..x]
    {
      var code := Forward(PixelAt(rows, x), bits, extraPlane);
      assert CoefficientsAt(goal, x) == code;
      y, cb, cr := y + [code.y], cb + [code.cb], cr + [code.cr];
    }
    r := Rows(y, cb, cr);
    assert goal.first[..|rows.first|] == goal.first;
    assert goal.second[..|rows.first|] == goal.second;
    assert goal.third[..|rows.first|] == goal.third;
  }

  /** All rows of the image up to the given ones fit the configured depth. */
  predicate Loaded(l: Layout, image: Planes, reached: seq<nat>) {
    forall p, y :: 0 <= p < |image| && p < |reached| && 0 <= y < |image[p]| && y < reached[p] ==> AllSamples(image[p][y], l.bits)
  }

  lemma NothingLoaded(l: Layout, image: Planes)
    requires IsLayout(l) && Shaped(l, image)
    ensures Loaded(l, image, PlanarReached(l, 0, 0)) && Loaded(l, image, RgbReached(l, 0, 0))
  {
  }

  lemma LoadedRgb(l: Layout, image: Planes, y: nat)
    requires IsLayout(l) && Shaped(l, image) && l.rgb && y < l.heights[0]
    requires Loaded(l, image, RgbReached(l, y, 0)) && forall p :: 0 <= p < |image| ==> AllSamples(image[p][y], l.bits)
    ensures Loaded(l, image, RgbReached(l, y + 1, 0))
  {
    hide AllSamples;
  }

  lemma LoadedNext(l: Layout, image: Planes, plane: nat, y: nat)
    requires IsLayout(l) && Shaped(l, image) && plane < |image| && y < l.heights[plane]
    requires Loaded(l, image, PlanarReached(l, plane, y)) && AllSamples(image[plane][y], l.bits)
    ensures Loaded(l, image, PlanarReached(l, plane, y + 1))
  {
    hide AllSamples;
  }

  lemma LoadedPlane(l: Layout, image: Planes, plane: nat)
    requires IsLayout(l) && Shaped(l, image) && plane < |image|
    requires Loaded(l, image, PlanarReached(l, plane, l.heights[plane]))
    ensures Loaded(l, image, PlanarReached(l, plane + 1, 0))
  {
    hide AllSamples;
  }

  lemma AllLoaded(l: Layout, image: Planes, reached: seq<nat>)
    requires IsLayout(l) && Shaped(l, image)
    requires Loaded(l, image, reached) && |reached| == |l.heights|
    requires forall p :: 0 <= p < |l.heights| ==> reached[p] == l.heights[p]
    ensures IsImage(l, image)
  {
    hide AllSamples;
  }

  /** The inverse transform, pixel by pixel. */
  method RestoreRows(rows: Rows, bits: nat, extraPlane: bool) returns (r: Rows)
    requires Even(rows)
    ensures r == InverseRows(rows, bits, extraPlane)
  {
    hide Inverse;
    var red, green, blue: seq<int> := [], [], [];
    ghost var goal := InverseRows(rows, bits, extraPlane);
    for x := 0 to |rows.first|
      invariant red == goal.first[..x] && green == goal.second[..x] && blue == goal.third[..x]
    {
      var sample := Inverse(CoefficientsAt(rows, x), bits, extraPlane);
      assert PixelAt(goal, x) == sample;
      red, green, blue := red + [sample.r], green + [sample.g], blue + [sample.b];
    }
    r := Rows(red, green, blue);
    assert goal.first[..|rows.first|] == goal.first;
    assert goal.second[..|rows.first|] == goal.second;
    assert goal.third[..|rows.first|] == goal.third;
  }

  /** The current lines as row y of every plane. */
  ghost predicate Holds(state: SliceState, got: Planes, y: nat)
    reads state
  {
    |got| == |state.lines| && forall p :: 0 <= p < |got| ==> |got[p]| == y + 1 && got[p][y] == state.lines[p].current
  }

  /** Hands out row y of all planes as samples, and swaps their lines. */
  method StoreRgbLine(l: Layout, state: SliceState, image: Planes, y: nat, ghost got: Planes) returns (out: Planes)
    requires IsLayout(l) && l.rgb && state.Fits(l) && |image| == |l.widths|
    requires Holds(state, got, y)
    modifies state`lines
    ensures state.Fits(l) && state.Aboves() == old(state.Viewed(0, |l.widths|))
    ensures |out| == |image| && RowShaped(l, got, y)
    ensures forall p :: 0 <= p < |image| ==> out[p] == image[p] + [RestoredRow(l, got, p, y)]
  {
    hide InverseRows, IsTableSet;
    assert RowShaped(l, got, y);
    var lines := state.lines;
    assert l.widths[0] == l.widths[1] == l.widths[2];
    var rows := RestoreRows(Rows(lines[0].current, lines[1].current, lines[2].current), l.bits, l.extraPlane);
    assert rows == InverseRows(RgbRow(l, got, y), l.bits, l.extraPlane);
    out := [image[0] + [rows.first], image[1] + [rows.second], image[2] + [rows.third]];
    if l.extraPlane {
      out := out + [image[3] + [Cut(lines[3].current, l.bits)]];
    }
    state.SwapAll();
  }

  /** The first y rows of the output are the restored rows of what was decoded. */
  ghost predicate Handed(l: Layout, image: Planes, got: Planes, y: nat)
    requires IsLayout(l) && l.rgb
  {
    && |image| == |got| == |l.widths|
    && (forall p :: 0 <= p < |got| ==> |got[p]| == |image[p]| == y)
    && (forall k :: 0 <= k < y ==> RowShaped(l, got, k))
    && (forall p, k :: 0 <= p < |got| && 0 <= k < y ==> image[p][k] == RestoredRow(l, got, p, k))
  }

  lemma HandedNext(l: Layout, image: Planes, got: Planes, more: Planes, out: Planes, y: nat)
    requires IsLayout(l) && l.rgb && Handed(l, image, got, y)
    requires |more| == |got| == |out| && RowShaped(l, more, y)
    requires forall p :: 0 <= p < |got| ==> |more[p]| == y + 1 && more[p][..y] == got[p]
    requires forall p :: 0 <= p < |got| ==> out[p] == image[p] + [RestoredRow(l, more, p, y)]
    ensures Handed(l, out, more, y + 1)
  {
    hide InverseRows, IsTableSet;
    forall k | 0 <= k < y
      ensures RowShaped(l, more, k)
      ensures forall p :: 0 <= p < |got| ==> out[p][k] == RestoredRow(l, more, p, k)
    {
      SameRow(l, got, more, k);
    }
  }

  lemma SameRow(l: Layout, got: Planes, more: Planes, k: nat)
    requires IsLayout(l) && l.rgb && |more| == |got| && RowShaped(l, got, k)
    requires forall p :: 0 <= p < |got| ==> got[p] <= more[p]
    ensures RowShaped(l, more, k)
    ensures forall p :: 0 <= p < |got| ==> RestoredRow(l, more, p, k) == RestoredRow(l, got, p, k)
  {
    hide InverseRows, IsTableSet;
    assert forall p :: 0 <= p < |got| ==> more[p][k] == got[p][k];
  }

  lemma HandedAll(l: Layout, image: Planes, got: Planes)
    requires IsLayout(l) && l.rgb && Handed(l, image, got, l.heights[0])
    ensures Shaped(l, got) && RestoredImage(l, got) == image
  {
    hide InverseRows, IsTableSet;
    assert Shaped(l, got) by {
      forall p, y | 0 <= p < |got| && 0 <= y < |got[p]|
        ensures |got[p][y]| == l.widths[p]
      {
        assert RowShaped(l, got, y);
      }
    }
    forall p | 0 <= p < |got|
      ensures RestoredImage(l, got)[p] == image[p]
    {
    }
  }
}
