// The order in which the rows of a slice are coded, and the samples that are coded.

module SliceSchedule {
  import opened Basics
  import opened SampleModel
  import opened ColorTransform
  import opened StreamModel

  // plane -> row -> sample
  type Planes = seq<seq<seq<int>>>

  /** What the coding of a slice's content depends on: the window of each plane, the table
      set of each slot, and the sample format. */
  datatype Layout = Layout(
    mode: EntropyMode,
    rgb: bool,
    extraPlane: bool,
    bits: nat,
    widths: seq<nat>,
    heights: seq<nat>,
    slots: seq<nat>,
    tables: seq<QuantTableSet>)

  predicate IsLayout(l: Layout) {
    && 1 <= l.bits <= 16
    && 1 <= |l.widths| <= 4
    && |l.heights| == |l.widths| && |l.slots| == |l.widths|
    && (forall p :: 0 <= p < |l.widths| ==> 0 < l.widths[p])
    && (forall p :: 0 <= p < |l.slots| ==> l.slots[p] < |l.tables|)
    && (forall t <- l.tables :: IsTableSet(t))
    && (l.rgb ==> IsRgbLayout(l))
  }

  predicate IsRgbLayout(l: Layout) {
    && 3 <= |l.widths| && |l.heights| == |l.widths|
    && (|l.widths| == 4 <==> l.extraPlane)
    && (forall p :: 0 <= p < |l.widths| ==> l.widths[p] == l.widths[0])
    && (forall p :: 0 <= p < |l.heights| ==> l.heights[p] == l.heights[0])
  }

  /** One row to code: its plane, its number, the slot of its contexts, the run state it
      uses, and the width of its differences. */
  datatype Item = Item(plane: nat, y: nat, slot: nat, run: nat, bits: nat)

  predicate IsItem(l: Layout, item: Item)
    requires IsLayout(l)
  {
    && item.plane < |l.widths| && item.y < l.heights[item.plane]
    && item.slot == l.slots[item.plane]
    && item.run < |l.widths|
    && item.bits == RowBits(l, item.plane)
  }

  /** Transformed planes carry one more bit.  In Golomb-Rice mode so does an extra plane
      beside them; in range mode it keeps its own width. */
  function RowBits(l: Layout, plane: nat): nat {
    if l.rgb && (plane < 3 || l.mode == GolombRiceMode) then l.bits + 1 else l.bits
  }

  /** Plane after plane. */
  function PlanarItems(l: Layout, plane: nat, y: nat): seq<Item>
    requires IsLayout(l) && plane <= |l.widths| && (plane < |l.widths| ==> y <= l.heights[plane])
    decreases |l.widths| - plane, if plane < |l.widths| then l.heights[plane] - y else 0
  {
    if plane == |l.widths| then []
    else if y == l.heights[plane] then PlanarItems(l, plane + 1, 0)
    else [Item(plane, y, l.slots[plane], plane, RowBits(l, plane))] + PlanarItems(l, plane, y + 1)
  }

  /** Row after row, the planes interleaved; all of them share the first run state. */
  function RgbItems(l: Layout, y: nat, plane: nat): seq<Item>
    requires IsLayout(l) && l.rgb && y <= l.heights[0] && plane <= |l.widths|
    decreases l.heights[0] - y, |l.widths| - plane
  {
    if y == l.heights[0] then []
    else if plane == |l.widths| then RgbItems(l, y + 1, 0)
    else [Item(plane, y, l.slots[plane], 0, RowBits(l, plane))] + RgbItems(l, y, plane + 1)
  }

  function Schedule(l: Layout): seq<Item>
    requires IsLayout(l)
  {
    if l.rgb then RgbItems(l, 0, 0) else PlanarItems(l, 0, 0)
  }

  /** The items visit the rows of every plane in order, from `reached` to the last one. */
  ghost predicate Ordered(l: Layout, items: seq<Item>, reached: seq<nat>)
    requires IsLayout(l)
    decreases |items|
  {
    && |reached| == |l.widths|
    && if items == [] then reached == l.heights
       else
         && IsItem(l, items[0])
         && items[0].y == reached[items[0].plane]
         && Ordered(l, items[1..], reached[items[0].plane := items[0].y + 1])
  }

  function PlanarReached(l: Layout, plane: nat, y: nat): (r: seq<nat>)
    requires IsLayout(l)
    ensures |r| == |l.widths|
  {
    seq(|l.widths|, p requires 0 <= p < |l.widths| => if p < plane then l.heights[p] else if p == plane then y else 0)
  }

  function RgbReached(l: Layout, y: nat, plane: nat): (r: seq<nat>)
    ensures |r| == |l.widths|
  {
    seq(|l.widths|, p => if p < plane then y + 1 else y)
  }

  lemma {:induction false} PlanarOrdered(l: Layout, plane: nat, y: nat)
    requires IsLayout(l) && plane <= |l.widths| && (plane < |l.widths| ==> y <= l.heights[plane])
    ensures Ordered(l, PlanarItems(l, plane, y), PlanarReached(l, plane, y))
    decreases |l.widths| - plane, if plane < |l.widths| then l.heights[plane] - y else 0
  {
    if plane == |l.widths| {
      assert PlanarReached(l, plane, y) == l.heights;
    } else if y == l.heights[plane] {
      assert PlanarReached(l, plane, y) == PlanarReached(l, plane + 1, 0);
      PlanarOrdered(l, plane + 1, 0);
    } else {
      assert PlanarReached(l, plane, y)[plane := y + 1] == PlanarReached(l, plane, y + 1);
      PlanarOrdered(l, plane, y + 1);
    }
  }

  lemma {:induction false} RgbOrdered(l: Layout, y: nat, plane: nat)
    requires IsLayout(l) && l.rgb && y <= l.heights[0] && plane <= |l.widths| && (y == l.heights[0] ==> plane == 0)
    ensures Ordered(l, RgbItems(l, y, plane), RgbReached(l, y, plane))
    decreases l.heights[0] - y, |l.widths| - plane
  {
    if y == l.heights[0] {
      assert RgbReached(l, y, plane) == l.heights;
    } else if plane == |l.widths| {
      assert RgbReached(l, y, plane) == RgbReached(l, y + 1, 0);
      RgbOrdered(l, y + 1, 0);
    } else {
      assert RgbReached(l, y, plane)[plane := y + 1] == RgbReached(l, y, plane + 1);
      RgbOrdered(l, y, plane + 1);
    }
  }

  function Nothing(l: Layout): (r: seq<nat>)
    ensures |r| == |l.widths|
  {
    seq(|l.widths|, _ => 0)
  }

  /** Both orders code every row of every plane exactly once, top to bottom. */
  lemma ScheduleOrdered(l: Layout)
    requires IsLayout(l)
    ensures Ordered(l, Schedule(l), Nothing(l))
  {
    if l.rgb {
      assert RgbReached(l, 0, 0) == Nothing(l);
      RgbOrdered(l, 0, 0);
    } else {
      assert PlanarReached(l, 0, 0) == Nothing(l);
      PlanarOrdered(l, 0, 0);
    }
  }

  /** The planes have the shape of the window. */
  predicate Shaped(l: Layout, planes: Planes)
    requires IsLayout(l)
  {
    && |planes| == |l.widths|
    && (forall p :: 0 <= p < |planes| ==> |planes[p]| == l.heights[p])
    && (forall p, y :: 0 <= p < |planes| && 0 <= y < |planes[p]| ==> |planes[p][y]| == l.widths[p])
  }

  /** Every sample of every plane fits its coded width. */
  predicate InRange(l: Layout, planes: Planes) {
    forall p, y :: 0 <= p < |planes| && 0 <= y < |planes[p]| ==> AllSamples(planes[p][y], RowBits(l, p))
  }

  /** The input image: what the encoder accepts. */
  predicate IsImage(l: Layout, image: Planes)
    requires IsLayout(l)
  {
    && Shaped(l, image)
    && forall p, y :: 0 <= p < |image| && 0 <= y < |image[p]| ==> AllSamples(image[p][y], l.bits)
  }

  /** Row y of every plane is there and has the plane's width. */
  predicate RowShaped(l: Layout, planes: Planes, y: nat)
    requires IsLayout(l)
  {
    && |planes| == |l.widths|
    && forall p :: 0 <= p < |planes| ==> y < |planes[p]| && |planes[p][y]| == l.widths[p]
  }

  function RgbRow(l: Layout, planes: Planes, y: nat): (r: Rows)
    requires IsLayout(l) && l.rgb && RowShaped(l, planes, y)
    ensures Even(r) && |r.first| == l.widths[0]
  {
    assert l.widths[1] == l.widths[0] && l.widths[2] == l.widths[0];
    Rows(planes[0][y], planes[1][y], planes[2][y])
  }

  function Component(rows: Rows, p: nat): seq<int>
    requires p < 3
  {
    if p == 0 then rows.first else if p == 1 then rows.second else rows.third
  }

  /** The samples that are coded: the image itself, or its transform with any extra plane kept. */
  function Transformed(l: Layout, image: Planes): (planes: Planes)
    requires IsLayout(l) && Shaped(l, image)
  {
    if !l.rgb then image
    else seq(|image|, p requires 0 <= p < |image| => TransformedPlane(l, image, p))
  }

  function TransformedPlane(l: Layout, image: Planes, p: nat): (plane: seq<seq<int>>)
    requires IsLayout(l) && Shaped(l, image) && l.rgb && p < |image|
  {
    if p == 3 then image[3]
    else
      seq(l.heights[0], y requires 0 <= y < l.heights[0] =>
        Component(ForwardRows(RgbRow(l, image, y), l.bits, l.extraPlane), p))
  }

  /** How decoded samples become an image again; samples of an extra plane are cut to their width. */
  function RestoredImage(l: Layout, planes: Planes): Planes
    requires IsLayout(l) && Shaped(l, planes)
  {
    if !l.rgb then planes
    else
      seq(|planes|, p requires 0 <= p < |planes| =>
        seq(|planes[p]|, y requires 0 <= y < |planes[p]| => RestoredRow(l, planes, p, y)))
  }

  function RestoredRow(l: Layout, planes: Planes, p: nat, y: nat): seq<int>
    requires IsLayout(l) && l.rgb && RowShaped(l, planes, y) && p < |planes|
  {
    if p == 3 then Cut(planes[3][y], l.bits)
    else Component(InverseRows(RgbRow(l, planes, y), l.bits, l.extraPlane), p)
  }

  function Cut(row: seq<int>, bits: nat): (r: seq<int>)
    ensures |r| == |row|
  {
    seq(|row|, x requires 0 <= x < |row| => LowBits(row[x], bits))
  }

  lemma CutSamples(row: seq<int>, bits: nat)
    requires AllSamples(row, bits)
    ensures Cut(row, bits) == row
  {
    forall x | 0 <= x < |row|
      ensures LowBits(row[x], bits) == row[x]
    {
      LowBitsSmall(row[x], bits);
    }
  }

  lemma TransformedRow(l: Layout, image: Planes, y: nat)
    requires IsLayout(l) && IsImage(l, image) && l.rgb && y < l.heights[0]
    ensures Shaped(l, Transformed(l, image))
    ensures RgbRow(l, Transformed(l, image), y) == ForwardRows(RgbRow(l, image, y), l.bits, l.extraPlane)
    ensures InverseRows(RgbRow(l, Transformed(l, image), y), l.bits, l.extraPlane) == RgbRow(l, image, y)
    ensures forall p :: 0 <= p < 3 ==> AllSamples(Transformed(l, image)[p][y], l.bits + 1)
  {
    hide InverseRows, AllSamples;
    RowsRestored(RgbRow(l, image, y), l.bits, l.extraPlane);
  }

  lemma TransformedShaped(l: Layout, image: Planes)
    requires IsLayout(l) && Shaped(l, image)
    ensures Shaped(l, Transformed(l, image))
  {
  }

  lemma RowInRange(l: Layout, image: Planes, p: nat, y: nat)
    requires IsLayout(l) && IsImage(l, image)
    requires p < |image| && y < |image[p]|
    ensures |Transformed(l, image)| == |image| && |Transformed(l, image)[p]| == |image[p]|
    ensures AllSamples(Transformed(l, image)[p][y], RowBits(l, p))
  {
    hide ForwardRows, InverseRows;
    TransformedShaped(l, image);
    assert AllSamples(image[p][y], l.bits);
    if l.rgb && p < 3 {
      TransformedRow(l, image, y);
    }
  }

  /** The coded samples have the shape of the window and fit their coded width. */
  lemma TransformedInRange(l: Layout, image: Planes)
    requires IsLayout(l) && IsImage(l, image)
    ensures Shaped(l, Transformed(l, image)) && InRange(l, Transformed(l, image))
  {
    hide Transformed, AllSamples, IsLayout;
    TransformedShaped(l, image);
    var planes := Transformed(l, image);
    forall p, y | 0 <= p < |planes| && 0 <= y < |planes[p]|
      ensures AllSamples(planes[p][y], RowBits(l, p))
    {
      RowInRange(l, image, p, y);
    }
  }

  /** Decoding undoes the transform of the whole window. */
  lemma ImageRestored(l: Layout, image: Planes)
    requires IsLayout(l) && IsImage(l, image)
    ensures Shaped(l, Transformed(l, image))
    ensures RestoredImage(l, Transformed(l, image)) == image
  {
    hide ForwardRows, InverseRows, AllSamples;
    TransformedInRange(l, image);
    if l.rgb {
      var planes := Transformed(l, image);
      var back := RestoredImage(l, planes);
      forall p | 0 <= p < |planes|
        ensures back[p] == image[p]
      {
        forall y | 0 <= y < |planes[p]|
          ensures RestoredRow(l, planes, p, y) == image[p][y]
        {
          assert AllSamples(image[p][y], l.bits);
          if p == 3 {
            CutSamples(image[3][y], l.bits);
          } else {
            TransformedRow(l, image, y);
          }
        }
      }
    }
  }

  ghost predicate AreItems(l: Layout, items: seq<Item>)
    requires IsLayout(l)
  {
    forall i :: 0 <= i < |items| ==> IsItem(l, items[i])
  }

  function BorderRow(width: nat): (r: seq<int>)
    ensures |r| == width
  {
    seq(width, _ => BORDER)
  }

  /** The rows above the first one. */
  function FreshLines(l: Layout): (lines: seq<Above>)
    ensures |lines| == |l.widths|
  {
    seq(|l.widths|, p requires 0 <= p < |l.widths| => Above(BorderRow(l.widths[p]), BorderRow(l.widths[p])))
  }

  function NoPlanes(l: Layout): (planes: Planes)
    ensures |planes| == |l.widths|
  {
    seq(|l.widths|, _ => [])
  }

  /** The planes decoded so far are the first rows of the coded ones. */
  ghost predicate Agreed(planes: Planes, got: Planes, reached: seq<nat>) {
    && |planes| == |got| == |reached|
    && forall p :: 0 <= p < |planes| ==> reached[p] <= |planes[p]| && got[p] == planes[p][..reached[p]]
  }

  lemma AgreedNext(planes: Planes, got: Planes, reached: seq<nat>, plane: nat, y: nat)
    requires Agreed(planes, got, reached)
    requires plane < |planes| && reached[plane] == y < |planes[plane]|
    ensures Agreed(planes, got[plane := got[plane] + [planes[plane][y]]], reached[plane := y + 1])
  {
    assert planes[plane][..y] + [planes[plane][y]] == planes[plane][..y + 1];
  }

  lemma AgreedAll(planes: Planes, got: Planes, reached: seq<nat>)
    requires Agreed(planes, got, reached)
    requires forall p :: 0 <= p < |planes| ==> reached[p] == |planes[p]|
    ensures got == planes
  {
    forall p | 0 <= p < |planes|
      ensures got[p] == planes[p]
    {
      assert planes[p][..|planes[p]|] == planes[p];
    }
  }

  lemma {:induction false} OrderedAreItems(l: Layout, items: seq<Item>, reached: seq<nat>)
    requires IsLayout(l) && Ordered(l, items, reached)
    ensures AreItems(l, items)
    decreases |items|
  {
    if items != [] {
      OrderedAreItems(l, items[1..], reached[items[0].plane := items[0].y + 1]);
    }
  }

  lemma ItemStands(l: Layout, items: seq<Item>, planes: Planes, reached: seq<nat>)
    requires IsLayout(l) && items != [] && Ordered(l, items, reached) && AreItems(l, items)
    requires Shaped(l, planes) && InRange(l, planes)
    ensures var item := items[0];
            && IsItem(l, item) && item.plane < |planes| && item.y < |planes[item.plane]|
            && |planes[item.plane][item.y]| == l.widths[item.plane]
            && AllSamples(planes[item.plane][item.y], item.bits)
            && AreItems(l, items[1..])
            && Ordered(l, items[1..], reached[item.plane := item.y + 1])
  {
  }

  lemma ItemInside(l: Layout, items: seq<Item>, reached: seq<nat>)
    requires IsLayout(l) && items != [] && Ordered(l, items, reached) && AreItems(l, items)
    ensures IsItem(l, items[0]) && items[0].plane < |l.widths| && AreItems(l, items[1..])
    ensures Ordered(l, items[1..], reached[items[0].plane := items[0].y + 1])
  {
  }

  lemma NothingAgrees(l: Layout, planes: Planes)
    requires IsLayout(l) && Shaped(l, planes)
    ensures Agreed(planes, NoPlanes(l), Nothing(l))
  {
  }
}
