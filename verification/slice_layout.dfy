// From the parameters of a stream and the place of a slice to what coding its content needs.

module SliceLayouts {
  import opened Basics
  import opened RangeSymbols
  import opened SampleModel
  import opened StreamModel
  import opened SliceRaster
  import opened SliceCoverage
  import opened SliceGeometry
  import opened SliceSchedule
  import opened SliceHeader

  /** The streams both slice coders support: version 3, 1 to 16 bits, known colour spaces. */
  predicate IsSupported(s: StreamParameters) {
    && s.version == 3
    && 1 <= s.bitsPerRawSample <= 16
    && s.colorspaceType <= 1
    && (s.colorspaceType == 1 ==> s.chromaPlanes)
    && 0 < s.numHSlices && 0 < s.numVSlices && IsSized(s)
    && (forall t <- s.quantTableSets :: IsTableSet(t))
    && (s.initialStates == [] || |s.initialStates| == |s.quantTableSets|)
  }

  /** A header whose table choices exist. */
  predicate IsPlaced(s: StreamParameters, v: HeaderValues) {
    && 0 < s.numHSlices && 0 < s.numVSlices
    && RasterStatus(s, v).Ok? && |v.indexes| == QuantTableSetIndexCount(s)
  }

  function TablesOf(s: StreamParameters, v: HeaderValues): (t: seq<QuantTableSet>)
    requires IsPlaced(s, v)
    ensures |t| == |v.indexes|
  {
    seq(|v.indexes|, i requires 0 <= i < |v.indexes| =>
      assert v.indexes[i] in v.indexes;
      s.quantTableSets[v.indexes[i]])
  }

  function LayoutOf(s: StreamParameters, v: HeaderValues): Layout
    requires IsPlaced(s, v)
  {
    var planes := CodedPlaneCount(s);
    Layout(s.entropyMode, s.colorspaceType == 1, s.extraPlane, s.bitsPerRawSample,
           seq(planes, p requires 0 <= p < planes => Window(s, p, RectOf(v)).width),
           seq(planes, p requires 0 <= p < planes => Window(s, p, RectOf(v)).height),
           seq(planes, p requires 0 <= p < planes => PlaneSlot(s, p)),
           TablesOf(s, v))
  }

  /** Line buffers need at least one column, and the slice at least one row. */
  function SliceLayout(s: StreamParameters, v: HeaderValues): Result<Layout>
    requires IsPlaced(s, v)
  {
    var l := LayoutOf(s, v);
    if l.heights[0] == 0 || exists w <- l.widths :: w == 0 then Err(InvalidArgument)
    else Ok(l)
  }

  lemma SliceLayoutFits(s: StreamParameters, v: HeaderValues)
    requires IsSupported(s) && IsPlaced(s, v) && SliceLayout(s, v).Ok?
    ensures IsLayout(SliceLayout(s, v).value)
    ensures SliceLayout(s, v).value.mode == s.entropyMode
  {
    hide Window, RasterStatus;
    var l := SliceLayout(s, v).value;
    forall p | 0 <= p < |l.widths|
      ensures 0 < l.widths[p] && l.slots[p] < |l.tables|
    {
      assert l.widths[p] in l.widths;
      SlotsExist(s, p, p);
    }
    TablesFit(s, v);
    if l.rgb {
      RgbWindows(s, v);
    }
  }

  lemma TablesFit(s: StreamParameters, v: HeaderValues)
    requires IsSupported(s) && IsPlaced(s, v)
    ensures forall t <- TablesOf(s, v) :: IsTableSet(t)
  {
    forall t | t in TablesOf(s, v)
      ensures IsTableSet(t)
    {
      var i :| 0 <= i < |v.indexes| && TablesOf(s, v)[i] == t;
      assert v.indexes[i] in v.indexes;
      assert t in s.quantTableSets;
    }
  }

  lemma RgbWindows(s: StreamParameters, v: HeaderValues)
    requires IsSupported(s) && IsPlaced(s, v) && s.colorspaceType == 1
    ensures IsRgbLayout(LayoutOf(s, v))
  {
    hide ScaledGridPosition, RasterStatus;
  }

  /** A slice of whole grid cells has samples in every plane, if the grid is no finer than the planes. */
  lemma CellsHaveSamples(s: StreamParameters, v: HeaderValues)
    requires IsSupported(s) && IsPlaced(s, v)
    requires forall p :: 0 <= p < CodedPlaneCount(s) ==> s.numHSlices <= PlaneWidth(s, p) && s.numVSlices <= PlaneHeight(s, p)
    ensures SliceLayout(s, v).Ok?
  {
    hide ScaledGridPosition, PlaneWidth, PlaneHeight;
    var r := RectOf(v);
    var l := LayoutOf(s, v);
    forall p | 0 <= p < CodedPlaneCount(s)
      ensures 0 < l.widths[p] && 0 < l.heights[p]
    {
      NoCellEmpty(PlaneWidth(s, p), s.numHSlices);
      NoCellEmpty(PlaneHeight(s, p), s.numVSlices);
      PositionMonotone(PlaneWidth(s, p), s.numHSlices, r.x + 1, r.x + r.width);
      PositionMonotone(PlaneHeight(s, p), s.numVSlices, r.y + 1, r.y + r.height);
    }
  }
}
