// The parameters of a stream and what they imply for its planes.

module StreamModel {
  import opened Basics
  import opened RangeSymbols
  import opened SampleModel

  datatype EntropyMode = RangeMode | GolombRiceMode

  // The coded initial states of one table set: one entry per context, or none.
  type InitialStateSet = seq<ScalarStates>

  datatype StreamParameters = StreamParameters(
    version: nat,
    microVersion: nat,
    entropyMode: EntropyMode,
    width: nat,
    height: nat,
    bitsPerRawSample: nat,
    colorspaceType: nat,
    chromaPlanes: bool,
    extraPlane: bool,
    log2HChromaSubsample: nat,
    log2VChromaSubsample: nat,
    numHSlices: nat,
    numVSlices: nat,
    quantTableSets: seq<QuantTableSet>,
    initialStates: seq<InitialStateSet>,
    stateTransition: Table,
    errorStatusEnabled: bool,
    intraOnly: bool)

  function CodedPlaneCount(s: StreamParameters): (n: nat)
    ensures 1 <= n <= 4
  {
    1 + (if s.chromaPlanes then 2 else 0) + (if s.extraPlane then 1 else 0)
  }

  predicate IsChromaPlane(s: StreamParameters, plane: nat) {
    s.chromaPlanes && (plane == 1 || plane == 2)
  }

  /** ceil(value / 2^log2). */
  function SubsampledExtent(value: nat, log2Subsample: nat): nat {
    if log2Subsample == 0 then value
    else if 32 <= log2Subsample then (if value == 0 then 0 else 1)
    else (value + Pow2(log2Subsample) - 1) / Pow2(log2Subsample)
  }

  function PlaneWidth(s: StreamParameters, plane: nat): nat {
    if s.colorspaceType == 0 && IsChromaPlane(s, plane) then SubsampledExtent(s.width, s.log2HChromaSubsample)
    else s.width
  }

  function PlaneHeight(s: StreamParameters, plane: nat): nat {
    if s.colorspaceType == 0 && IsChromaPlane(s, plane) then SubsampledExtent(s.height, s.log2VChromaSubsample)
    else s.height
  }

  /** How many table set choices a slice header carries. */
  function QuantTableSetIndexCount(s: StreamParameters): nat {
    1 + (if s.chromaPlanes || s.version <= 3 then 1 else 0) + (if s.extraPlane then 1 else 0)
  }

  function PlaneSlot(s: StreamParameters, plane: nat): nat {
    if plane == 0 then 0
    else if IsChromaPlane(s, plane) then 1
    else if s.version <= 3 || s.chromaPlanes then 2 else 1
  }

  /** Every coded plane's slot exists, and only chroma planes share one. */
  lemma SlotsExist(s: StreamParameters, p: nat, q: nat)
    requires p < CodedPlaneCount(s) && q < CodedPlaneCount(s)
    ensures PlaneSlot(s, p) < QuantTableSetIndexCount(s)
    ensures PlaneSlot(s, p) == PlaneSlot(s, q) <==> p == q || (IsChromaPlane(s, p) && IsChromaPlane(s, q))
  {
  }
}
