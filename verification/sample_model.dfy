// Prediction, context derivation and modular differences: what slice coding does
// with one sample and its neighbours.

module SampleModel {
  import opened Basics
  import opened GolombRice

  datatype Neighbors = Neighbors(farLeft: int, left: int, top: int, topLeft: int, topRight: int, topTop: int)

  /** The two rows above the one being coded. */
  datatype Above = Above(second: seq<int>, previous: seq<int>)

  predicate IsAbove(a: Above, width: nat) {
    |a.second| == width && |a.previous| == width && 0 < width
  }

  const BORDER: int := 0

  /** Neighbours of column x; `row` holds at least the samples left of it. */
  function NeighborsAt(a: Above, row: seq<int>, x: nat): Neighbors
    requires IsAbove(a, |a.previous|)
    requires x < |a.previous| && x <= |row|
  {
    Neighbors(
      if 1 < x then row[x - 2] else if x == 1 then a.previous[0] else BORDER,
      if 0 < x then row[x - 1] else a.previous[0],
      a.previous[x],
      if 0 < x then a.previous[x - 1] else a.second[0],
      if x + 1 < |a.previous| then a.previous[x + 1] else a.previous[x],
      a.second[x])
  }

  function Median3(a: int, b: int, c: int): int {
    Max(Min(a, b), Min(Max(a, b), c))
  }

  function AsSigned16(sample: int): int {
    if 32768 <= sample then sample - 65536 else sample
  }

  function Predict(n: Neighbors): int {
    Median3(n.left, n.top, n.left + n.top - n.topLeft)
  }

  function PredictSigned16(n: Neighbors): int {
    var left, top, topLeft := AsSigned16(n.left), AsSigned16(n.top), AsSigned16(n.topLeft);
    Median3(left, top, left + top - topLeft)
  }

  const CONTEXT_INPUTS: nat := 5
  const TABLE_ENTRIES: nat := 256

  datatype QuantTableSet = QuantTableSet(tables: seq<seq<int>>, contextCount: nat)

  predicate IsTableSet(t: QuantTableSet) {
    |t.tables| == CONTEXT_INPUTS && forall i :: 0 <= i < CONTEXT_INPUTS ==> |t.tables[i]| == TABLE_ENTRIES
  }

  function Gradients(n: Neighbors): (g: seq<int>)
    ensures |g| == CONTEXT_INPUTS
  {
    [n.left - n.topLeft, n.topLeft - n.top, n.top - n.topRight, n.farLeft - n.left, n.topTop - n.top]
  }

  /** The sum of the first n table entries the gradients select. */
  function Folded(t: QuantTableSet, gradients: seq<int>, n: nat): int
    requires IsTableSet(t) && |gradients| == CONTEXT_INPUTS && n <= CONTEXT_INPUTS
  {
    if n == 0 then 0 else Folded(t, gradients, n - 1) + t.tables[n - 1][gradients[n - 1] % 256]
  }

  datatype Context = Context(index: nat, inverted: bool)

  function ContextOf(t: QuantTableSet, folded: int): Result<Context> {
    if t.contextCount == 0 then Err(InvalidState)
    else if t.contextCount <= Abs(folded) then Err(InvalidState)
    else Ok(Context(Abs(folded), folded < 0))
  }

  function DeriveContext(t: QuantTableSet, n: Neighbors): (r: Result<Context>)
    requires IsTableSet(t)
    ensures r.Ok? ==> r.value.index < t.contextCount
  {
    ContextOf(t, Folded(t, Gradients(n), CONTEXT_INPUTS))
  }

  /** The accumulating loop of context derivation. */
  method ComputeContext(t: QuantTableSet, n: Neighbors) returns (r: Result<Context>)
    requires IsTableSet(t)
    ensures r == DeriveContext(t, n)
  {
    if t.contextCount == 0 {
      return Err(InvalidState);
    }
    var gradients := Gradients(n);
    var folded := 0;
    for i := 0 to CONTEXT_INPUTS
      invariant folded == Folded(t, gradients, i)
    {
      folded := folded + t.tables[i][gradients[i] % 256];
    }
    var inverted := folded < 0;
    if inverted {
      folded := -folded;
    }
    if folded >= t.contextCount {
      return Err(InvalidState);
    }
    r := Ok(Context(folded, inverted));
  }

  /** The remainder of C++ for the divisor 2^bits: it takes the sign of the value. */
  function TruncatedRemainder(value: int, bits: nat): int {
    if 0 <= value then LowBits(value, bits) else -(LowBits(-value, bits) as int)
  }

  function WrapDifference(value: int, bits: nat): int {
    if bits == 0 || 31 <= bits then value
    else
      var range: int := Pow2(bits);
      var half := range / 2;
      var r := TruncatedRemainder(value, bits);
      if r < -half then r + range else if half <= r then r - range else r
  }

  function Difference(sample: int, prediction: int, bits: nat): int {
    WrapDifference(sample - prediction, bits)
  }

  function Reconstruct(prediction: int, difference: int, bits: nat): int {
    var sum := prediction + difference;
    if bits == 0 || 31 <= bits then sum
    else
      var wrapped := TruncatedRemainder(sum, bits);
      if wrapped < 0 then wrapped + Pow2(bits) else wrapped
  }

  lemma ShiftLeftNegates(k: int, n: nat)
    ensures ShiftLeft(-k, n) == -ShiftLeft(k, n)
    ensures ShiftLeft(0, n) == 0
  {
    ShiftLeftAdds(k, -k, n);
    ShiftLeftAdds(0, 0, n);
  }

  lemma LowBitsNegated(value: int, n: nat)
    ensures LowBits(-value, n) == if LowBits(value, n) == 0 then 0 else Pow2(n) - LowBits(value, n)
  {
    var low, high := LowBits(value, n), ShiftRight(value, n);
    ShiftSplit(value, n);
    ShiftLeftNegates(high, n);
    LowBitsShifted(-(low as int), n, -high);
    if low == 0 {
      LowBitsSmall(0, n);
    } else {
      ShiftLeftOne(n);
      LowBitsShifted(-(low as int), n, 1);
      LowBitsSmall(Pow2(n) - low, n);
    }
  }

  /** Wrapping a difference is sign extension of its low bits. */
  lemma WrapIsSignExtension(value: int, bits: nat)
    requires 1 <= bits < 31
    ensures WrapDifference(value, bits) == SignExtend(value, bits)
  {
    LowBitsNegated(value, bits);
    assert Pow2(bits) == 2 * Pow2(bits - 1);
  }

  lemma ReconstructIsLowBits(prediction: int, difference: int, bits: nat)
    requires 1 <= bits < 31
    ensures Reconstruct(prediction, difference, bits) == LowBits(prediction + difference, bits)
  {
    LowBitsNegated(prediction + difference, bits);
  }

  /** Sign extension moves a value by a multiple of 2^w. */
  lemma SignExtendOffset(value: int, w: nat) returns (k: int)
    requires 0 < w
    ensures SignExtend(value, w) == value + ShiftLeft(k, w)
  {
    ShiftSplit(value, w);
    ShiftLeftOne(w);
    var high := ShiftRight(value, w);
    k := if Pow2(w) / 2 <= LowBits(value, w) then -(high + 1) else -high;
    ShiftLeftAdds(high, 1, w);
    ShiftLeftNegates(high + 1, w);
    ShiftLeftNegates(high, w);
  }

  predicate IsSample(v: int, bits: nat) {
    0 <= v < Pow2(bits)
  }

  /** The value sent for a sample: its difference, negated in inverted contexts. */
  function Sent(sample: int, prediction: int, bits: nat, inverted: bool): int {
    var d := Difference(sample, prediction, bits);
    if inverted then -d else d
  }

  function Restored(prediction: int, received: int, bits: nat, inverted: bool): int {
    Reconstruct(prediction, if inverted then -received else received, bits)
  }

  lemma SentInRange(sample: int, prediction: int, bits: nat, inverted: bool)
    requires 1 <= bits < 31
    ensures -Half(bits) <= Sent(sample, prediction, bits, inverted) <= Half(bits)
  {
    WrapIsSignExtension(sample - prediction, bits);
    SignExtendRange(sample - prediction, bits);
  }

  /** Adding a multiple of 2^bits to what is received does not change the sample. */
  lemma OffsetInvisible(sample: int, prediction: int, bits: nat, inverted: bool, received: int, n: int)
    requires 1 <= bits < 31 && IsSample(sample, bits)
    requires received == Sent(sample, prediction, bits, inverted) + ShiftLeft(n, bits)
    ensures Restored(prediction, received, bits, inverted) == sample
  {
    hide LowBits, ShiftLeft, SignExtend, WrapDifference, Reconstruct;
    WrapIsSignExtension(sample - prediction, bits);
    var k := SignExtendOffset(sample - prediction, bits);
    ShiftLeftNegates(n, bits);
    var m := if inverted then -n else n;
    ShiftLeftAdds(k, m, bits);
    var difference := if inverted then -received else received;
    ReconstructIsLowBits(prediction, difference, bits);
    assert prediction + difference == sample + ShiftLeft(k + m, bits);
    LowBitsShifted(sample, bits, k + m);
    LowBitsSmall(sample, bits);
  }

  /** Whether the difference arrives exactly or modulo 2^bits, the sample is restored. */
  lemma SampleRestored(sample: int, prediction: int, bits: nat, inverted: bool, received: int)
    requires 1 <= bits < 31
    requires IsSample(sample, bits)
    requires received == Sent(sample, prediction, bits, inverted)
          || received == SignExtend(Sent(sample, prediction, bits, inverted), bits)
    ensures Restored(prediction, received, bits, inverted) == sample
  {
    hide LowBits, ShiftLeft, SignExtend, WrapDifference, Reconstruct;
    var sent := Sent(sample, prediction, bits, inverted);
    var k := SignExtendOffset(sent, bits);
    ShiftLeftNegates(0, bits);
    OffsetInvisible(sample, prediction, bits, inverted, received, if received == sent then 0 else k);
  }

  /** Two different samples never have difference zero. */
  lemma DifferenceNonZero(sample: int, prediction: int, bits: nat)
    requires 1 <= bits < 31
    requires IsSample(sample, bits) && IsSample(prediction, bits)
    requires sample != prediction
    ensures Difference(sample, prediction, bits) != 0
  {
    var d := sample - prediction;
    WrapIsSignExtension(d, bits);
    if d > 0 {
      LowBitsSmall(d, bits);
    } else {
      ShiftLeftOne(bits);
      LowBitsShifted(d, bits, 1);
      LowBitsSmall(d + Pow2(bits), bits);
    }
  }

  predicate AllSamples(row: seq<int>, bits: nat) {
    forall i :: 0 <= i < |row| ==> IsSample(row[i], bits)
  }

  /** Predictions from samples are samples. */
  lemma PredictionIsSample(a: Above, row: seq<int>, x: nat, bits: nat)
    requires IsAbove(a, |a.previous|) && x < |a.previous| && x <= |row|
    requires AllSamples(a.second, bits) && AllSamples(a.previous, bits) && AllSamples(row[..x], bits)
    ensures IsSample(Predict(NeighborsAt(a, row, x)), bits)
  {
    if 0 < x {
      assert row[x - 1] == row[..x][x - 1];
    }
  }

  lemma ReconstructedIsSample(prediction: int, difference: int, bits: nat)
    requires 1 <= bits < 31
    ensures IsSample(Reconstruct(prediction, difference, bits), bits)
  {
    ReconstructIsLowBits(prediction, difference, bits);
  }
}
