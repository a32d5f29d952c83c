// What the predictor predicts and what its neighbours are, on the plane itself.

module Prediction {
  import opened Basics
  import opened GolombRice
  import opened GolombRun
  import opened SampleModel
  import opened GolombLine
  import opened RangeSymbols
  import opened RangeContexts
  import opened RangeScript
  import opened RangeLine

  /** Beyond both neighbours the prediction is the nearer one, between them it continues the plane. */
  predicate IsPrediction(left: int, top: int, topLeft: int, p: int) {
    && (Max(left, top) <= topLeft ==> p == Min(left, top))
    && (topLeft <= Min(left, top) ==> p == Max(left, top))
    && (Min(left, top) <= topLeft <= Max(left, top) ==> p == left + top - topLeft)
  }

  lemma PredictionContinues(n: Neighbors)
    ensures IsPrediction(n.left, n.top, n.topLeft, Predict(n))
  {
  }

  /** The sample whose low 16 bits are given, from -32768 to 32767. */
  predicate IsSigned16(sample: int, s: int) {
    -32768 <= s <= 32767 && (s == sample || s == sample - 65536)
  }

  lemma Signed16Continues(n: Neighbors, left: int, top: int, topLeft: int)
    requires 0 <= n.left < 65536 && 0 <= n.top < 65536 && 0 <= n.topLeft < 65536
    requires IsSigned16(n.left, left) && IsSigned16(n.top, top) && IsSigned16(n.topLeft, topLeft)
    ensures IsPrediction(left, top, topLeft, PredictSigned16(n))
  {
  }

  /** A plane and its border: nothing above, left of a row the sample above its first one, two to the left
      nothing, right of a row its last sample. */
  function SampleAt(plane: seq<seq<int>>, width: nat, x: int, y: int): int
    requires 0 < width && y < |plane| && forall k :: 0 <= k < |plane| ==> |plane[k]| == width
    decreases y + 1
  {
    if y < 0 || x < -1 then 0
    else if x == -1 then SampleAt(plane, width, 0, y - 1)
    else if width <= x then plane[y][width - 1]
    else plane[y][x]
  }

  /** The two rows above row y. */
  function RowsAbove(plane: seq<seq<int>>, width: nat, y: nat): Above
    requires y <= |plane|
  {
    Above(if 2 <= y then plane[y - 2] else seq(width, _ => 0), if 1 <= y then plane[y - 1] else seq(width, _ => 0))
  }

  /** Coding sees the neighbours where they are on the plane. */
  lemma NeighborsStand(plane: seq<seq<int>>, width: nat, x: nat, y: nat)
    requires 0 < width && x < width && y < |plane| && forall k :: 0 <= k < |plane| ==> |plane[k]| == width
    ensures var n := NeighborsAt(RowsAbove(plane, width, y), plane[y], x);
            && n.left == SampleAt(plane, width, x - 1, y)
            && n.farLeft == SampleAt(plane, width, x - 2, y)
            && n.top == SampleAt(plane, width, x, y - 1)
            && n.topLeft == SampleAt(plane, width, x - 1, y - 1)
            && n.topRight == SampleAt(plane, width, x + 1, y - 1)
            && n.topTop == SampleAt(plane, width, x, y - 2)
  {
  }

  /** The context is the sum of what the five tables say about the gradients around the sample; its sign
      becomes the inversion. */
  lemma ContextSums(t: QuantTableSet, n: Neighbors)
    requires IsTableSet(t)
    ensures var sum := t.tables[0][(n.left - n.topLeft) % 256] + t.tables[1][(n.topLeft - n.top) % 256]
                     + t.tables[2][(n.top - n.topRight) % 256] + t.tables[3][(n.farLeft - n.left) % 256]
                     + t.tables[4][(n.topTop - n.top) % 256];
            if Abs(sum) < t.contextCount then DeriveContext(t, n) == Ok(Context(Abs(sum), sum < 0))
            else DeriveContext(t, n) == Err(InvalidState)
  {
    var g := Gradients(n);
    assert Folded(t, g, 1) == t.tables[0][(n.left - n.topLeft) % 256];
    assert Folded(t, g, 2) == Folded(t, g, 1) + t.tables[1][(n.topLeft - n.top) % 256];
    assert Folded(t, g, 3) == Folded(t, g, 2) + t.tables[2][(n.top - n.topRight) % 256];
    assert Folded(t, g, 4) == Folded(t, g, 3) + t.tables[3][(n.farLeft - n.left) % 256];
  }

  /** What is sent for a sample is the number nearest to zero that leads from the prediction to it
      modulo 2^bits, negated in inverted contexts. */
  lemma SentCentred(sample: int, prediction: int, bits: nat, inverted: bool) returns (k: int)
    requires 1 <= bits < 31
    ensures var d := if inverted then -Sent(sample, prediction, bits, inverted) else Sent(sample, prediction, bits, inverted);
            -Half(bits) <= d < Half(bits) && d == sample - prediction + ShiftLeft(k, bits)
  {
    hide SignExtend, WrapDifference, ShiftLeft;
    WrapIsSignExtension(sample - prediction, bits);
    SignExtendRange(sample - prediction, bits);
    k := SignExtendOffset(sample - prediction, bits);
  }

  lemma NothingSent(sample: int, bits: nat, inverted: bool)
    requires 1 <= bits < 31
    ensures Sent(sample, sample, bits, inverted) == 0
  {
    HalfBounded(bits);
    WrapIsSignExtension(0, bits);
    SignExtendIdentity(0, bits);
  }

  /** A sample that continues the plane of its neighbours, within their range. */
  predicate Continues(n: Neighbors, sample: int) {
    sample == n.left + n.top - n.topLeft && Min(n.left, n.top) <= sample <= Max(n.left, n.top)
  }

  lemma ContinuedIsPredicted(n: Neighbors, sample: int)
    requires Continues(n, sample)
    ensures Predict(n) == sample
  {
  }

  /** Along a row that continues the plane, range mode codes zeros only. */
  lemma {:induction false} SmoothRowSendsZeros(q: RangeSetting, row: seq<int>, x: nat)
    requires IsSetting(q.row) && q.row.bits < 31 && !q.signed16 && x <= |row| == Width(q.row)
    requires forall i :: x <= i < |row| ==> Continues(NeighborsAt(q.row.above, row, i), row[i])
    requires RowOps(q, row, x).Ok?
    ensures |RowOps(q, row, x).value| == |row| - x
    ensures forall op <- RowOps(q, row, x).value :: op.value == 0
    decreases |row| - x
  {
    hide NeighborsAt, DeriveContext, Sent, Predict;
    if x < |row| {
      ContinuedIsPredicted(NeighborsAt(q.row.above, row, x), row[x]);
      NothingSent(row[x], q.row.bits, DeriveContext(q.row.tables, NeighborsAt(q.row.above, row, x)).value.inverted);
      SmoothRowSendsZeros(q, row, x + 1);
    }
  }

  /** And Golomb-Rice mode finds a run that reaches the end of the row. */
  lemma {:induction false} SmoothRowIsOneRun(q: RowSetting, row: seq<int>, x: nat)
    requires IsSetting(q) && |row| == Width(q) && x <= Width(q)
    requires forall i :: x <= i < |row| ==> Continues(NeighborsAt(q.above, row, i), row[i])
    ensures RunEnd(q, row, x) == Width(q)
    decreases Width(q) - x
  {
    hide NeighborsAt, Predict;
    if x < Width(q) {
      ContinuedIsPredicted(NeighborsAt(q.above, row, x), row[x]);
      SmoothRowIsOneRun(q, row, x + 1);
    }
  }

  /** A sample is sent as a signed number in the context of its neighbourhood, in its plane's bank. */
  lemma SampleStands(q: RangeSetting, row: seq<int>, x: nat)
    requires IsSetting(q.row) && x < |row| == Width(q.row) && SampleOp(q, row, x).Ok?
    ensures var op, n := SampleOp(q, row, x).value, NeighborsAt(q.row.above, row, x);
            && DeriveContext(q.row.tables, n).Ok?
            && op.request == SymbolRequest(q.bank, DeriveContext(q.row.tables, n).value.index, true)
            && op.value == Sent(row[x], if q.signed16 then PredictSigned16(n) else Predict(n), q.row.bits,
                                DeriveContext(q.row.tables, n).value.inverted)
  {
  }
}
