// Rows of samples in range mode: each one is a script of symbols for the range coder.

module RangeLine {
  import opened Basics
  import opened GolombRice
  import opened SampleModel
  import opened GolombLine
  import opened RangeInterval
  import opened RangeSymbols
  import opened RangeContexts
  import opened RangeScript

  /** What range coding of a row depends on. */
  datatype RangeSetting = RangeSetting(row: RowSetting, signed16: bool, bank: nat)

  function RangePrediction(n: Neighbors, signed16: bool): int {
    if signed16 then PredictSigned16(n) else Predict(n)
  }

  /** The symbol for column x. */
  function SampleOp(q: RangeSetting, row: seq<int>, x: nat): Result<Operation>
    requires IsSetting(q.row) && x < |row| == Width(q.row)
  {
    var n := NeighborsAt(q.row.above, row, x);
    var c :- DeriveContext(q.row.tables, n);
    Ok(Operation(SymbolRequest(q.bank, c.index, true), Sent(row[x], RangePrediction(n, q.signed16), q.row.bits, c.inverted)))
  }

  /** The symbols of the row from column x on. */
  function RowOps(q: RangeSetting, row: seq<int>, x: nat): Result<seq<Operation>>
    requires IsSetting(q.row) && x <= |row| == Width(q.row)
    decreases Width(q.row) - x
  {
    if x == Width(q.row) then Ok([])
    else
      var op :- SampleOp(q, row, x);
      Then([op], RowOps(q, row, x + 1))
  }

  /** One sample, from the context and prediction of what is already there. */
  function ReadSample(q: RangeSetting, d: Decoder, row: seq<int>): (r: Result<(int, Decoder)>)
    requires IsSetting(q.row) && |row| < Width(q.row)
  {
    var n := NeighborsAt(q.row.above, row, |row|);
    var c :- DeriveContext(q.row.tables, n);
    var (received, d') :- RangeScript.ReadSymbol(d, q.bank, c.index, true);
    var difference := if c.inverted then -received else received;
    if difference < INT32_MIN || INT32_MAX < difference then Err(SyntaxError)
    else Ok((Reconstruct(RangePrediction(n, q.signed16), difference, q.row.bits), d'))
  }

  function ReadRangeRow(q: RangeSetting, d: Decoder, row: seq<int>): (r: Result<(seq<int>, Decoder)>)
    requires IsSetting(q.row) && |row| <= Width(q.row)
    ensures r.Ok? ==> |r.value.0| == Width(q.row)
    decreases Width(q.row) - |row|
  {
    if |row| == Width(q.row) then Ok((row, d))
    else
      var (sample, d') :- ReadSample(q, d, row);
      ReadRangeRow(q, d', row + [sample])
  }

  /** The decoder follows the script of one sample, whatever the predictor. */
  lemma SampleReadsBack(q: RangeSetting, row: seq<int>, x: nat, op: Operation, rest: seq<Operation>, d: Decoder, final: Encoder)
    returns (d': Decoder)
    requires IsSetting(q.row) && q.row.bits < 31 && x < |row| == Width(q.row) && AllSamples(row, q.row.bits)
    requires SampleOp(q, row, x) == Ok(op)
    requires Scripted(d, [op] + rest, final)
    ensures ReadSample(q, d, row[..x]) == Ok((row[x], d'))
    ensures Scripted(d', rest, final) && d'.payload == d.payload
  {
    hide DeriveContext, Scripted, RangePrediction, LowBits, WrapDifference, RangeScript.ReadSymbol, NeighborsAt;
    NeighborsLocal(q.row.above, row, x);
    NextOperation(d, [op] + rest, final);
    assert ([op] + rest)[1..] == rest;
    d' := Read(d, op.request).value.1;
    var n := NeighborsAt(q.row.above, row, x);
    var c := DeriveContext(q.row.tables, n).value;
    var p := RangePrediction(n, q.signed16);
    HalfBounded(q.row.bits);
    SentInRange(row[x], p, q.row.bits, c.inverted);
    SampleRestored(row[x], p, q.row.bits, c.inverted, op.value);
  }

  /** A row written as symbols is read back as the same row. */
  lemma {:induction false} RangeRowReadsBack(q: RangeSetting, row: seq<int>, x: nat, ops: seq<Operation>, rest: seq<Operation>,
                                             d: Decoder, final: Encoder)
    returns (d': Decoder)
    requires IsSetting(q.row) && q.row.bits < 31 && x <= |row| == Width(q.row) && AllSamples(row, q.row.bits)
    requires RowOps(q, row, x) == Ok(ops)
    requires Scripted(d, ops + rest, final)
    ensures ReadRangeRow(q, d, row[..x]) == Ok((row, d'))
    ensures Scripted(d', rest, final) && d'.payload == d.payload
    decreases Width(q.row) - x
  {
    hide Scripted, SampleOp, ReadSample;
    if x == Width(q.row) {
      assert row[..x] == row && ops + rest == rest;
      d' := d;
    } else {
      var op := SampleOp(q, row, x).value;
      var more := RowOps(q, row, x + 1).value;
      assert ops + rest == [op] + (more + rest);
      var d1 := SampleReadsBack(q, row, x, op, more + rest, d, final);
      assert row[..x] + [row[x]] == row[..x + 1];
      d' := RangeRowReadsBack(q, row, x + 1, more, rest, d1, final);
    }
  }
}
