// One row of samples in Golomb-Rice mode: the writer scans runs ahead, the reader learns
// about them segment by segment; both walk the same contexts.

module GolombLine {
  import opened Basics
  import opened Bits
  import opened GolombRice
  import opened GolombRun
  import opened SampleModel

  /** What coding one row depends on: tables, sample width, and the two rows above. */
  datatype RowSetting = RowSetting(tables: QuantTableSet, bits: nat, above: Above)

  predicate IsSetting(q: RowSetting) {
    IsTableSet(q.tables) && IsAbove(q.above, Width(q)) && 1 <= q.bits <= 31
  }

  function Width(q: RowSetting): nat {
    |q.above.previous|
  }

  function PredictionAt(q: RowSetting, row: seq<int>, x: nat): int
    requires IsSetting(q) && x < Width(q) && x <= |row|
  {
    Predict(NeighborsAt(q.above, row, x))
  }

  function ContextAt(q: RowSetting, row: seq<int>, x: nat): (r: Result<Context>)
    requires IsSetting(q) && x < Width(q) && x <= |row|
    ensures r.Ok? ==> r.value.index < q.tables.contextCount
  {
    DeriveContext(q.tables, NeighborsAt(q.above, row, x))
  }

  /** Where the run of correctly predicted samples from x on ends. */
  function RunEnd(q: RowSetting, row: seq<int>, x: nat): (e: nat)
    requires IsSetting(q) && |row| == Width(q) && x <= Width(q)
    ensures x <= e <= Width(q)
    ensures e < Width(q) ==> row[e] != PredictionAt(q, row, e)
    ensures forall i :: x <= i < e ==> row[i] == PredictionAt(q, row, i)
    decreases Width(q) - x
  {
    if x == Width(q) || row[x] != PredictionAt(q, row, x) then x else RunEnd(q, row, x + 1)
  }

  /** Adaptive state of a row's context bank and of its run mode. */
  datatype RowState = RowState(bank: seq<ContextState>, run: nat)

  datatype Coded = Coded(bits: seq<bool>, state: RowState)

  function Prefixed(bits: seq<bool>, rest: Result<Coded>): Result<Coded> {
    match rest
    case Err(error) => Err(error)
    case Ok(c) => Ok(c.(bits := bits + c.bits))
  }

  predicate IsState(q: RowSetting, st: RowState) {
    |st.bank| == q.tables.contextCount && st.run < RUN_INDEXES
  }

  function CodeInterruption(q: RowSetting, row: seq<int>, x: nat, st: RowState): Result<Coded>
    requires IsSetting(q) && x < |row| == Width(q) && IsState(q, st)
  {
    var c :- ContextAt(q, row, x);
    var (bits, s) :- Interruption(st.bank[c.index], q.bits, Sent(row[x], PredictionAt(q, row, x), q.bits, c.inverted));
    Ok(Coded(bits, st.(bank := st.bank[c.index := s])))
  }

  function CodeScalar(q: RowSetting, row: seq<int>, x: nat, c: Context, st: RowState): Result<Coded>
    requires IsSetting(q) && x < |row| == Width(q) && IsState(q, st) && c.index < q.tables.contextCount
  {
    var (bits, s) :- Symbol(st.bank[c.index], q.bits, Sent(row[x], PredictionAt(q, row, x), q.bits, c.inverted));
    Ok(Coded(bits, st.(bank := st.bank[c.index := s])))
  }

  /** A run from column x to its end, and the sample that interrupted it. */
  function CodeRunStep(q: RowSetting, row: seq<int>, x: nat, st: RowState): (r: Result<(Coded, nat)>)
    requires IsSetting(q) && x < |row| == Width(q) && IsState(q, st)
    ensures r.Ok? ==> x <= r.value.1 <= Width(q) && IsState(q, r.value.0.state)
    ensures r.Ok? ==> x < r.value.1
  {
    var e := RunEnd(q, row, x);
    var (bits, index) :- RunCode(st.run, x, Width(q), e - x);
    var after := st.(run := index);
    if e == Width(q) then Ok((Coded(bits, after), e))
    else
      var i :- CodeInterruption(q, row, e, after);
      Ok((Coded(bits + i.bits, i.state), e + 1))
  }

  /** What the writer does next from column x: the bits, the new state and the next column. */
  function CodeStep(q: RowSetting, row: seq<int>, x: nat, st: RowState): (r: Result<(Coded, nat)>)
    requires IsSetting(q) && x < |row| == Width(q) && IsState(q, st)
    ensures r.Ok? ==> x < r.value.1 <= Width(q) && IsState(q, r.value.0.state)
  {
    var c :- ContextAt(q, row, x);
    if c.index == 0 then CodeRunStep(q, row, x, st)
    else
      var i :- CodeScalar(q, row, x, c, st);
      Ok((i, x + 1))
  }

  /** The bits of the row from column x on. */
  function CodeRow(q: RowSetting, row: seq<int>, x: nat, st: RowState): (r: Result<Coded>)
    requires IsSetting(q) && x <= |row| == Width(q) && IsState(q, st)
    ensures r.Ok? ==> IsState(q, r.value.state)
    decreases Width(q) - x
  {
    if x == Width(q) then Ok(Coded([], st))
    else
      var (step, next) :- CodeStep(q, row, x, st);
      Prefixed(step.bits, CodeRow(q, row, next, step.state))
  }

  /** The reader: the samples so far, the position in the bits, and the states. */
  datatype Decoded = Decoded(row: seq<int>, position: nat, bank: seq<ContextState>, run: RunState)

  predicate IsDecoding(q: RowSetting, d: Decoded) {
    |d.row| <= Width(q) && |d.bank| == q.tables.contextCount
  }

  /** Extends the row by predictions up to column x. */
  function FillTo(q: RowSetting, row: seq<int>, x: nat): (r: seq<int>)
    requires IsSetting(q) && |row| <= x <= Width(q)
    ensures |r| == x && row <= r
    ensures forall i :: |row| <= i < x ==> r[i] == PredictionAt(q, r[..i], i)
    decreases x - |row|
  {
    if |row| == x then row
    else
      var next := row + [PredictionAt(q, row, |row|)];
      var r := FillTo(q, next, x);
      assert r[..|row|] == row;
      r
  }

  /** Left-over samples of a run continued from the row above; each one's context is checked. */
  function FillPending(q: RowSetting, row: seq<int>, x: nat): (r: Result<seq<int>>)
    requires IsSetting(q) && |row| <= x <= Width(q)
    ensures r.Ok? ==> r.value == FillTo(q, row, x)
    decreases x - |row|
  {
    if |row| == x then Ok(row)
    else
      var _ :- ContextAt(q, row, |row|);
      FillPending(q, row + [PredictionAt(q, row, |row|)], x)
  }

  function ReadInterruption(q: RowSetting, s: seq<bool>, d: Decoded): Result<Decoded>
    requires IsSetting(q) && IsDecoding(q, d) && |d.row| < Width(q)
  {
    var x := |d.row|;
    var c :- ContextAt(q, d.row, x);
    var (value, next, state) :- TakeInterruption(s, d.position, d.bank[c.index], q.bits);
    Ok(d.(row := d.row + [Restored(PredictionAt(q, d.row, x), value, q.bits, c.inverted)],
          position := next, bank := d.bank[c.index := state]))
  }

  function ReadScalarSample(q: RowSetting, s: seq<bool>, d: Decoded, c: Context): Result<Decoded>
    requires IsSetting(q) && IsDecoding(q, d) && |d.row| < Width(q) && c.index < q.tables.contextCount
  {
    var x := |d.row|;
    var (value, next, state) :- TakeSymbol(s, d.position, d.bank[c.index], q.bits);
    Ok(d.(row := d.row + [Restored(PredictionAt(q, d.row, x), value, q.bits, c.inverted)],
          position := next, bank := d.bank[c.index := state]))
  }

  /** One turn of the reader's outer loop; it always makes progress. */
  function ReadStep(q: RowSetting, s: seq<bool>, d: Decoded): (r: Result<Decoded>)
    requires IsSetting(q) && IsDecoding(q, d) && |d.row| < Width(q)
    ensures r.Ok? ==> IsDecoding(q, r.value) && |d.row| < |r.value.row|
  {
    var x := |d.row|;
    if d.run.pending != 0 then
      var (segment, next, run) :- TakeSegment(s, d.position, d.run, x, Width(q));
      SegmentProgress(s, d.position, d.run, x, Width(q));
      var row :- FillPending(q, d.row, x + segment.count);
      Ok(d.(row := row, position := next, run := run))
    else
      var c :- ContextAt(q, d.row, x);
      if c.index == 0 then
        var (end, interrupted, next, run) :- TakeRun(s, d.position, d.run, x, Width(q));
        TakeRunInside(s, d.position, d.run, x, Width(q));
        var filled := d.(row := FillTo(q, d.row, end), position := next, run := run);
        if !interrupted || end == Width(q) then Ok(filled)
        else ReadInterruption(q, s, filled)
      else ReadScalarSample(q, s, d, c)
  }

  lemma {:induction false} TakeRunInside(s: seq<bool>, pos: nat, run: RunState, x: nat, width: nat)
    requires x < width && run.pending == 0
    requires TakeRun(s, pos, run, x, width).Ok?
    ensures var (end, interrupted, next, run') := TakeRun(s, pos, run, x, width).value;
            && x <= end <= width && (interrupted || end == width)
            && pos < next <= Max(pos, |s|) && run'.index < RUN_INDEXES
    decreases width - x
  {
    hide Log2Run, TakeSegment;
    SegmentProgress(s, pos, run, x, width);
    var (segment, next, run') := TakeSegment(s, pos, run, x, width).value;
    if !segment.interrupted && x + segment.count < width {
      TakeRunInside(s, next, run', x + segment.count, width);
    }
  }

  /** The samples from where the decoding stands to the end of the row.
      The measure shows that reading a row terminates on every bit string. */
  function ReadRow(q: RowSetting, s: seq<bool>, d: Decoded): (r: Result<Decoded>)
    requires IsSetting(q) && IsDecoding(q, d)
    ensures r.Ok? ==> IsDecoding(q, r.value) && |r.value.row| == Width(q)
    decreases Width(q) - |d.row|
  {
    if |d.row| == Width(q) then Ok(d)
    else
      var d' :- ReadStep(q, s, d);
      ReadRow(q, s, d')
  }

  ghost predicate AllAdapted(bank: seq<ContextState>, bits: nat)
    requires 0 < bits
  {
    forall i :: 0 <= i < |bank| ==> Adapted(bank[i], bits)
  }

  /** What the writer's row must be like: samples of the coded width below samples. */
  ghost predicate IsCodable(q: RowSetting, row: seq<int>) {
    && IsSetting(q) && q.bits < 31 && |row| == Width(q)
    && AllSamples(row, q.bits) && AllSamples(q.above.second, q.bits) && AllSamples(q.above.previous, q.bits)
  }

  lemma NeighborsLocal(a: Above, row: seq<int>, x: nat)
    requires IsAbove(a, |a.previous|) && x < |a.previous| && x <= |row|
    ensures NeighborsAt(a, row[..x], x) == NeighborsAt(a, row, x)
  {
  }

  lemma {:induction false} FillIsRun(q: RowSetting, row: seq<int>, x: nat, e: nat)
    requires IsSetting(q) && |row| == Width(q) && x <= e <= Width(q)
    requires forall i :: x <= i < e ==> row[i] == PredictionAt(q, row, i)
    ensures FillTo(q, row[..x], e) == row[..e]
    decreases e - x
  {
    if x < e {
      NeighborsLocal(q.above, row, x);
      assert row[..x] + [row[x]] == row[..x + 1];
      FillIsRun(q, row, x + 1, e);
    }
  }

  /** Writer and reader state after the same samples. */
  function Mirror(row: seq<int>, x: nat, position: nat, st: RowState): Decoded
    requires x <= |row|
  {
    Decoded(row[..x], position, st.bank, RunState(st.run, 0))
  }

  lemma InterruptionSample(q: RowSetting, row: seq<int>, x: nat, st: RowState, s: seq<bool>, pos: nat, coded: Coded)
    requires IsCodable(q, row) && x < Width(q) && IsState(q, st) && AllAdapted(st.bank, q.bits)
    requires row[x] != PredictionAt(q, row, x)
    requires CodeInterruption(q, row, x, st) == Ok(coded)
    requires Carries(s, pos, coded.bits)
    ensures IsState(q, coded.state) && AllAdapted(coded.state.bank, q.bits)
    ensures ReadInterruption(q, s, Mirror(row, x, pos, st)) == Ok(Mirror(row, x + 1, pos + |coded.bits|, coded.state))
  {
    hide LowBits, TakeSymbol, Symbol, Folded, NeighborsAt, Median3, WrapDifference;
    NeighborsLocal(q.above, row, x);
    var c := ContextAt(q, row, x).value;
    var p := PredictionAt(q, row, x);
    var sent := Sent(row[x], p, q.bits, c.inverted);
    assert AllSamples(row[..x], q.bits);
    PredictionIsSample(q.above, row, x, q.bits);
    DifferenceNonZero(row[x], p, q.bits);
    SentInRange(row[x], p, q.bits, c.inverted);
    var next := coded.state.bank[c.index];
    SymbolWrites(st.bank[c.index], q.bits, if sent > 0 then sent - 1 else sent);
    InterruptionReadsBack(s, pos, st.bank[c.index], q.bits, sent, coded.bits, next);
    SampleRestored(row[x], p, q.bits, c.inverted, sent);
    assert row[..x] + [row[x]] == row[..x + 1];
  }

  lemma ScalarSample(q: RowSetting, row: seq<int>, x: nat, c: Context, st: RowState, s: seq<bool>, pos: nat, coded: Coded)
    requires IsCodable(q, row) && x < Width(q) && IsState(q, st) && AllAdapted(st.bank, q.bits)
    requires ContextAt(q, row, x) == Ok(c)
    requires CodeScalar(q, row, x, c, st) == Ok(coded)
    requires Carries(s, pos, coded.bits)
    ensures IsState(q, coded.state) && AllAdapted(coded.state.bank, q.bits)
    ensures ReadScalarSample(q, s, Mirror(row, x, pos, st), c) == Ok(Mirror(row, x + 1, pos + |coded.bits|, coded.state))
  {
    hide LowBits, TakeSymbol, Symbol, Folded, NeighborsAt, Median3, WrapDifference, SignExtend;
    NeighborsLocal(q.above, row, x);
    var p := PredictionAt(q, row, x);
    var sent := Sent(row[x], p, q.bits, c.inverted);
    var next := coded.state.bank[c.index];
    SymbolWrites(st.bank[c.index], q.bits, sent);
    SymbolReadsBack(s, pos, st.bank[c.index], q.bits, sent, coded.bits, next);
    SampleRestored(row[x], p, q.bits, c.inverted, SignExtend(sent, q.bits));
    assert row[..x] + [row[x]] == row[..x + 1];
  }

  /** The reader's turn undoes the writer's. */
  lemma StepReadsBack(q: RowSetting, row: seq<int>, x: nat, st: RowState, s: seq<bool>, pos: nat, coded: Coded, next: nat)
    requires IsCodable(q, row) && x < Width(q) && IsState(q, st) && AllAdapted(st.bank, q.bits)
    requires CodeStep(q, row, x, st) == Ok((coded, next))
    requires Carries(s, pos, coded.bits)
    ensures AllAdapted(coded.state.bank, q.bits)
    ensures ReadStep(q, s, Mirror(row, x, pos, st)) == Ok(Mirror(row, next, pos + |coded.bits|, coded.state))
  {
    hide LowBits, Folded, NeighborsAt, Median3, TakeRun, RunCode, RunEnd, CodeInterruption, CodeScalar, ReadInterruption, ReadScalarSample;
    NeighborsLocal(q.above, row, x);
    var c := ContextAt(q, row, x).value;
    if c.index == 0 {
      var e := RunEnd(q, row, x);
      var (runBits, index) := RunCode(st.run, x, Width(q), e - x).value;
      var rest := if e == Width(q) then [] else CodeInterruption(q, row, e, st.(run := index)).value.bits;
      assert coded.bits == runBits + rest;
      CarriesBoth(s, pos, runBits, rest);
      RunReadsBack(s, pos, st.run, x, Width(q), e - x, runBits, index);
      FillIsRun(q, row, x, e);
      if e < Width(q) {
        var i := CodeInterruption(q, row, e, st.(run := index)).value;
        InterruptionSample(q, row, e, st.(run := index), s, pos + |runBits|, i);
      }
    } else {
      ScalarSample(q, row, x, c, st, s, pos, coded);
    }
  }

  /** A written row reads back: same samples, every bit consumed, same contexts, same run
      index, and no pending run. */
  lemma {:induction false} RowReadsBack(q: RowSetting, row: seq<int>, x: nat, st: RowState, s: seq<bool>, pos: nat, coded: Coded)
    requires IsCodable(q, row) && x <= Width(q) && IsState(q, st) && AllAdapted(st.bank, q.bits)
    requires CodeRow(q, row, x, st) == Ok(coded)
    requires Carries(s, pos, coded.bits)
    ensures IsState(q, coded.state) && AllAdapted(coded.state.bank, q.bits)
    ensures ReadRow(q, s, Mirror(row, x, pos, st)) == Ok(Mirror(row, Width(q), pos + |coded.bits|, coded.state))
    decreases Width(q) - x
  {
    hide CodeStep, ReadStep;
    if x < Width(q) {
      var (step, next) := CodeStep(q, row, x, st).value;
      var rest := CodeRow(q, row, next, step.state).value;
      CarriesBoth(s, pos, step.bits, rest.bits);
      StepReadsBack(q, row, x, st, s, pos, step, next);
      RowReadsBack(q, row, next, step.state, s, pos + |step.bits|, rest);
    }
  }

  /** What every row read from any bits keeps: samples in range, run index in its table,
      contexts bounded, and a read position that never passes the end. */
  ghost predicate IsSound(q: RowSetting, s: seq<bool>, d: Decoded) {
    && IsDecoding(q, d)
    && AllSamples(d.row, q.bits)
    && d.run.index < RUN_INDEXES
    && d.position <= |s|
    && forall i :: 0 <= i < |d.bank| ==> Bounded(d.bank[i])
  }

  lemma {:induction false} FillKeepsSamples(q: RowSetting, row: seq<int>, x: nat)
    requires IsSetting(q) && |row| <= x <= Width(q)
    requires AllSamples(row, q.bits) && AllSamples(q.above.second, q.bits) && AllSamples(q.above.previous, q.bits)
    ensures AllSamples(FillTo(q, row, x), q.bits)
    decreases x - |row|
  {
    hide NeighborsAt, Median3;
    if |row| < x {
      assert row[..|row|] == row;
      PredictionIsSample(q.above, row, |row|, q.bits);
      FillKeepsSamples(q, row + [PredictionAt(q, row, |row|)], x);
    }
  }

  lemma RestoredIsSample(q: RowSetting, p: int, value: int, inverted: bool)
    requires 1 <= q.bits < 31
    ensures IsSample(Restored(p, value, q.bits, inverted), q.bits)
  {
    ReconstructedIsSample(p, if inverted then -value else value, q.bits);
  }

  lemma InterruptionKeepsSound(q: RowSetting, s: seq<bool>, d: Decoded)
    requires IsSetting(q) && q.bits < 31 && IsSound(q, s, d) && |d.row| < Width(q)
    requires ReadInterruption(q, s, d).Ok?
    ensures IsSound(q, s, ReadInterruption(q, s, d).value)
  {
    hide LowBits, TakeSymbol, Folded, NeighborsAt, Median3, Restored;
    var c := ContextAt(q, d.row, |d.row|).value;
    TakeSymbolKeepsBounds(s, d.position, d.bank[c.index], q.bits);
    RestoredIsSample(q, PredictionAt(q, d.row, |d.row|), TakeInterruption(s, d.position, d.bank[c.index], q.bits).value.0, c.inverted);
  }

  lemma ScalarKeepsSound(q: RowSetting, s: seq<bool>, d: Decoded, c: Context)
    requires IsSetting(q) && q.bits < 31 && IsSound(q, s, d) && |d.row| < Width(q) && c.index < q.tables.contextCount
    requires ReadScalarSample(q, s, d, c).Ok?
    ensures IsSound(q, s, ReadScalarSample(q, s, d, c).value)
  {
    hide LowBits, TakeSymbol, Folded, NeighborsAt, Median3, Restored;
    TakeSymbolKeepsBounds(s, d.position, d.bank[c.index], q.bits);
    RestoredIsSample(q, PredictionAt(q, d.row, |d.row|), TakeSymbol(s, d.position, d.bank[c.index], q.bits).value.0, c.inverted);
  }

  lemma StepKeepsSound(q: RowSetting, s: seq<bool>, d: Decoded)
    requires IsSetting(q) && q.bits < 31 && IsSound(q, s, d) && |d.row| < Width(q)
    requires AllSamples(q.above.second, q.bits) && AllSamples(q.above.previous, q.bits)
    requires ReadStep(q, s, d).Ok?
    ensures IsSound(q, s, ReadStep(q, s, d).value)
  {
    hide LowBits, Folded, NeighborsAt, Median3, TakeRun, TakeSegment, ReadInterruption, ReadScalarSample, FillTo, FillPending;
    var x := |d.row|;
    if d.run.pending != 0 {
      SegmentProgress(s, d.position, d.run, x, Width(q));
      FillKeepsSamples(q, d.row, x + TakeSegment(s, d.position, d.run, x, Width(q)).value.0.count);
    } else {
      var c := ContextAt(q, d.row, x).value;
      if c.index == 0 {
        TakeRunInside(s, d.position, d.run, x, Width(q));
        var (end, interrupted, next, run) := TakeRun(s, d.position, d.run, x, Width(q)).value;
        FillKeepsSamples(q, d.row, end);
        var filled := d.(row := FillTo(q, d.row, end), position := next, run := run);
        if interrupted && end != Width(q) {
          InterruptionKeepsSound(q, s, filled);
        }
      } else {
        ScalarKeepsSound(q, s, d, c);
      }
    }
  }

  /** Reading a row of arbitrary bits, when it succeeds, fills the row with samples in range
      and leaves every state within its bounds. */
  lemma {:induction false} RowKeepsSound(q: RowSetting, s: seq<bool>, d: Decoded)
    requires IsSetting(q) && q.bits < 31 && IsSound(q, s, d)
    requires AllSamples(q.above.second, q.bits) && AllSamples(q.above.previous, q.bits)
    requires ReadRow(q, s, d).Ok?
    ensures IsSound(q, s, ReadRow(q, s, d).value)
    ensures |ReadRow(q, s, d).value.row| == Width(q)
    decreases Width(q) - |d.row|
  {
    hide ReadStep;
    if |d.row| < Width(q) {
      StepKeepsSound(q, s, d);
      RowKeepsSound(q, s, ReadStep(q, s, d).value);
    }
  }
}
