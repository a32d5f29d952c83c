// The loops that read one row in Golomb-Rice mode.

module GolombLineDecoding {
  import opened Basics
  import opened Bits
  import opened GolombRice
  import opened GolombRun
  import opened GolombCoding
  import opened SampleModel
  import opened GolombLine

  /** What the reader has of the row: the columns left of x. */
  ghost function Reached(line: seq<int>, x: nat, position: nat, bank: seq<ContextState>, run: RunState): Decoded
    requires x <= |line|
  {
    Decoded(line[..x], position, bank, run)
  }

  lemma PartialNeighbors(q: RowSetting, line: seq<int>, x: nat)
    requires IsSetting(q) && |line| == Width(q) && x < Width(q)
    ensures NeighborsAt(q.above, line[..x], x) == NeighborsAt(q.above, line, x)
  {
  }

  lemma Stored(line: seq<int>, x: nat, v: int)
    requires x < |line|
    ensures line[x := v][..x + 1] == line[..x] + [v]
  {
  }

  lemma {:induction false} FillInSteps(q: RowSetting, row: seq<int>, m: nat, e: nat)
    requires IsSetting(q) && |row| <= m <= e <= Width(q)
    ensures FillTo(q, FillTo(q, row, m), e) == FillTo(q, row, e)
    decreases m - |row|
  {
    if |row| < m {
      FillInSteps(q, row + [PredictionAt(q, row, |row|)], m, e);
    }
  }

  /** Samples of a run are their predictions. */
  method FillRun(q: RowSetting, line: seq<int>, start: nat, end: nat) returns (current: seq<int>)
    requires IsSetting(q) && |line| == Width(q) && start <= end <= Width(q)
    ensures |current| == Width(q) && current[..end] == FillTo(q, line[..start], end)
  {
    hide NeighborsAt, Median3;
    current := line;
    var x := start;
    while x < end
      invariant start <= x <= end && |current| == Width(q)
      invariant FillTo(q, current[..x], end) == FillTo(q, line[..start], end)
    {
      PartialNeighbors(q, current, x);
      var prediction := Predict(NeighborsAt(q.above, current, x));
      Stored(current, x, prediction);
      current := current[x := prediction];
      x := x + 1;
    }
  }

  /** The same for a run left over from an earlier row: every context is derived as well. */
  method FillLeftOver(q: RowSetting, line: seq<int>, start: nat, end: nat) returns (r: Status, current: seq<int>)
    requires IsSetting(q) && |line| == Width(q) && start <= end <= Width(q)
    ensures match FillPending(q, line[..start], end)
            case Err(error) => r == Err(error)
            case Ok(row) => r == Ok(()) && |current| == Width(q) && current[..end] == row
  {
    hide NeighborsAt, Median3, Folded;
    current := line;
    var x := start;
    while x < end
      invariant start <= x <= end && |current| == Width(q)
      invariant FillPending(q, current[..x], end) == FillPending(q, line[..start], end)
    {
      PartialNeighbors(q, current, x);
      var neighbors := NeighborsAt(q.above, current, x);
      var prediction := Predict(neighbors);
      var context := ComputeContext(q.tables, neighbors);
      if context.Err? {
        return Err(context.error), current;
      }
      Stored(current, x, prediction);
      current := current[x := prediction];
      x := x + 1;
    }
    r := Ok(());
  }

  method DecodeInterruption(reader: BitReader, q: RowSetting, line: seq<int>, x: nat, bank: seq<ContextState>, ghost run: RunState)
    returns (r: Result<seq<ContextState>>, current: seq<int>)
    requires reader.Valid()
    requires IsSetting(q) && |line| == Width(q) && x < Width(q) && |bank| == q.tables.contextCount
    modifies reader`bitPosition
    ensures reader.Valid()
    ensures match GolombLine.ReadInterruption(q, reader.Source(), Reached(line, x, old(reader.bitPosition), bank, run))
            case Err(error) => r == Err(error)
            case Ok(d) => r.Ok? && |current| == Width(q) && d == Reached(current, x + 1, reader.bitPosition, r.value, run)
  {
    hide NeighborsAt, Median3, Folded, TakeInterruption, Restored, BitsOf;
    current := line;
    PartialNeighbors(q, current, x);
    var neighbors := NeighborsAt(q.above, current, x);
    var prediction := Predict(neighbors);
    var context := ComputeContext(q.tables, neighbors);
    if context.Err? {
      return Err(context.error), current;
    }
    var index := context.value.index;
    var difference, next := GolombCoding.ReadInterruption(reader, bank[index], q.bits);
    if difference.Err? {
      return Err(difference.error), current;
    }
    var sample := Restored(prediction, difference.value, q.bits, context.value.inverted);
    Stored(current, x, sample);
    current := current[x := sample];
    r := Ok(bank[index := next]);
  }

  method DecodeScalar(reader: BitReader, q: RowSetting, line: seq<int>, x: nat, prediction: int, c: Context,
                      bank: seq<ContextState>, ghost run: RunState)
    returns (r: Result<seq<ContextState>>, current: seq<int>)
    requires reader.Valid()
    requires IsSetting(q) && |line| == Width(q) && x < Width(q) && |bank| == q.tables.contextCount
    requires c.index < q.tables.contextCount && prediction == PredictionAt(q, line, x)
    modifies reader`bitPosition
    ensures reader.Valid()
    ensures match ReadScalarSample(q, reader.Source(), Reached(line, x, old(reader.bitPosition), bank, run), c)
            case Err(error) => r == Err(error)
            case Ok(d) => r.Ok? && |current| == Width(q) && d == Reached(current, x + 1, reader.bitPosition, r.value, run)
  {
    hide NeighborsAt, Median3, Folded, TakeSymbol, Restored, BitsOf;
    current := line;
    PartialNeighbors(q, current, x);
    var difference, next := ReadSymbol(reader, bank[c.index], q.bits);
    if difference.Err? {
      return Err(difference.error), current;
    }
    var sample := Restored(prediction, difference.value, q.bits, c.inverted);
    Stored(current, x, sample);
    current := current[x := sample];
    r := Ok(bank[c.index := next]);
  }

  /** Segments are read and filled in until one is interrupted or the row is full. */
  method DecodeRun(reader: BitReader, q: RowSetting, line: seq<int>, start: nat, startRun: RunState)
    returns (r: Result<bool>, x: nat, current: seq<int>, run: RunState)
    requires reader.Valid()
    requires IsSetting(q) && |line| == Width(q) && start < Width(q) && startRun.pending == 0
    modifies reader`bitPosition
    ensures reader.Valid()
    ensures match TakeRun(reader.Source(), old(reader.bitPosition), startRun, start, Width(q))
            case Err(error) => r == Err(error)
            case Ok((end, interrupted, pos, run')) =>
              && r == Ok(interrupted) && x == end && start <= end <= Width(q) && pos == reader.bitPosition && run == run'
              && |current| == Width(q) && current[..end] == FillTo(q, line[..start], end)
  {
    hide TakeSegment, FillTo, NeighborsAt, BitsOf;
    x, current, run := start, line, startRun;
    var interrupted := false;
    ghost var goal := TakeRun(reader.Source(), reader.bitPosition, run, x, Width(q));
    assert current[..start] == FillTo(q, line[..start], start) by {
      FillNothing(q, line[..start]);
    }
    while x < Width(q) && !interrupted
      invariant start <= x <= Width(q) && |current| == Width(q) && reader.Valid()
      invariant current[..x] == FillTo(q, line[..start], x)
      invariant interrupted || x == Width(q) ==> goal == Ok((x, interrupted, reader.bitPosition, run))
      invariant !interrupted && x < Width(q) ==>
                  goal == TakeRun(reader.Source(), reader.bitPosition, run, x, Width(q))
      decreases Width(q) - x, !interrupted
    {
      ghost var position := reader.bitPosition;
      var segment, next := ReadSegment(reader, run, x, Width(q));
      if segment.Err? {
        return Err(segment.error), x, current, run;
      }
      SegmentProgress(reader.Source(), position, run, x, Width(q));
      var end := x + segment.value.count;
      FillInSteps(q, line[..start], x, end);
      current := FillRun(q, current, x, end);
      x, run, interrupted := end, next, segment.value.interrupted;
    }
    r := Ok(interrupted);
  }

  lemma FillNothing(q: RowSetting, row: seq<int>)
    requires IsSetting(q) && |row| <= Width(q)
    ensures FillTo(q, row, |row|) == row
  {
  }

  /** What one turn reports: context bank, run state and column; the row is `current`. */
  datatype Turn = Turn(bank: seq<ContextState>, run: RunState, x: nat)

  ghost predicate Reports(turn: Result<Turn>, q: RowSetting, current: seq<int>, position: nat, expected: Result<Decoded>) {
    match expected
    case Err(error) => turn == Err(error)
    case Ok(d) =>
      && turn.Ok? && |current| == Width(q) && turn.value.x <= Width(q)
      && d == Reached(current, turn.value.x, position, turn.value.bank, turn.value.run)
  }

  method DecodeLeftOver(reader: BitReader, q: RowSetting, line: seq<int>, turn: Turn) returns (r: Result<Turn>, current: seq<int>)
    requires reader.Valid()
    requires IsSetting(q) && |line| == Width(q) && turn.x < Width(q) && |turn.bank| == q.tables.contextCount
    requires turn.run.pending != 0
    modifies reader`bitPosition
    ensures reader.Valid()
    ensures Reports(r, q, current, reader.bitPosition,
                    ReadStep(q, reader.Source(), Reached(line, turn.x, old(reader.bitPosition), turn.bank, turn.run)))
  {
    hide NeighborsAt, Median3, Folded, TakeSegment, FillPending, BitsOf, FillTo;
    current := line;
    var segment, run := ReadSegment(reader, turn.run, turn.x, Width(q));
    if segment.Err? {
      return Err(segment.error), current;
    }
    SegmentProgress(reader.Source(), old(reader.bitPosition), turn.run, turn.x, Width(q));
    var end := turn.x + segment.value.count;
    var status;
    status, current := FillLeftOver(q, line, turn.x, end);
    if status.Err? {
      return Err(status.error), current;
    }
    r := Ok(turn.(run := run, x := end));
  }

  method DecodeRunStep(reader: BitReader, q: RowSetting, line: seq<int>, turn: Turn) returns (r: Result<Turn>, current: seq<int>)
    requires reader.Valid()
    requires IsSetting(q) && |line| == Width(q) && turn.x < Width(q) && |turn.bank| == q.tables.contextCount
    requires turn.run.pending == 0
    requires ContextAt(q, line[..turn.x], turn.x).Ok? && ContextAt(q, line[..turn.x], turn.x).value.index == 0
    modifies reader`bitPosition
    ensures reader.Valid()
    ensures Reports(r, q, current, reader.bitPosition,
                    ReadStep(q, reader.Source(), Reached(line, turn.x, old(reader.bitPosition), turn.bank, turn.run)))
  {
    hide NeighborsAt, Median3, Folded, TakeRun, TakeSegment, FillPending, BitsOf, FillTo, GolombLine.ReadInterruption;
    var interrupted, x, filled, run := DecodeRun(reader, q, line, turn.x, turn.run);
    current := filled;
    if interrupted.Err? {
      return Err(interrupted.error), current;
    }
    if !interrupted.value || x == Width(q) {
      return Ok(turn.(run := run, x := x)), current;
    }
    var bank;
    bank, current := DecodeInterruption(reader, q, filled, x, turn.bank, run);
    if bank.Err? {
      return Err(bank.error), current;
    }
    r := Ok(Turn(bank.value, run, x + 1));
  }

  method DecodeStep(reader: BitReader, q: RowSetting, line: seq<int>, turn: Turn) returns (r: Result<Turn>, current: seq<int>)
    requires reader.Valid()
    requires IsSetting(q) && |line| == Width(q) && turn.x < Width(q) && |turn.bank| == q.tables.contextCount
    modifies reader`bitPosition
    ensures reader.Valid()
    ensures Reports(r, q, current, reader.bitPosition,
                    ReadStep(q, reader.Source(), Reached(line, turn.x, old(reader.bitPosition), turn.bank, turn.run)))
  {
    hide NeighborsAt, Median3, Folded, TakeRun, TakeSegment, FillPending, BitsOf, FillTo, GolombLine.ReadInterruption, ReadScalarSample;
    if turn.run.pending != 0 {
      r, current := DecodeLeftOver(reader, q, line, turn);
      return;
    }
    current := line;
    PartialNeighbors(q, line, turn.x);
    var neighbors := NeighborsAt(q.above, line, turn.x);
    var prediction := Predict(neighbors);
    var context := ComputeContext(q.tables, neighbors);
    if context.Err? {
      return Err(context.error), current;
    }
    if context.value.index == 0 {
      r, current := DecodeRunStep(reader, q, line, turn);
      return;
    }
    var bank;
    bank, current := DecodeScalar(reader, q, line, turn.x, prediction, context.value, turn.bank, turn.run);
    if bank.Err? {
      return Err(bank.error), current;
    }
    r := Ok(Turn(bank.value, turn.run, turn.x + 1));
  }

  /** Reads a row over what `line` held before. */
  method DecodeRow(reader: BitReader, q: RowSetting, line: seq<int>, startBank: seq<ContextState>, startRun: RunState)
    returns (r: Result<Turn>, current: seq<int>)
    requires reader.Valid()
    requires IsSetting(q) && |line| == Width(q) && |startBank| == q.tables.contextCount
    modifies reader`bitPosition
    ensures reader.Valid()
    ensures match ReadRow(q, reader.Source(), Decoded([], old(reader.bitPosition), startBank, startRun))
            case Err(error) => r == Err(error)
            case Ok(d) => r.Ok? && d == Decoded(current, reader.bitPosition, r.value.bank, r.value.run)
  {
    hide ReadStep, BitsOf;
    current := line;
    var turn := Turn(startBank, startRun, 0);
    assert line[..0] == [];
    ghost var goal := ReadRow(q, reader.Source(), Decoded([], reader.bitPosition, startBank, startRun));
    while turn.x < Width(q)
      invariant turn.x <= Width(q) && |current| == Width(q) && |turn.bank| == q.tables.contextCount
      invariant reader.Valid()
      invariant ReadRow(q, reader.Source(), Reached(current, turn.x, reader.bitPosition, turn.bank, turn.run)) == goal
    {
      r, current := DecodeStep(reader, q, current, turn);
      if r.Err? {
        return;
      }
      turn := r.value;
    }
    assert current[..turn.x] == current;
    r := Ok(turn);
  }
}
