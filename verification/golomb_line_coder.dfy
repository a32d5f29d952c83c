// The loops that write and read one row in Golomb-Rice mode.

module GolombLineCoding {
  import opened Basics
  import opened Bits
  import opened GolombRice
  import opened GolombRun
  import opened GolombCoding
  import opened SampleModel
  import opened GolombLine

  /** The row under construction agrees with `row` left of column x. */
  ghost predicate Agrees(q: RowSetting, current: seq<int>, row: seq<int>, x: nat) {
    |current| == Width(q) && x <= |row| && x <= Width(q) && current[..x] == row[..x]
  }

  lemma SameNeighbors(q: RowSetting, current: seq<int>, row: seq<int>, x: nat)
    requires IsSetting(q) && Agrees(q, current, row, x) && x < Width(q)
    ensures NeighborsAt(q.above, current, x) == NeighborsAt(q.above, row, x)
  {
    if 0 < x {
      assert current[x - 1] == current[..x][x - 1] == row[..x][x - 1];
    }
    if 1 < x {
      assert current[x - 2] == current[..x][x - 2] == row[..x][x - 2];
    }
  }

  lemma StoredAgrees(q: RowSetting, current: seq<int>, row: seq<int>, x: nat)
    requires Agrees(q, current, row, x) && x < |row| && x < Width(q)
    ensures Agrees(q, current[x := row[x]], row, x + 1)
  {
    assert current[x := row[x]][..x + 1] == current[..x] + [row[x]];
    assert row[..x + 1] == row[..x] + [row[x]];
  }

  /** Advances over the run of correctly predicted samples. */
  method ScanRun(q: RowSetting, samples: seq<int>, line: seq<int>, start: nat) returns (x: nat, current: seq<int>)
    requires IsSetting(q) && |samples| == Width(q) && start < Width(q)
    requires Agrees(q, line, samples, start)
    ensures x == RunEnd(q, samples, start)
    ensures Agrees(q, current, samples, x)
  {
    hide NeighborsAt, Median3;
    x, current := start, line;
    while x < Width(q)
      invariant x <= Width(q) && Agrees(q, current, samples, x)
      invariant RunEnd(q, samples, x) == RunEnd(q, samples, start)
    {
      SameNeighbors(q, current, samples, x);
      if samples[x] != Predict(NeighborsAt(q.above, current, x)) {
        return;
      }
      StoredAgrees(q, current, samples, x);
      current := current[x := samples[x]];
      x := x + 1;
    }
  }

  method EncodeInterruption(writer: BitWriter, q: RowSetting, samples: seq<int>, current: seq<int>, x: nat, st: RowState)
    returns (r: Result<RowState>)
    requires writer.Valid() && !writer.finalized
    requires IsSetting(q) && |samples| == Width(q) && x < Width(q) && IsState(q, st)
    requires Agrees(q, current, samples, x)
    modifies writer`bytes, writer`bitPosition
    ensures writer.Valid()
    ensures match CodeInterruption(q, samples, x, st)
            case Err(error) => r == Err(error)
            case Ok(c) => r == Ok(c.state) && writer.Contents() == old(writer.Contents()) + c.bits
  {
    hide NeighborsAt, Folded, Interruption, Difference, BitsOf, Packed;
    SameNeighbors(q, current, samples, x);
    var neighbors := NeighborsAt(q.above, current, x);
    var context := ComputeContext(q.tables, neighbors);
    if context.Err? {
      return Err(context.error);
    }
    var difference := Difference(samples[x], Predict(neighbors), q.bits);
    if context.value.inverted {
      difference := -difference;
    }
    var index := context.value.index;
    var status, next := WriteInterruption(writer, st.bank[index], q.bits, difference);
    if status.Err? {
      return Err(status.error);
    }
    r := Ok(st.(bank := st.bank[index := next]));
  }

  method EncodeScalar(writer: BitWriter, q: RowSetting, samples: seq<int>, x: nat, prediction: int, c: Context, st: RowState)
    returns (r: Result<RowState>)
    requires writer.Valid() && !writer.finalized
    requires IsSetting(q) && |samples| == Width(q) && x < Width(q) && IsState(q, st)
    requires c.index < q.tables.contextCount && prediction == PredictionAt(q, samples, x)
    modifies writer`bytes, writer`bitPosition
    ensures writer.Valid()
    ensures match CodeScalar(q, samples, x, c, st)
            case Err(error) => r == Err(error)
            case Ok(coded) => r == Ok(coded.state) && writer.Contents() == old(writer.Contents()) + coded.bits
  {
    hide NeighborsAt, Folded, Symbol, Difference, BitsOf, Packed;
    var difference := Difference(samples[x], prediction, q.bits);
    if c.inverted {
      difference := -difference;
    }
    var status, next := WriteSymbol(writer, st.bank[c.index], q.bits, difference);
    if status.Err? {
      return Err(status.error);
    }
    r := Ok(st.(bank := st.bank[c.index := next]));
  }

  /** A run and the sample that interrupts it; `next` is the column after them. */
  method EncodeRun(writer: BitWriter, q: RowSetting, samples: seq<int>, line: seq<int>, x: nat, st: RowState)
    returns (r: Result<RowState>, next: nat, current: seq<int>)
    requires writer.Valid() && !writer.finalized
    requires IsSetting(q) && |samples| == Width(q) && x < Width(q) && IsState(q, st)
    requires Agrees(q, line, samples, x)
    modifies writer`bytes, writer`bitPosition
    ensures writer.Valid()
    ensures match CodeRunStep(q, samples, x, st)
            case Err(error) => r == Err(error)
            case Ok((c, end)) =>
              && r == Ok(c.state) && next == end && Agrees(q, current, samples, end)
              && writer.Contents() == old(writer.Contents()) + c.bits
  {
    hide NeighborsAt, Folded, RunCode, CodeInterruption, BitsOf, Packed;
    next, current := ScanRun(q, samples, line, x);
    var status, run := WriteRun(writer, RunState(st.run, 0), x, Width(q), next - x);
    if status.Err? {
      return Err(status.error), next, current;
    }
    var after := st.(run := run.index);
    if next == Width(q) {
      return Ok(after), next, current;
    }
    ghost var start := old(writer.Contents());
    ghost var runBits := RunCode(st.run, x, Width(q), next - x).value.0;
    r := EncodeInterruption(writer, q, samples, current, next, after);
    if r.Ok? {
      AppendAssoc(start, runBits, CodeInterruption(q, samples, next, after).value.bits);
      StoredAgrees(q, current, samples, next);
      current := current[next := samples[next]];
      next := next + 1;
    }
  }

  /** One turn of the row loop. */
  method EncodeStep(writer: BitWriter, q: RowSetting, samples: seq<int>, line: seq<int>, x: nat, st: RowState)
    returns (r: Result<RowState>, next: nat, current: seq<int>)
    requires writer.Valid() && !writer.finalized
    requires IsSetting(q) && |samples| == Width(q) && x < Width(q) && IsState(q, st)
    requires Agrees(q, line, samples, x)
    modifies writer`bytes, writer`bitPosition
    ensures writer.Valid()
    ensures match CodeStep(q, samples, x, st)
            case Err(error) => r == Err(error)
            case Ok((c, end)) =>
              && r == Ok(c.state) && next == end && Agrees(q, current, samples, end)
              && writer.Contents() == old(writer.Contents()) + c.bits
  {
    hide NeighborsAt, Folded, CodeRunStep, CodeScalar, BitsOf, Packed;
    next, current := x, line;
    SameNeighbors(q, current, samples, x);
    var neighbors := NeighborsAt(q.above, current, x);
    var prediction := Predict(neighbors);
    var context := ComputeContext(q.tables, neighbors);
    if context.Err? {
      return Err(context.error), next, current;
    }
    if context.value.index == 0 {
      r, next, current := EncodeRun(writer, q, samples, line, x, st);
    } else {
      r := EncodeScalar(writer, q, samples, x, prediction, context.value, st);
      if r.Ok? {
        StoredAgrees(q, current, samples, x);
        current := current[x := samples[x]];
        next := x + 1;
      }
    }
  }

  lemma PrefixedTwice(a: seq<bool>, b: seq<bool>, rest: Result<Coded>)
    ensures Prefixed(a, Prefixed(b, rest)) == Prefixed(a + b, rest)
  {
    if rest.Ok? {
      AppendAssoc(a, b, rest.value.bits);
    }
  }

  /** Writes a row; `current` ends up holding it. */
  method EncodeRow(writer: BitWriter, q: RowSetting, samples: seq<int>, line: seq<int>, start: RowState)
    returns (r: Result<RowState>, current: seq<int>)
    requires writer.Valid() && !writer.finalized
    requires IsSetting(q) && |samples| == |line| == Width(q) && IsState(q, start)
    modifies writer`bytes, writer`bitPosition
    ensures writer.Valid()
    ensures match CodeRow(q, samples, 0, start)
            case Err(error) => r == Err(error)
            case Ok(c) => r == Ok(c.state) && current == samples && writer.Contents() == old(writer.Contents()) + c.bits
  {
    hide CodeStep, BitsOf, Packed, NeighborsAt;
    var st := start;
    var x: nat := 0;
    current := line;
    ghost var goal := Prefixed(writer.Contents(), CodeRow(q, samples, 0, start));
    while x < Width(q)
      invariant x <= Width(q) && Agrees(q, current, samples, x)
      invariant IsState(q, st)
      invariant writer.Valid() && !writer.finalized
      invariant Prefixed(writer.Contents(), CodeRow(q, samples, x, st)) == goal
    {
      if CodeStep(q, samples, x, st).Ok? {
        ghost var (step, next) := CodeStep(q, samples, x, st).value;
        PrefixedTwice(writer.Contents(), step.bits, CodeRow(q, samples, next, step.state));
      }
      r, x, current := EncodeStep(writer, q, samples, current, x, st);
      if r.Err? {
        return;
      }
      st := r.value;
    }
    assert current[..x] == current && samples[..x] == samples;
    r := Ok(st);
  }
}
