// Run mode: runs of correctly predicted samples, in power-of-two pieces.

module GolombRun {
  import opened Basics
  import opened Bits

  /** log2 of the run length each run index stands for. */
  const LOG2_RUN: seq<nat> := [
    0, 0, 0, 0, 1, 1, 1, 1,
    2, 2, 2, 2, 3, 3, 3, 3,
    4, 4, 5, 5, 6, 6, 7, 7,
    8, 9, 10, 11, 12, 13, 14, 15,
    16, 17, 18, 19, 20, 21, 22, 23,
    24]

  const RUN_INDEXES: nat := 41

  function Log2Run(index: nat): (n: nat)
    requires index < RUN_INDEXES
    ensures n <= 24
  {
    LOG2_RUN[index]
  }

  function FullRun(index: nat): (n: nat)
    requires index < RUN_INDEXES
    ensures 1 <= n
  {
    Pow2(Log2Run(index))
  }

  datatype RunState = RunState(index: nat, pending: nat)

  datatype Segment = Segment(count: nat, interrupted: bool)

  function Lower(index: nat): nat {
    if index == 0 then 0 else index - 1
  }

  function Prepend(bits: seq<bool>, run: Result<(seq<bool>, nat)>): Result<(seq<bool>, nat)> {
    match run
    case Err(error) => Err(error)
    case Ok((more, last)) => Ok((bits + more, last))
  }

  lemma PrependTwice(a: seq<bool>, b: seq<bool>, run: Result<(seq<bool>, nat)>)
    ensures Prepend(a, Prepend(b, run)) == Prepend(a + b, run)
    ensures Prepend([], run) == run
  {
    if run.Ok? {
      AppendAssoc(a, b, run.value.0);
      assert [] + run.value.0 == run.value.0;
    }
  }

  /** The bits of a run of `remaining` samples starting at `position`, and the index after it. */
  function RunCode(index: nat, position: nat, width: nat, remaining: nat): (r: Result<(seq<bool>, nat)>)
    requires index < RUN_INDEXES && position + remaining <= width
    ensures r.Ok? ==> r.value.1 < RUN_INDEXES
    decreases remaining, width
  {
    var full := FullRun(index);
    if full <= remaining then
      if RUN_INDEXES <= index + 1 then Err(ResourceExhausted)
      else if position + full == width then Ok(([true], index + 1))
      else
        Prepend([true], RunCode(index + 1, position + full, width, remaining - full))
    else Ok(([false] + FixedBits(remaining, Log2Run(index)), Lower(index)))
  }

  function TakeSegment(s: seq<bool>, pos: nat, run: RunState, x: nat, width: nat): Result<(Segment, nat, RunState)> {
    if RUN_INDEXES <= run.index then Err(InvalidState)
    else if width < x then Err(InvalidArgument)
    else
      var left := width - x;
      if run.pending != 0 then
        var count := Min(run.pending, left);
        Ok((Segment(count, false), pos, run.(pending := run.pending - count)))
      else
        var (prefix, next) :- TakeBit(s, pos);
        var full := FullRun(run.index);
        if prefix then
          if full <= left then
            if RUN_INDEXES <= run.index + 1 then Err(ResourceExhausted)
            else Ok((Segment(full, false), next, RunState(run.index + 1, 0)))
          else Ok((Segment(left, false), next, run))
        else
          var (remainder, after) :- TakeFixed(s, next, Log2Run(run.index));
          if left < remainder then Ok((Segment(left, false), after, RunState(Lower(run.index), remainder - left)))
          else Ok((Segment(remainder, true), after, RunState(Lower(run.index), 0)))
  }

  /** Segments are read until one is interrupted or the row is full. */
  function TakeRun(s: seq<bool>, pos: nat, run: RunState, x: nat, width: nat): Result<(nat, bool, nat, RunState)>
    requires x < width
    decreases width - x
  {
    var (segment, next, run') :- TakeSegment(s, pos, run, x, width);
    SegmentProgress(s, pos, run, x, width);
    var x' := x + segment.count;
    if segment.interrupted || x' == width then Ok((x', segment.interrupted, next, run'))
    else TakeRun(s, next, run', x', width)
  }

  /** On any bits a segment either moves forward or ends the run, stays inside the row and
      keeps the run index inside its table. */
  lemma SegmentProgress(s: seq<bool>, pos: nat, run: RunState, x: nat, width: nat)
    requires TakeSegment(s, pos, run, x, width).Ok?
    ensures var (segment, next, run') := TakeSegment(s, pos, run, x, width).value;
            && x + segment.count <= width
            && (x < width ==> segment.interrupted || 0 < segment.count)
            && pos <= next <= Max(pos, |s|)
            && run'.index < RUN_INDEXES
            && (run'.pending != 0 ==> x + segment.count == width)
            && (run.pending == 0 ==> pos < next)
  {
  }

  /** A written run reads back: same samples covered, same index, nothing left pending. */
  lemma {:induction false} RunReadsBack(s: seq<bool>, pos: nat, index: nat, x: nat, width: nat, count: nat, bits: seq<bool>, last: nat)
    requires index < RUN_INDEXES && x < width && x + count <= width
    requires RunCode(index, x, width, count) == Ok((bits, last))
    requires Carries(s, pos, bits)
    ensures last < RUN_INDEXES
    ensures TakeRun(s, pos, RunState(index, 0), x, width).Ok?
    ensures var (x', interrupted, next, run') := TakeRun(s, pos, RunState(index, 0), x, width).value;
            x' == x + count && next == pos + |bits| && run' == RunState(last, 0) && (interrupted || x' == width)
    decreases count
  {
    hide Log2Run, Accumulate, FixedBits, Pow2;
    var full := FullRun(index);
    if full <= count {
      if x + full == width {
        CarriesAt(s, pos, bits, 0);
      } else {
        var more := RunCode(index + 1, x + full, width, count - full).value.0;
        CarriesBoth(s, pos, [true], more);
        CarriesAt(s, pos, [true], 0);
        RunReadsBack(s, pos + 1, index + 1, x + full, width, count - full, more, last);
      }
    } else {
      CarriesBoth(s, pos, [false], FixedBits(count, Log2Run(index)));
      CarriesAt(s, pos, [false], 0);
      FixedReadsBack(s, pos + 1, count, Log2Run(index));
    }
  }

  /** Segment by segment as the row decoder asks for it. */
  method ReadSegment(reader: BitReader, run: RunState, x: nat, width: nat) returns (r: Result<Segment>, next: RunState)
    requires reader.Valid()
    modifies reader`bitPosition
    ensures reader.Valid()
    ensures match TakeSegment(reader.Source(), old(reader.bitPosition), run, x, width)
            case Err(error) => r == Err(error) && next == run
            case Ok((segment, pos, run')) => r == Ok(segment) && next == run' && reader.bitPosition == pos
  {
    next := run;
    if run.index >= RUN_INDEXES {
      return Err(InvalidState), next;
    }
    if x > width {
      return Err(InvalidArgument), next;
    }
    if run.pending != 0 {
      var count := Min(run.pending, width - x);
      next := run.(pending := run.pending - count);
      return Ok(Segment(count, false)), next;
    }
    var log2Run := Log2Run(run.index);
    var prefix := reader.ReadBit();
    if prefix.Err? {
      return Err(prefix.error), next;
    }
    var nextIndex := run.index;
    var count := 0;
    if prefix.value {
      count := Pow2(log2Run);
      if count <= width - x {
        if nextIndex + 1 >= RUN_INDEXES {
          return Err(ResourceExhausted), next;
        }
        nextIndex := nextIndex + 1;
      } else {
        count := width - x;
      }
      next := RunState(nextIndex, 0);
      return Ok(Segment(count, false)), next;
    }
    var remainder := reader.ReadBits(log2Run);
    if remainder.Err? {
      return Err(remainder.error), next;
    }
    count := remainder.value;
    if nextIndex != 0 {
      nextIndex := nextIndex - 1;
    }
    if count > width - x {
      next := RunState(nextIndex, count - (width - x));
      return Ok(Segment(width - x, false)), next;
    }
    next := RunState(nextIndex, 0);
    r := Ok(Segment(count, true));
  }

  /** A zero and the length of the last, incomplete piece. */
  method WriteRemainder(writer: BitWriter, index: nat, remaining: nat) returns (status: Status)
    requires writer.Valid() && !writer.finalized
    requires index < RUN_INDEXES && remaining < FullRun(index)
    modifies writer`bytes, writer`bitPosition
    ensures writer.Valid()
    ensures status.Ok?
    ensures writer.Contents() == old(writer.Contents()) + ([false] + FixedBits(remaining, Log2Run(index)))
  {
    hide FixedBits, BitsOf, Packed;
    status := writer.WriteBit(false);
    if status.Err? {
      return;
    }
    status := writer.WriteBits(remaining, Log2Run(index));
    AppendAssoc(old(writer.Contents()), [false], FixedBits(remaining, Log2Run(index)));
  }

  /** The writing loop; the run state changes only when the whole run was written. */
  method WriteRun(writer: BitWriter, run: RunState, x: nat, width: nat, count: nat) returns (status: Status, next: RunState)
    requires writer.Valid() && !writer.finalized
    modifies writer`bytes, writer`bitPosition
    ensures writer.Valid()
    ensures RUN_INDEXES <= run.index ==> status == Err(InvalidState)
    ensures run.index < RUN_INDEXES && width < x + count ==> status == Err(InvalidArgument)
    ensures run.index < RUN_INDEXES && x + count <= width ==>
              match RunCode(run.index, x, width, count)
              case Err(error) => status == Err(error)
              case Ok((bits, last)) =>
                status == Ok(()) && writer.Contents() == old(writer.Contents()) + bits && next == run.(index := last)
    ensures status.Err? ==> next == run
  {
    if run.index >= RUN_INDEXES {
      return Err(InvalidState), run;
    }
    if x > width || count > width - x {
      return Err(InvalidArgument), run;
    }
    var last := WritePieces(writer, run.index, x, width, count);
    if last.Err? {
      return Err(last.error), run;
    }
    status, next := Ok(()), run.(index := last.value);
  }

  method WritePieces(writer: BitWriter, start: nat, x: nat, width: nat, count: nat) returns (last: Result<nat>)
    requires writer.Valid() && !writer.finalized
    requires start < RUN_INDEXES && x + count <= width
    modifies writer`bytes, writer`bitPosition
    ensures writer.Valid()
    ensures match RunCode(start, x, width, count)
            case Err(error) => last == Err(error)
            case Ok((bits, index)) => last == Ok(index) && writer.Contents() == old(writer.Contents()) + bits
  {
    hide Log2Run, FixedBits, BitsOf, Packed, Pow2;
    var index: nat := start;
    var position: nat := x;
    var remaining: nat := count;
    ghost var goal := Prepend(writer.Contents(), RunCode(start, x, width, count));
    while remaining >= FullRun(index)
      invariant index < RUN_INDEXES && position + remaining <= width
      invariant writer.Valid() && !writer.finalized
      invariant Prepend(writer.Contents(), RunCode(index, position, width, remaining)) == goal
      decreases remaining
    {
      var full := FullRun(index);
      if index + 1 >= RUN_INDEXES {
        return Err(ResourceExhausted);
      }
      if position + full < width {
        PrependTwice(writer.Contents(), [true], RunCode(index + 1, position + full, width, remaining - full));
      }
      var status := writer.WriteBit(true);
      if status.Err? {
        return Err(InvalidState);
      }
      remaining := remaining - full;
      position := position + full;
      index := index + 1;
      if position == width {
        return Ok(index);
      }
    }
    var status := WriteRemainder(writer, index, remaining);
    if status.Err? {
      return Err(InvalidState);
    }
    if index != 0 {
      index := index - 1;
    }
    last := Ok(index);
  }
}
