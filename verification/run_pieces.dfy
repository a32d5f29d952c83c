// How a run is cut into pieces, and what the run index means.

module RunPieces {
  import opened Basics
  import opened Bits
  import opened GolombRun
  import opened GolombLayout

  /** The pieces double after every fourth index at first, then after every second, then after every one. */
  lemma PieceLengths(index: nat)
    requires index < RUN_INDEXES
    ensures Log2Run(index) == if index < 16 then index / 4 else if index < 24 then 4 + (index - 16) / 2 else index - 16
  {
  }

  /** The length of n pieces from an index on. */
  function Pieces(index: nat, n: nat): nat
    requires index + n <= RUN_INDEXES
  {
    if n == 0 then 0 else Pieces(index, n - 1) + Pow2(Log2Run(index + n - 1))
  }

  lemma {:induction false} FirstPiece(index: nat, n: nat)
    requires 0 < n && index + n <= RUN_INDEXES
    ensures Pieces(index, n) == Pow2(Log2Run(index)) + Pieces(index + 1, n - 1)
  {
    hide Log2Run, Pow2;
    if n > 1 {
      FirstPiece(index, n - 1);
      assert index + n - 1 == index + 1 + (n - 1) - 1;
    } else {
      assert Pieces(index, 0) == 0 && Pieces(index + 1, 0) == 0;
    }
  }

  predicate IsOnes(s: seq<bool>, start: nat, end: nat)
    requires start <= end <= |s|
  {
    forall j :: start <= j < end ==> s[j]
  }

  /** The code of a run of `count` samples from column `position` on.  A one for each of the n pieces
      that fit; then, unless they end with the row, a zero and what is left, in as many bits as the
      next piece would have.  The index moves past the pieces, and one back after the zero. */
  predicate IsRun(bits: seq<bool>, index: nat, position: nat, width: nat, count: nat, last: nat, n: nat) {
    && index + n < RUN_INDEXES && Pieces(index, n) <= count
    && n <= |bits| && IsOnes(bits, 0, n)
    && if 0 < n && Pieces(index, n) == count && position + count == width then
         |bits| == n && last == index + n
       else
         && count < Pieces(index, n + 1)
         && |bits| == n + 1 + Log2Run(index + n) && !bits[n]
         && HoldsNumber(bits, n + 1, |bits|, count - Pieces(index, n))
         && last == Max(index + n - 1, 0)
  }

  lemma OneMorePiece(index: nat, position: nat, width: nat, count: nat, bits: seq<bool>, last: nat, n: nat)
    requires index + 1 < RUN_INDEXES && Pow2(Log2Run(index)) <= count
    requires position + count <= width && position + Pow2(Log2Run(index)) < width
    requires IsRun(bits, index + 1, position + Pow2(Log2Run(index)), width, count - Pow2(Log2Run(index)), last, n)
    ensures IsRun([true] + bits, index, position, width, count, last, n + 1)
  {
    hide Log2Run, Pow2;
    FirstPiece(index, n + 1);
    if index + n + 2 <= RUN_INDEXES {
      FirstPiece(index, n + 2);
    }
    var longer := [true] + bits;
    assert forall j :: 1 <= j < |longer| ==> longer[j] == bits[j - 1];
  }

  /** Every run is coded so. */
  lemma {:induction false} RunPlaced(index: nat, position: nat, width: nat, count: nat) returns (n: nat)
    requires index < RUN_INDEXES && position + count <= width && position < width
    requires RunCode(index, position, width, count).Ok?
    ensures var (bits, last) := RunCode(index, position, width, count).value;
            IsRun(bits, index, position, width, count, last, n)
    decreases count
  {
    hide Log2Run, Pow2, FixedBits;
    var full := FullRun(index);
    assert Pieces(index, 1) == Pieces(index, 0) + full && Pieces(index, 0) == 0;
    if full <= count {
      if position + full == width {
        n := 1;
      } else {
        var more := RunPlaced(index + 1, position + full, width, count - full);
        var (bits, last) := RunCode(index + 1, position + full, width, count - full).value;
        OneMorePiece(index, position, width, count, bits, last, more);
        n := more + 1;
      }
    } else {
      n := 0;
      FixedHolds(count, Log2Run(index), [false]);
    }
  }

  /** No other number of pieces fits. */
  lemma PiecesUnique(bits: seq<bool>, index: nat, position: nat, width: nat, count: nat, last: nat, n: nat, m: nat)
    requires IsRun(bits, index, position, width, count, last, n) && position + count <= width
    requires index + m < RUN_INDEXES && Pieces(index, m) <= count < Pieces(index, m + 1)
    ensures m == n
  {
    hide Log2Run, HoldsNumber;
    if m < n {
      PiecesGrow(index, m + 1, n);
    } else if n < m {
      PiecesGrow(index, n + 1, m);
    }
  }

  lemma {:induction false} PiecesGrow(index: nat, n: nat, m: nat)
    requires n <= m && index + m <= RUN_INDEXES
    ensures Pieces(index, n) <= Pieces(index, m) && (n < m ==> Pieces(index, n) < Pieces(index, m))
    decreases m
  {
    if n < m {
      PiecesGrow(index, n, m - 1);
    }
  }

  /** A segment that is read moves by the same lengths: a whole piece after a one, and after a zero
      the number that stands behind it, the index one back. */
  lemma SegmentTaken(s: seq<bool>, pos: nat, run: RunState, x: nat, width: nat)
    requires pos < |s| && run.index < RUN_INDEXES && run.pending == 0 && x <= width
    requires TakeSegment(s, pos, run, x, width).Ok?
    ensures var (segment, next, after) := TakeSegment(s, pos, run, x, width).value;
            if s[pos] then
              && next == pos + 1 && !segment.interrupted && segment.count == Min(Pow2(Log2Run(run.index)), width - x)
              && after == RunState(if Pow2(Log2Run(run.index)) <= width - x then run.index + 1 else run.index, 0)
            else
              && next == pos + 1 + Log2Run(run.index) <= |s|
              && HoldsNumber(s, pos + 1, next, segment.count + after.pending)
              && segment.count <= width - x && (segment.interrupted <==> after.pending == 0)
              && (0 < after.pending ==> segment.count == width - x)
              && after.index == Max(run.index - 1, 0)
  {
    hide Log2Run, Accumulate, HoldsNumber;
    if !s[pos] {
      FieldTaken(s, pos + 1, Log2Run(run.index));
    }
  }
}
