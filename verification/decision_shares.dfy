// What a binary decision does to the interval and to its state, as arithmetic: the shares of one and
// zero, and how far the default transitions move a state.

module DecisionShares {
  import opened Basics
  import opened RangeInterval
  import opened RangeSymbols
  import opened StateTransition

  /** An interval brought back to at least 256. */
  predicate IsRenormalised(low: nat, width: nat, count: nat, iv: Interval) {
    if width < 256 then iv == Interval(256 * low, 256 * width, count + 1) else iv == Interval(low, width, count)
  }

  /** A one gets state / 256 of the width, rounded down, at the top of the interval; a zero gets the
      rest, at the bottom. */
  lemma SharesStand(iv: Interval, state: byte, one: nat)
    requires Sound(iv) && 256 * one <= iv.range * state < 256 * one + 256
    ensures one < iv.range
    ensures Narrow(iv, state, false).Some? && IsRenormalised(iv.low, iv.range - one, iv.count, Narrow(iv, state, false).value)
    ensures Narrow(iv, state, true).Some? <==> 0 < one
    ensures 0 < one ==> IsRenormalised(iv.low + iv.range - one, one, iv.count, Narrow(iv, state, true).value)
  {
    DivUnique(iv.range * state, 256, one, iv.range * state - 256 * one);
  }

  /** The decoder finds a one exactly when the payload stands in the upper share. */
  lemma ShareDecides(p: seq<byte>, c: Cursor, state: byte, one: nat)
    requires 256 <= c.range && 256 * one <= c.range * state < 256 * one + 256
    ensures ReadDecision(p, c, state).1 <==> c.range - one <= c.low
  {
    DivUnique(c.range * state, 256, one, c.range * state - 256 * one);
  }

  /** A zero moves a state as a one moves its mirror image, the other way. */
  lemma ZeroMirrorsOne(t: Table, state: byte)
    ensures 0 < state ==> (NextState(t, state, false) + NextState(t, 256 - state, true)) % 256 == 0
    ensures NextState(t, state, true) == t[state] && NextState(t, 0, false) == 0
  {
  }

  /** Where rounding goes the other way. */
  function Correction(state: nat): int {
    if state == 26 || state == 46 || state == 66 || state == 86 || state == 200 || state == 219 || state == 226 then -1
    else if state == 190 || state == 212 || state == 227 || state == 232 then 1
    else 0
  }

  /** A one moves a state a twentieth of the way to 256, rounded; the two states at the top end at 248,
      and the states outside the band 8..248 are not used. */
  predicate Advances(state: nat, next: int) {
    if state < 8 || 248 < state then next == 0
    else if 246 < state then next == 248
    else 20 * next <= 19 * state + 266 + 20 * Correction(state) < 20 * next + 20
  }

  lemma FirstRowsAdvance(row: nat, column: nat)
    requires row < 2 && column < 16
    ensures Advances(16 * row + column, DEFAULT_ROWS[row][column])
  {
  }

  lemma SecondRowsAdvance(row: nat, column: nat)
    requires 2 <= row < 4 && column < 16
    ensures Advances(16 * row + column, DEFAULT_ROWS[row][column])
  {
  }

  lemma ThirdRowsAdvance(row: nat, column: nat)
    requires 4 <= row < 6 && column < 16
    ensures Advances(16 * row + column, DEFAULT_ROWS[row][column])
  {
  }

  lemma FourthRowsAdvance(row: nat, column: nat)
    requires 6 <= row < 8 && column < 16
    ensures Advances(16 * row + column, DEFAULT_ROWS[row][column])
  {
  }

  lemma FifthRowsAdvance(row: nat, column: nat)
    requires 8 <= row < 10 && column < 16
    ensures Advances(16 * row + column, DEFAULT_ROWS[row][column])
  {
  }

  lemma SixthRowsAdvance(row: nat, column: nat)
    requires 10 <= row < 12 && column < 16
    ensures Advances(16 * row + column, DEFAULT_ROWS[row][column])
  {
  }

  lemma SeventhRowsAdvance(row: nat, column: nat)
    requires 12 <= row < 14 && column < 16
    ensures Advances(16 * row + column, DEFAULT_ROWS[row][column])
  {
  }

  lemma LastRowsAdvance(row: nat, column: nat)
    requires 14 <= row < 16 && column < 16
    ensures Advances(16 * row + column, DEFAULT_ROWS[row][column])
  {
  }

  /** The default table, entry by entry: an estimate of the probability of a one that adapts at the
      rate of one twentieth. */
  lemma DefaultAdvances(state: byte)
    ensures Advances(state, DefaultTransition()[state])
  {
    hide Advances;
    var row, column := state / 16, state % 16;
    if row < 2 {
      FirstRowsAdvance(row, column);
    } else if row < 4 {
      SecondRowsAdvance(row, column);
    } else if row < 6 {
      ThirdRowsAdvance(row, column);
    } else if row < 8 {
      FourthRowsAdvance(row, column);
    } else if row < 10 {
      FifthRowsAdvance(row, column);
    } else if row < 12 {
      SixthRowsAdvance(row, column);
    } else if row < 14 {
      SeventhRowsAdvance(row, column);
    } else {
      LastRowsAdvance(row, column);
    }
  }
}
