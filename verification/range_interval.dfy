// The arithmetic heart of the range coder, on values.
//
// The encoder keeps a lower bound and a width; the lower bound is a growing
// big-endian number of `count` bytes.  The decoder keeps the distance between
// the payload and that lower bound.

module RangeInterval {
  import opened Basics

  const FULL_RANGE: nat := 0xff00

  /** The coding interval [low, low + range), low being a number of `count` bytes. */
  datatype Interval = Interval(low: nat, range: nat, count: nat)

  const INITIAL_INTERVAL := Interval(0, FULL_RANGE, 2)

  /** value * 256^n. */
  function Scale(value: int, n: nat): int
    decreases n
  {
    if n == 0 then value else 256 * Scale(value, n - 1)
  }

  /** What every encoder run keeps: the width is renormalised and no carry can run
      past the first byte. */
  ghost predicate Sound(iv: Interval) {
    && 256 <= iv.range <= FULL_RANGE
    && 2 <= iv.count
    && iv.low + iv.range <= Scale(FULL_RANGE, iv.count - 2)
  }

  /** The part of the width given to a one. */
  function OneWidth(range: nat, state: byte): (w: nat)
    ensures w <= range
    ensures 0 < range ==> w < range
    ensures 256 <= range && 0 < state ==> 0 < w
  {
    OneWidthBounds(range, state);
    range * state / 256
  }

  lemma OneWidthBounds(range: nat, state: byte)
    ensures 0 <= range * state / 256 <= range
    ensures 0 < range ==> range * state / 256 < range
    ensures 256 <= range && 0 < state ==> 0 < range * state / 256
  {
    assert range * state <= range * 255;
    if 256 <= range && 0 < state {
      assert range * 1 <= range * state;
    }
  }

  /** Narrows the interval by one binary decision; None when the chosen part is empty. */
  function Narrow(iv: Interval, state: byte, bit: bool): Option<Interval> {
    var one := OneWidth(iv.range, state);
    var zero := iv.range - one;
    var next := if bit then one else zero;
    var low := if bit then iv.low + zero else iv.low;
    if next == 0 then None
    else if next < 256 then Some(Interval(low * 256, next * 256, iv.count + 1))
    else Some(Interval(low, next, iv.count))
  }

  lemma NarrowKeepsSound(iv: Interval, state: byte, bit: bool)
    requires Sound(iv)
    ensures Narrow(iv, state, bit).Some? ==> Sound(Narrow(iv, state, bit).value)
    ensures Narrow(iv, state, bit) == None <==> bit && state == 0
  {
    var one := OneWidth(iv.range, state);
  }

  /** The first `n` bytes of `p` as a big-endian number; bytes past the end read as zero. */
  function Prefix(p: seq<byte>, n: nat): nat {
    if n == 0 then 0
    else Prefix(p, n - 1) * 256 + if n - 1 < |p| then p[n - 1] else 0
  }

  /** The payload points inside the interval, so decoding can pass through it. */
  predicate Admits(p: seq<byte>, iv: Interval) {
    iv.low <= Prefix(p, iv.count) < iv.low + iv.range
  }

  /** The decoder's arithmetic registers. */
  datatype Cursor = Cursor(range: nat, low: nat, position: nat, end: bool)

  function InitialCursor(p: seq<byte>): Cursor
    requires 2 <= |p|
  {
    var low: nat := 256 * (p[0] as int) + p[1] as int;
    if FULL_RANGE <= low then Cursor(FULL_RANGE, FULL_RANGE, 2, true)
    else Cursor(FULL_RANGE, low, 2, 2 >= |p|)
  }

  function Refill(p: seq<byte>, c: Cursor): Cursor {
    if 256 <= c.range then c
    else
      var range := c.range * 256;
      var low := c.low * 256;
      if c.end then Cursor(range, low, c.position, true)
      else if c.position < |p| then
        Cursor(range, low + p[c.position], c.position + 1, c.position + 1 >= |p|)
      else Cursor(range, low, c.position, true)
  }

  /** One binary decision: the new registers and the bit. */
  function ReadDecision(p: seq<byte>, c: Cursor, state: byte): (Cursor, bool) {
    var one := OneWidth(c.range, state);
    var zero := c.range - one;
    if c.low < zero then (Refill(p, c.(range := zero)), false)
    else (Refill(p, c.(range := one, low := c.low - zero)), true)
  }

  /** The registers stay inside 32 bits on every payload: never a wrap-around. */
  predicate InBounds(c: Cursor) {
    && c.range <= FULL_RANGE
    && c.low <= c.range
    && (c.low == c.range ==> c.end)
    && (!c.end ==> 256 <= c.range)
  }

  lemma ReadDecisionInBounds(p: seq<byte>, c: Cursor, state: byte)
    requires InBounds(c)
    ensures InBounds(ReadDecision(p, c, state).0)
  {
  }

  /** The decoder stands where the encoder stood. */
  predicate Tracks(p: seq<byte>, c: Cursor, iv: Interval) {
    && c.range == iv.range
    && iv.low + c.low == Prefix(p, iv.count)
    && c.position == Min(iv.count, |p|)
    && c.end == (iv.count >= |p|)
  }

  lemma InitialTracks(p: seq<byte>)
    requires 2 <= |p|
    requires Admits(p, INITIAL_INTERVAL)
    ensures Tracks(p, InitialCursor(p), INITIAL_INTERVAL)
  {
    assert Prefix(p, 2) == Prefix(p, 1) * 256 + p[1];
    assert Prefix(p, 1) == Prefix(p, 0) * 256 + p[0];
  }

  /** If the payload lies in the narrowed interval, it lay in the wider one. */
  lemma NarrowNests(p: seq<byte>, iv: Interval, state: byte, bit: bool)
    requires Narrow(iv, state, bit).Some?
    requires Admits(p, Narrow(iv, state, bit).value)
    ensures Admits(p, iv)
  {
  }

  /** One decision of the decoder undoes one decision of the encoder. */
  lemma DecisionFollows(p: seq<byte>, c: Cursor, iv: Interval, state: byte, bit: bool)
    requires Tracks(p, c, iv)
    requires Narrow(iv, state, bit).Some?
    requires Admits(p, Narrow(iv, state, bit).value)
    ensures ReadDecision(p, c, state).1 == bit
    ensures Tracks(p, ReadDecision(p, c, state).0, Narrow(iv, state, bit).value)
  {
  }

  /** Prefix looks at the first n bytes only. */
  lemma {:induction false} PrefixAgrees(p: seq<byte>, q: seq<byte>, n: nat)
    requires n <= |p| && n <= |q|
    requires p[..n] == q[..n]
    ensures Prefix(p, n) == Prefix(q, n)
  {
    if n > 0 {
      assert p[..n - 1] == p[..n][..n - 1] == q[..n][..n - 1] == q[..n - 1];
      PrefixAgrees(p, q, n - 1);
      assert p[n - 1] == p[..n][n - 1] == q[..n][n - 1] == q[n - 1];
    }
  }
}
