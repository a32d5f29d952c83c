// How a Golomb-Rice context ages: its bias follows the mean of what was coded, its drift keeps what
// the bias has not yet taken up, and at 128 values the past is halved.

module GolombAging {
  import opened Basics
  import opened Bits
  import opened GolombRice
  import SampleModel

  /** floor(value / 2) after 128 values, the value itself before. */
  function Faded(c: ContextState, value: int): int {
    if c.count == 128 then value / 2 else value
  }

  /** One more value: the count, the error sum and the drift, before the bias moves. */
  function AgedCount(c: ContextState): int {
    Faded(c, c.count) + 1
  }

  function AgedDrift(c: ContextState, value: int): int {
    Faded(c, c.drift + value)
  }

  /** The bias moves by one, at most to its limits, when the drift amounts to a whole step per value:
      down when it is at most minus the count, up when it is positive; and the drift gives up what the
      bias took, within its own limits. */
  predicate IsAged(c: ContextState, value: int, next: ContextState) {
    var n, d := AgedCount(c), AgedDrift(c, value);
    && next.count == n
    && next.errorSum == Faded(c, c.errorSum + Abs(value))
    && next.bias == (if d <= -n then Max(c.bias - 1, -128) else if d > 0 then Min(c.bias + 1, 127) else c.bias)
    && next.drift == (if d <= -n then Max(d + n, 1 - n) else if d > 0 then Min(d - n, 0) else d)
  }

  lemma UpdateAges(c: ContextState, value: int)
    ensures IsAged(c, value, Update(c, value))
  {
    assert ShiftRight(c.drift + value, 1) == (c.drift + value) / 2;
  }

  /** While nothing is halved or clamped, count times bias plus drift adds up all values. */
  lemma BalanceKept(c: ContextState, value: int, next: ContextState)
    requires IsAged(c, value, next) && c.count != 128
    requires var d, n := c.drift + value, c.count + 1;
             && (d <= -n ==> -128 < c.bias && 1 - n <= d + n)
             && (d > 0 ==> c.bias < 127 && d - n <= 0)
    ensures next.count * next.bias + next.drift == next.count * c.bias + c.drift + value
  {
    var n := c.count + 1;
    assert n * (c.bias - 1) == n * c.bias - n && n * (c.bias + 1) == n * c.bias + n;
  }

  /** The bias goes down exactly when the drift does not exceed minus the count, up exactly when it is
      positive, unless it is at its limit. */
  lemma BiasFollows(c: ContextState, value: int, next: ContextState)
    requires IsAged(c, value, next) && Balanced(c)
    ensures next.bias < c.bias <==> AgedDrift(c, value) <= -next.count && -128 < c.bias
    ensures next.bias > c.bias <==> AgedDrift(c, value) > 0 && c.bias < 127
    ensures Abs(next.bias - c.bias) <= 1
    ensures c.count == 128 <==> next.count != c.count + 1
    ensures c.count == 128 ==> next.count == 65
  {
  }

  /** What a coded value adds to its context: its difference from the bias, modulo 2^w and centred. */
  predicate IsCentred(v: int, w: nat)
    requires 0 < w
  {
    -Half(w) <= v < Half(w)
  }

  lemma CentreFound(value: int, w: nat) returns (k: int)
    requires 0 < w
    ensures IsCentred(SignExtend(value, w), w) && SignExtend(value, w) == value + k * Pow2(w)
  {
    hide SignExtend, ShiftLeft;
    SignExtendRange(value, w);
    k := SampleModel.SignExtendOffset(value, w);
    ShiftIsProduct(k, w);
  }

  lemma {:induction false} ShiftIsProduct(value: int, n: nat)
    ensures ShiftLeft(value, n) == value * Pow2(n)
  {
    if n > 0 {
      ShiftIsProduct(value, n - 1);
    }
  }

  /** Writing a value ages the context by the centred difference from the bias. */
  lemma SymbolAges(c: ContextState, w: nat, value: int) returns (adaptive: int, k: int)
    requires Symbol(c, w, value).Ok?
    ensures 0 < w && IsCentred(adaptive, w) && adaptive == value - c.bias + k * Pow2(w)
    ensures IsAged(c, adaptive, Symbol(c, w, value).value.1)
  {
    hide Code, SearchK, LowBits, Update;
    k := CentreFound(value - c.bias, w);
    adaptive := SignExtend(value - c.bias, w);
    UpdateAges(c, adaptive);
  }

  /** Reading a value does the same, on any bits: the value that is read is the bias plus what the
      context ages by, modulo 2^w and centred. */
  lemma TakenSymbolAges(s: seq<bool>, pos: nat, c: ContextState, w: nat) returns (adaptive: int, k: int)
    requires TakeSymbol(s, pos, c, w).Ok?
    ensures var (value, _, next) := TakeSymbol(s, pos, c, w).value;
            && 0 < w && IsCentred(value, w) && value == adaptive + c.bias + k * Pow2(w)
            && IsAged(c, adaptive, next)
  {
    hide TakeCode, SearchK, LowBits, Update;
    var coded := Unfold(TakeCode(s, pos, DeriveK(c).value, w, 0).value.0);
    adaptive := if Flips(c) then -1 - coded else coded;
    k := CentreFound(adaptive + c.bias, w);
    UpdateAges(c, adaptive);
  }
}
