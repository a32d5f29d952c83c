// Golomb-Rice codes and the adaptive contexts that choose their parameter.

module GolombRice {
  import opened Basics
  import opened Bits

  const INT32_MAX: int := 0x7fff_ffff
  const INT32_MIN: int := -0x8000_0000

  function Fold(value: int): nat {
    if value < 0 then -2 * value - 1 else 2 * value
  }

  function Unfold(folded: nat): int {
    var magnitude: int := folded / 2;
    if folded % 2 == 1 then -magnitude - 1 else magnitude
  }

  /** Unary quotient and k-bit remainder, or twelve zeros and an escape field of w bits. */
  function Code(k: nat, w: nat, folded: nat): Result<seq<bool>> {
    if folded <= ShiftLeft(12, k) - 1 then
      Ok(Zeros(ShiftRight(folded, k)) + ([true] + FixedBits(LowBits(folded, k), k)))
    else if folded - 11 > Pow2(w) - 1 then Err(InvalidArgument)
    else Ok(Zeros(12) + FixedBits(folded - 11, w))
  }

  function TakeCode(s: seq<bool>, pos: nat, k: nat, w: nat, prefix: nat): Result<(nat, nat)>
    requires prefix <= 12
    decreases 12 - prefix, pos
  {
    if prefix == 12 then
      var (escaped, next) :- TakeFixed(s, pos, w);
      Ok((escaped + 11, next))
    else
      var (bit, next) :- TakeBit(s, pos);
      if bit then
        var (suffix, after) :- TakeFixed(s, next, k);
        Ok((ShiftLeft(prefix, k) + suffix, after))
      else TakeCode(s, next, k, w, prefix + 1)
  }

  lemma {:induction false} ZerosRead(s: seq<bool>, pos: nat, n: nat, i: nat, k: nat, w: nat)
    requires i <= n <= 12 && Carries(s, pos, Zeros(n))
    ensures TakeCode(s, pos + i, k, w, i) == TakeCode(s, pos + n, k, w, n)
    decreases n - i
  {
    if i < n {
      CarriesAt(s, pos, Zeros(n), i);
      ZerosRead(s, pos, n, i + 1, k, w);
    }
  }

  lemma RegularReadsBack(s: seq<bool>, pos: nat, k: nat, w: nat, prefix: nat, suffix: nat)
    requires prefix < 12 && suffix < Pow2(k)
    requires Carries(s, pos, Zeros(prefix)) && Carries(s, pos + prefix, [true]) && Carries(s, pos + prefix + 1, FixedBits(suffix, k))
    ensures TakeCode(s, pos, k, w, 0) == Ok((ShiftLeft(prefix, k) + suffix, pos + prefix + 1 + k))
  {
    ZerosRead(s, pos, prefix, 0, k, w);
    CarriesAt(s, pos + prefix, [true], 0);
    FixedReadsBack(s, pos + prefix + 1, suffix, k);
  }

  lemma EscapeReadsBack(s: seq<bool>, pos: nat, k: nat, w: nat, escaped: nat)
    requires escaped < Pow2(w)
    requires Carries(s, pos, Zeros(12)) && Carries(s, pos + 12, FixedBits(escaped, w))
    ensures TakeCode(s, pos, k, w, 0) == Ok((escaped + 11, pos + 12 + w))
  {
    ZerosRead(s, pos, 12, 0, k, w);
    FixedReadsBack(s, pos + 12, escaped, w);
  }

  /** Every code reads back, wherever it stands. */
  lemma CodeReadsBack(s: seq<bool>, pos: nat, k: nat, w: nat, folded: nat, code: seq<bool>)
    requires Code(k, w, folded) == Ok(code)
    requires Carries(s, pos, code)
    ensures TakeCode(s, pos, k, w, 0) == Ok((folded, pos + |code|))
  {
    if folded <= ShiftLeft(12, k) - 1 {
      var prefix, suffix := ShiftRight(folded, k), LowBits(folded, k);
      ShiftRightBelow(folded, 12, k);
      ShiftSplit(folded, k);
      CarriesBoth(s, pos, Zeros(prefix), [true] + FixedBits(suffix, k));
      CarriesBoth(s, pos + prefix, [true], FixedBits(suffix, k));
      RegularReadsBack(s, pos, k, w, prefix, suffix);
    } else {
      CarriesBoth(s, pos, Zeros(12), FixedBits(folded - 11, w));
      EscapeReadsBack(s, pos, k, w, folded - 11);
    }
  }

  /** One adaptive context. */
  datatype ContextState = ContextState(drift: int, errorSum: int, bias: int, count: int)

  const INITIAL_STATE := ContextState(0, 4, 0, 1)

  predicate Acceptable(c: ContextState) {
    0 < c.count <= 128 && 0 <= c.errorSum && -128 <= c.bias <= 127
  }

  /** The smallest k with count * 2^k >= errorSum; k beyond 31 is an error. */
  function SearchK(threshold: int, errorSum: int, k: nat): Option<nat>
    requires k <= 31
    decreases 31 - k, threshold
  {
    if errorSum <= threshold then Some(k)
    else if k == 31 then None
    else SearchK(2 * threshold, errorSum, k + 1)
  }

  function DeriveK(c: ContextState): Option<nat> {
    SearchK(c.count, c.errorSum, 0)
  }

  function SignExtend(value: int, w: nat): int {
    var encoded := LowBits(value, w);
    if Pow2(w) / 2 <= encoded then encoded - Pow2(w) else encoded
  }

  function Halved(c: ContextState): ContextState {
    ContextState(ShiftRight(c.drift, 1), c.errorSum / 2, c.bias, c.count / 2)
  }

  function Update(c: ContextState, value: int): ContextState {
    var added := c.(errorSum := c.errorSum + Abs(value), drift := c.drift + value);
    var aged := if added.count == 128 then Halved(added) else added;
    var counted := aged.(count := aged.count + 1);
    if counted.drift <= -counted.count then
      counted.(bias := Max(counted.bias - 1, -128), drift := Max(counted.drift + counted.count, -counted.count + 1))
    else if counted.drift > 0 then
      counted.(bias := Min(counted.bias + 1, 127), drift := Min(counted.drift - counted.count, 0))
    else counted
  }

  /** The drift decides whether values are coded complemented. */
  predicate Flips(c: ContextState) {
    2 * c.drift < -c.count
  }

  function Symbol(c: ContextState, w: nat, value: int): Result<(seq<bool>, ContextState)> {
    if !Acceptable(c) then Err(InvalidState)
    else if w == 0 || 31 < w then Err(InvalidArgument)
    else if DeriveK(c).None? then Err(InvalidState)
    else
      var adaptive := SignExtend(value - c.bias, w);
      var bits :- Code(DeriveK(c).value, w, Fold(if Flips(c) then -1 - adaptive else adaptive));
      Ok((bits, Update(c, adaptive)))
  }

  function TakeSymbol(s: seq<bool>, pos: nat, c: ContextState, w: nat): Result<(int, nat, ContextState)> {
    if !Acceptable(c) then Err(InvalidState)
    else if w == 0 || 31 < w then Err(InvalidArgument)
    else if DeriveK(c).None? then Err(InvalidState)
    else
      var (folded, next) :- TakeCode(s, pos, DeriveK(c).value, w, 0);
      var coded := Unfold(folded);
      if coded < INT32_MIN || INT32_MAX < coded then Err(SyntaxError)
      else
        var value := if Flips(c) then -1 - coded else coded;
        Ok((SignExtend(value + c.bias, w), next, Update(c, value)))
  }

  /** What count, drift and bias keep whatever is read or written. */
  predicate Balanced(c: ContextState) {
    1 <= c.count <= 128 && -c.count < c.drift <= 0 && -128 <= c.bias <= 127 && 0 <= c.errorSum
  }

  /** What a context fed with w-bit values keeps. */
  ghost predicate Adapted(c: ContextState, w: nat)
    requires 0 < w
  {
    Balanced(c) && c.errorSum <= ShiftLeft(c.count, w - 1) + 4
  }

  lemma UpdateKeepsBalance(c: ContextState, value: int)
    requires Balanced(c)
    ensures Balanced(Update(c, value))
  {
    assert ShiftRight(c.drift + value, 1) == (c.drift + value) / 2;
  }

  lemma UpdateBoundsError(c: ContextState, value: int, n: nat)
    requires Balanced(c) && c.errorSum <= ShiftLeft(c.count, n) + 4 && Abs(value) <= Pow2(n)
    ensures Update(c, value).errorSum <= ShiftLeft(Update(c, value).count, n) + 4
  {
    ShiftLeftOne(n);
    ShiftLeftAdds(c.count, 1, n);
    if c.count == 128 {
      ShiftLeftAdds(64, 64, n);
      ShiftLeftAdds(64, 1, n);
    }
  }

  lemma {:induction false} SearchKFinds(threshold: int, errorSum: int, k: nat, steps: nat)
    requires k + steps <= 31
    requires errorSum <= ShiftLeft(threshold, steps)
    ensures SearchK(threshold, errorSum, k).Some?
    ensures k <= SearchK(threshold, errorSum, k).value <= k + steps
    decreases steps
  {
    if threshold < errorSum {
      assert ShiftLeft(threshold, steps) == ShiftLeft(2 * threshold, steps - 1) by {
        ShiftLeftAdds(threshold, threshold, steps - 1);
      }
      SearchKFinds(2 * threshold, errorSum, k + 1, steps - 1);
    }
  }

  /** The k limit is never reached by a context fed with w-bit values, w <= 31. */
  lemma KExists(c: ContextState, w: nat)
    requires 0 < w <= 31
    requires Adapted(c, w)
    ensures DeriveK(c).Some?
  {
    ShiftLeftGrows(c.count, w - 1, 30);
    assert ShiftLeft(c.count, 31) == 2 * ShiftLeft(c.count, 30);
    ShiftLeftGrows(c.count, 2, 30);
    assert ShiftLeft(c.count, 2) == 4 * c.count;
    SearchKFinds(c.count, c.errorSum, 0, 31);
  }

  lemma {:induction false} ShiftLeftGrows(a: nat, m: nat, n: nat)
    requires m <= n
    ensures ShiftLeft(a, m) <= ShiftLeft(a, n)
    decreases n
  {
    if m < n {
      ShiftLeftGrows(a, m, n - 1);
    }
  }

  /** Half the range of w-bit values. */
  function Half(w: nat): int
    requires 0 < w
  {
    Pow2(w - 1)
  }

  lemma HalfBounded(w: nat)
    requires 0 < w <= 31
    ensures 1 <= Half(w) <= 0x4000_0000
    ensures Pow2(w) == 2 * Half(w)
  {
    Pow2Monotone(w - 1, 30);
    Pow2Of30();
  }

  lemma Pow2Of30()
    ensures Pow2(30) == 0x4000_0000
  {
    assert Pow2(10) == 1024;
    assert Pow2(20) == 1024 * 1024;
  }

  lemma SignExtendRange(value: int, w: nat)
    requires 0 < w
    ensures -Half(w) <= SignExtend(value, w) < Half(w)
  {
  }

  /** SignExtend depends on its argument modulo 2^w only. */
  lemma SignExtendThrough(value: int, bias: int, w: nat)
    requires 0 < w
    ensures SignExtend(SignExtend(value - bias, w) + bias, w) == SignExtend(value, w)
  {
    var d := value - bias;
    ShiftSplit(d, w);
    ShiftLeftOne(w);
    var high := ShiftRight(d, w);
    if Pow2(w) / 2 <= LowBits(d, w) {
      ShiftLeftAdds(high, 1, w);
      LowBitsShifted(SignExtend(d, w) + bias, w, high + 1);
    } else {
      LowBitsShifted(SignExtend(d, w) + bias, w, high);
    }
  }

  lemma SignExtendIdentity(value: int, w: nat)
    requires 0 < w
    requires -Half(w) <= value < Half(w)
    ensures SignExtend(value, w) == value
  {
    if value < 0 {
      ShiftLeftOne(w);
      LowBitsShifted(value, w, 1);
      LowBitsSmall(value + Pow2(w), w);
    } else {
      LowBitsSmall(value, w);
    }
  }

  lemma FoldUnfold(value: int)
    ensures Unfold(Fold(value)) == value
  {
  }

  /** The number actually coded for a value. */
  function Coded(c: ContextState, w: nat, value: int): int {
    var adaptive := SignExtend(value - c.bias, w);
    if Flips(c) then -1 - adaptive else adaptive
  }

  lemma CodedFits(c: ContextState, k: nat, w: nat, value: int)
    requires 0 < w <= 31
    ensures Code(k, w, Fold(Coded(c, w, value))).Ok?
    ensures INT32_MIN <= Coded(c, w, value) <= INT32_MAX
  {
    HalfBounded(w);
    SignExtendRange(value - c.bias, w);
  }

  /** In an adapted context every value can be written: neither the k limit nor the escape
      field is ever exceeded, and the context stays adapted. */
  lemma SymbolWrites(c: ContextState, w: nat, value: int)
    requires 0 < w <= 31
    requires Adapted(c, w)
    ensures Symbol(c, w, value).Ok?
    ensures Adapted(Symbol(c, w, value).value.1, w)
  {
    hide Code, SearchK, LowBits;
    KExists(c, w);
    CodedFits(c, DeriveK(c).value, w, value);
    SignExtendRange(value - c.bias, w);
    UpdateKeepsBalance(c, SignExtend(value - c.bias, w));
    UpdateBoundsError(c, SignExtend(value - c.bias, w), w - 1);
  }

  /** What is read is the written value modulo 2^w, and both sides adapt alike. */
  lemma SymbolReadsBack(s: seq<bool>, pos: nat, c: ContextState, w: nat, value: int, bits: seq<bool>, next: ContextState)
    requires 0 < w <= 31
    requires Adapted(c, w)
    requires Symbol(c, w, value) == Ok((bits, next))
    requires Carries(s, pos, bits)
    ensures TakeSymbol(s, pos, c, w) == Ok((SignExtend(value, w), pos + |bits|, next))
  {
    KExists(c, w);
    CodedFits(c, DeriveK(c).value, w, value);
    CodeReadsBack(s, pos, DeriveK(c).value, w, Fold(Coded(c, w, value)), bits);
    TakeSymbolParts(s, pos, c, w, SignExtend(value - c.bias, w), pos + |bits|);
    SignExtendThrough(value, c.bias, w);
  }

  lemma TakeSymbolParts(s: seq<bool>, pos: nat, c: ContextState, w: nat, adaptive: int, next: nat)
    requires 0 < w <= 31 && Acceptable(c) && DeriveK(c).Some?
    requires var coded := if Flips(c) then -1 - adaptive else adaptive;
             TakeCode(s, pos, DeriveK(c).value, w, 0) == Ok((Fold(coded), next)) && INT32_MIN <= coded <= INT32_MAX
    ensures TakeSymbol(s, pos, c, w) == Ok((SignExtend(adaptive + c.bias, w), next, Update(c, adaptive)))
  {
    FoldUnfold(if Flips(c) then -1 - adaptive else adaptive);
  }

  /** A run of symbols through one context. */
  function Symbols(c: ContextState, w: nat, values: seq<int>): Result<(seq<bool>, ContextState)>
    decreases |values|
  {
    if values == [] then Ok(([], c))
    else
      var (bits, c1) :- Symbol(c, w, values[0]);
      var (more, c2) :- Symbols(c1, w, values[1..]);
      Ok((bits + more, c2))
  }

  function TakeSymbols(s: seq<bool>, pos: nat, c: ContextState, w: nat, n: nat): Result<(seq<int>, nat, ContextState)>
    decreases n
  {
    if n == 0 then Ok(([], pos, c))
    else
      var (value, pos1, c1) :- TakeSymbol(s, pos, c, w);
      var (values, pos2, c2) :- TakeSymbols(s, pos1, c1, w, n - 1);
      Ok(([value] + values, pos2, c2))
  }

  function Extended(values: seq<int>, w: nat): (r: seq<int>)
    ensures |r| == |values|
  {
    if values == [] then [] else [SignExtend(values[0], w)] + Extended(values[1..], w)
  }

  /** Any sequence of values, from any adapted state, can be written. */
  lemma {:induction false} SymbolsWrite(c: ContextState, w: nat, values: seq<int>)
    requires 0 < w <= 31
    requires Adapted(c, w)
    ensures Symbols(c, w, values).Ok?
    ensures Adapted(Symbols(c, w, values).value.1, w)
    decreases |values|
  {
    if values != [] {
      SymbolWrites(c, w, values[0]);
      SymbolsWrite(Symbol(c, w, values[0]).value.1, w, values[1..]);
    }
  }

  lemma FirstSymbolReadsBack(s: seq<bool>, pos: nat, c: ContextState, w: nat, values: seq<int>, bits: seq<bool>, next: ContextState)
    returns (pos1: nat, c1: ContextState, more: seq<bool>)
    requires 0 < w <= 31 && values != []
    requires Adapted(c, w)
    requires Symbols(c, w, values) == Ok((bits, next))
    requires Carries(s, pos, bits)
    ensures Adapted(c1, w)
    ensures TakeSymbol(s, pos, c, w) == Ok((SignExtend(values[0], w), pos1, c1))
    ensures Symbols(c1, w, values[1..]) == Ok((more, next))
    ensures Carries(s, pos1, more) && pos1 + |more| == pos + |bits|
  {
    SymbolWrites(c, w, values[0]);
    var first: seq<bool>;
    first, c1 := Symbol(c, w, values[0]).value.0, Symbol(c, w, values[0]).value.1;
    more := Symbols(c1, w, values[1..]).value.0;
    pos1 := pos + |first|;
    CarriesBoth(s, pos, first, more);
    SymbolReadsBack(s, pos, c, w, values[0], first, c1);
  }

  /** Both sides end in the same state, and every value comes back modulo 2^w. */
  lemma {:induction false} SymbolsReadBack(s: seq<bool>, pos: nat, c: ContextState, w: nat, values: seq<int>, bits: seq<bool>, next: ContextState)
    requires 0 < w <= 31
    requires Adapted(c, w)
    requires Symbols(c, w, values) == Ok((bits, next))
    requires Carries(s, pos, bits)
    ensures TakeSymbols(s, pos, c, w, |values|) == Ok((Extended(values, w), pos + |bits|, next))
    decreases |values|
  {
    hide Symbol, TakeSymbol;
    if values != [] {
      var pos1, c1, more := FirstSymbolReadsBack(s, pos, c, w, values, bits, next);
      SymbolsReadBack(s, pos1, c1, w, values[1..], more, next);
      TakeSymbolsStep(s, pos, c, w, |values|, SignExtend(values[0], w), pos1, c1, Extended(values[1..], w), pos + |bits|, next);
    }
  }

  lemma TakeSymbolsStep(s: seq<bool>, pos: nat, c: ContextState, w: nat, n: nat,
                        v: int, pos1: nat, c1: ContextState, vs: seq<int>, pos2: nat, c2: ContextState)
    requires 0 < n
    requires TakeSymbol(s, pos, c, w) == Ok((v, pos1, c1))
    requires TakeSymbols(s, pos1, c1, w, n - 1) == Ok((vs, pos2, c2))
    ensures TakeSymbols(s, pos, c, w, n) == Ok(([v] + vs, pos2, c2))
  {
  }

  lemma InitialAdapted(w: nat)
    requires 0 < w
    ensures Adapted(INITIAL_STATE, w)
  {
  }

  /** Differences that end a run are never zero, so positive ones are coded one lower. */
  function Interruption(c: ContextState, w: nat, value: int): Result<(seq<bool>, ContextState)> {
    if value == 0 then Err(InvalidArgument)
    else Symbol(c, w, if value > 0 then value - 1 else value)
  }

  function TakeInterruption(s: seq<bool>, pos: nat, c: ContextState, w: nat): Result<(int, nat, ContextState)> {
    var (value, next, c') :- TakeSymbol(s, pos, c, w);
    Ok((if value >= 0 then value + 1 else value, next, c'))
  }

  /** Non-zero differences of at most half the sample range come back exactly. */
  lemma InterruptionReadsBack(s: seq<bool>, pos: nat, c: ContextState, w: nat, value: int, bits: seq<bool>, next: ContextState)
    requires 0 < w <= 31
    requires Adapted(c, w)
    requires value != 0 && -Half(w) <= value <= Half(w)
    requires Interruption(c, w, value) == Ok((bits, next))
    requires Carries(s, pos, bits)
    ensures TakeInterruption(s, pos, c, w) == Ok((value, pos + |bits|, next))
  {
    var mapped := if value > 0 then value - 1 else value;
    SymbolReadsBack(s, pos, c, w, mapped, bits, next);
    SignExtendIdentity(mapped, w);
  }

  /** What a context read from arbitrary bits keeps. */
  predicate Bounded(c: ContextState) {
    Balanced(c) && c.errorSum <= 0x8000_0000 * c.count + 4
  }

  lemma UpdateKeepsBounded(c: ContextState, value: int)
    requires Bounded(c) && Abs(value) <= 0x8000_0000
    ensures Bounded(Update(c, value))
  {
    UpdateKeepsBalance(c, value);
  }

  /** Contexts read from arbitrary bits stay balanced, and their error sum stays far inside
      64 bits, so no signed arithmetic of the reader can overflow. */
  lemma TakeSymbolKeepsBounds(s: seq<bool>, pos: nat, c: ContextState, w: nat)
    requires Bounded(c) && pos <= |s|
    requires TakeSymbol(s, pos, c, w).Ok?
    ensures var (value, next, c') := TakeSymbol(s, pos, c, w).value;
            Bounded(c') && pos < next <= |s| && -Half(w) <= value < Half(w)
  {
    hide SearchK, LowBits, TakeCode;
    var (folded, next) := TakeCode(s, pos, DeriveK(c).value, w, 0).value;
    TakeCodeConsumes(s, pos, DeriveK(c).value, w, 0);
    var coded := Unfold(folded);
    var value := if Flips(c) then -1 - coded else coded;
    UpdateKeepsBounded(c, value);
    SignExtendRange(value + c.bias, w);
    assert TakeSymbol(s, pos, c, w) == Ok((SignExtend(value + c.bias, w), next, Update(c, value)));
  }

  lemma {:induction false} TakeCodeConsumes(s: seq<bool>, pos: nat, k: nat, w: nat, prefix: nat)
    requires prefix <= 12 && 0 < w && pos <= |s|
    requires TakeCode(s, pos, k, w, prefix).Ok?
    ensures pos < TakeCode(s, pos, k, w, prefix).value.1 <= |s|
    decreases 12 - prefix
  {
    if prefix < 12 && !s[pos] {
      TakeCodeConsumes(s, pos + 1, k, w, prefix + 1);
    }
  }
}
