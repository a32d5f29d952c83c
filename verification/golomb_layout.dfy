// The bits of a Golomb-Rice symbol, place by place.

module GolombLayout {
  import opened Basics
  import opened Bits
  import opened GolombRice
  import opened GolombAging
  import opened SymbolLayout

  /** Bit j of the n-bit field that ends before position `end` stands for 2^(end - 1 - j). */
  predicate HoldsNumber(s: seq<bool>, start: nat, end: nat, value: nat)
    requires start <= end <= |s|
  {
    forall j :: start <= j < end ==> s[j] == (value / Pow2(end - 1 - j) % 2 == 1)
  }

  predicate IsZeros(s: seq<bool>, start: nat, end: nat)
    requires start <= end <= |s|
  {
    forall j :: start <= j < end ==> !s[j]
  }

  /** The code of a number below 12 * 2^k is its quotient in zeros, a one and its k low bits; of a larger
      one, twelve zeros and w bits of the number less eleven. */
  predicate IsCode(bits: seq<bool>, k: nat, w: nat, folded: nat) {
    var q := folded / Pow2(k);
    if q < 12 then
      |bits| == q + 1 + k && IsZeros(bits, 0, q) && bits[q] && HoldsNumber(bits, q + 1, |bits|, folded)
    else
      |bits| == 12 + w && IsZeros(bits, 0, 12) && 11 <= folded && HoldsNumber(bits, 12, |bits|, folded - 11)
  }

  lemma FixedHolds(value: nat, n: nat, front: seq<bool>)
    ensures HoldsNumber(front + FixedBits(value, n), |front|, |front| + n, value)
  {
    var s := front + FixedBits(value, n);
    forall j | |front| <= j < |front| + n
      ensures s[j] == (value / Pow2(|front| + n - 1 - j) % 2 == 1)
    {
      assert s[j] == FixedBits(value, n)[j - |front|];
      ShiftIsDivision(value, n - 1 - (j - |front|));
    }
  }

  /** The low k bits of a number are its last k binary places. */
  lemma {:induction false} LowPlaces(value: nat, k: nat, i: nat)
    requires i < k
    ensures LowBits(value, k) / Pow2(i) % 2 == value / Pow2(i) % 2
  {
    ShiftIsDivision(value, i);
    ShiftIsDivision(LowBits(value, k), i);
    LowShifts(value, k, i);
  }

  lemma {:induction false} LowShifts(value: nat, k: nat, i: nat)
    requires i < k
    ensures ShiftRight(LowBits(value, k), i) % 2 == ShiftRight(value, i) % 2
    decreases k
  {
    if i > 0 {
      assert LowBits(value, k) / 2 == LowBits(value / 2, k - 1);
      LowShifts(value / 2, k - 1, i - 1);
    }
  }

  lemma QuotientBelow(folded: nat, k: nat)
    ensures folded <= ShiftLeft(12, k) - 1 <==> folded / Pow2(k) < 12
  {
    ShiftIsProduct(12, k);
    var d := Pow2(k);
    var q := folded / d;
    assert folded == d * q + folded % d;
    if q < 12 {
      MulMonotone(d, q + 1, 12);
    } else {
      MulMonotone(d, 12, q);
    }
  }

  lemma RegularPlaced(k: nat, w: nat, folded: nat, q: nat)
    requires q == folded / Pow2(k) && q < 12
    ensures IsCode(Zeros(q) + ([true] + FixedBits(LowBits(folded, k), k)), k, w, folded)
  {
    hide FixedBits, LowBits, Pow2;
    var front := Zeros(q) + [true];
    var bits := front + FixedBits(LowBits(folded, k), k);
    assert Zeros(q) + ([true] + FixedBits(LowBits(folded, k), k)) == bits;
    FixedHolds(LowBits(folded, k), k, front);
    forall j | q + 1 <= j < |bits|
      ensures bits[j] == (folded / Pow2(|bits| - 1 - j) % 2 == 1)
    {
      LowPlaces(folded, k, |bits| - 1 - j);
    }
  }

  /** Every code is laid out like that. */
  lemma CodePlaced(k: nat, w: nat, folded: nat)
    requires Code(k, w, folded).Ok?
    ensures IsCode(Code(k, w, folded).value, k, w, folded)
  {
    hide FixedBits, Zeros, IsCode, LowBits, Pow2;
    QuotientBelow(folded, k);
    ShiftIsDivision(folded, k);
    if folded <= ShiftLeft(12, k) - 1 {
      RegularPlaced(k, w, folded, folded / Pow2(k));
    } else {
      EscapePlaced(k, w, folded);
    }
  }

  lemma EscapePlaced(k: nat, w: nat, folded: nat)
    requires 12 <= folded / Pow2(k)
    ensures 11 <= folded && IsCode(Zeros(12) + FixedBits(folded - 11, w), k, w, folded)
  {
    hide FixedBits, Pow2;
    var d := Pow2(k);
    assert folded == d * (folded / d) + folded % d;
    MulMonotone(d, 12, folded / d);
    assert 12 <= d * 12;
    FixedHolds(folded - 11, w, Zeros(12));
  }

  /** The parameter is the least k for which count * 2^k reaches the error sum. */
  predicate IsParameter(c: ContextState, k: nat) {
    c.errorSum <= c.count * Pow2(k) && (0 < k ==> c.count * Pow2(k - 1) < c.errorSum)
  }

  lemma {:induction false} SearchFindsLeast(threshold: int, errorSum: int, k: nat)
    requires k <= 31 && SearchK(threshold, errorSum, k).Some?
    ensures var r := SearchK(threshold, errorSum, k).value;
            k <= r <= 31 && errorSum <= threshold * Pow2(r - k) && (k < r ==> threshold * Pow2(r - k - 1) < errorSum)
    decreases 31 - k
  {
    if threshold < errorSum {
      SearchFindsLeast(2 * threshold, errorSum, k + 1);
      var r := SearchK(threshold, errorSum, k).value;
      DoubleThrough(threshold, r - k);
      if k + 1 < r {
        DoubleThrough(threshold, r - k - 1);
      }
    }
  }

  lemma DoubleThrough(threshold: int, n: nat)
    requires 0 < n
    ensures threshold * Pow2(n) == 2 * threshold * Pow2(n - 1)
  {
    assert Pow2(n) == 2 * Pow2(n - 1);
  }

  /** Small magnitudes come first, negative before positive: 0, -1, 1, -2, 2, ... */
  predicate IsRank(value: int, folded: nat) {
    if value < 0 then folded == 2 * -value - 1 else folded == 2 * value
  }

  /** What is coded for a value is its centred difference from the bias, complemented where the drift
      says that the mean is below minus one half. */
  predicate IsCodedFor(c: ContextState, adaptive: int, folded: nat) {
    IsRank(if 2 * c.drift < -c.count then -1 - adaptive else adaptive, folded)
  }

  /** Every symbol is coded so: parameter, number and bits. */
  lemma SymbolPlaced(c: ContextState, w: nat, value: int) returns (adaptive: int, n: int, folded: nat, k: nat)
    requires Symbol(c, w, value).Ok?
    ensures 0 < w && IsCentred(adaptive, w) && adaptive == value - c.bias + n * Pow2(w)
    ensures IsCodedFor(c, adaptive, folded) && IsParameter(c, k) && IsCode(Symbol(c, w, value).value.0, k, w, folded)
    ensures IsAged(c, adaptive, Symbol(c, w, value).value.1)
  {
    hide Code, IsCode, SearchK, LowBits, Update;
    n := CentreFound(value - c.bias, w);
    adaptive := SignExtend(value - c.bias, w);
    UpdateAges(c, adaptive);
    folded := Fold(if Flips(c) then -1 - adaptive else adaptive);
    k := DeriveK(c).value;
    SearchFindsLeast(c.count, c.errorSum, 0);
    CodePlaced(k, w, folded);
  }

  /** The difference that ends a run is never zero: positive ones are coded as the one before. */
  lemma InterruptionPlaced(c: ContextState, w: nat, value: int)
    ensures value == 0 ==> Interruption(c, w, value) == Err(InvalidArgument)
    ensures value < 0 ==> Interruption(c, w, value) == Symbol(c, w, value)
    ensures value > 0 ==> Interruption(c, w, value) == Symbol(c, w, value - 1)
  {
  }

  /** What a reader takes for a number: at most eleven zeros, a one and k bits, or twelve zeros and w
      bits. */
  predicate IsTaken(s: seq<bool>, pos: nat, k: nat, w: nat, folded: nat, next: nat, zeros: nat, field: nat) {
    && pos <= next <= |s|
    && zeros <= 12 && pos + zeros <= next && IsZeros(s, pos, pos + zeros)
    && if zeros < 12 then
         next == pos + zeros + 1 + k && s[pos + zeros] && field < Pow2(k) && HoldsNumber(s, next - k, next, field)
         && folded == zeros * Pow2(k) + field
       else
         next == pos + 12 + w && field < Pow2(w) && HoldsNumber(s, next - w, next, field) && folded == field + 11
  }

  lemma {:induction false} AccumulateHolds(s: seq<bool>, i: nat, n: nat, high: nat)
    requires i <= n <= |s|
    ensures ShiftRight(Accumulate(s, i, n, high), n - i) == high
    ensures HoldsNumber(s, i, n, Accumulate(s, i, n, high))
    decreases n - i
  {
    if i < n {
      var next := 2 * high + if s[i] then 1 else 0;
      var value := Accumulate(s, i, n, high);
      AccumulateHolds(s, i + 1, n, next);
      ShiftNext(value, n - i - 1);
      ShiftIsDivision(value, n - i - 1);
      forall j | i <= j < n
        ensures s[j] == (value / Pow2(n - 1 - j) % 2 == 1)
      {
        if j == i {
          assert n - 1 - j == n - i - 1;
        }
      }
    }
  }

  lemma QuotientZero(value: nat, d: nat)
    requires 0 < d && value / d == 0
    ensures value < d
  {
  }

  lemma FieldTaken(s: seq<bool>, pos: nat, n: nat)
    requires TakeFixed(s, pos, n).Ok?
    ensures var (value, next) := TakeFixed(s, pos, n).value;
            next == pos + n <= |s| && value < Pow2(n) && HoldsNumber(s, pos, next, value)
  {
    hide Accumulate, HoldsNumber, ShiftRight, Pow2;
    AccumulateHolds(s, pos, pos + n, 0);
    var value := TakeFixed(s, pos, n).value.0;
    ShiftIsDivision(value, n);
    QuotientZero(value, Pow2(n));
  }

  /** Whatever the bits, a number that is taken stands there like that. */
  lemma {:induction false} CodeTaken(s: seq<bool>, pos: nat, k: nat, w: nat, prefix: nat) returns (zeros: nat, field: nat)
    requires prefix <= 12 && prefix <= pos && pos <= |s| && IsZeros(s, pos - prefix, pos)
    requires TakeCode(s, pos, k, w, prefix).Ok?
    ensures var (folded, next) := TakeCode(s, pos, k, w, prefix).value;
            IsTaken(s, pos - prefix, k, w, folded, next, zeros, field)
    decreases 12 - prefix
  {
    hide TakeFixed, HoldsNumber, Pow2;
    if prefix == 12 {
      FieldTaken(s, pos, w);
      zeros, field := 12, TakeFixed(s, pos, w).value.0;
    } else if s[pos] {
      FieldTaken(s, pos + 1, k);
      zeros, field := prefix, TakeFixed(s, pos + 1, k).value.0;
      ShiftIsProduct(prefix, k);
    } else {
      zeros, field := CodeTaken(s, pos + 1, k, w, prefix + 1);
    }
  }

  /** So reading a symbol takes such a number with the least parameter, and the value is what that
      number codes for in the context. */
  lemma SymbolTaken(s: seq<bool>, pos: nat, c: ContextState, w: nat)
    returns (adaptive: int, n: int, folded: nat, k: nat, zeros: nat, field: nat)
    requires pos <= |s| && TakeSymbol(s, pos, c, w).Ok?
    ensures var (value, next, after) := TakeSymbol(s, pos, c, w).value;
            && 0 < w && IsParameter(c, k) && IsTaken(s, pos, k, w, folded, next, zeros, field)
            && IsCodedFor(c, adaptive, folded)
            && IsCentred(value, w) && value == adaptive + c.bias + n * Pow2(w)
            && IsAged(c, adaptive, after)
  {
    hide TakeCode, IsTaken, SearchK, LowBits, Update;
    k := DeriveK(c).value;
    SearchFindsLeast(c.count, c.errorSum, 0);
    zeros, field := CodeTaken(s, pos, k, w, 0);
    folded := TakeCode(s, pos, k, w, 0).value.0;
    var coded := Unfold(folded);
    adaptive := if Flips(c) then -1 - coded else coded;
    n := CentreFound(adaptive + c.bias, w);
    UpdateAges(c, adaptive);
  }
}
