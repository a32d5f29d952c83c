// Which of a context's 32 states codes which decision of a number, place by place: what a foreign
// coder has to agree on.

module SymbolLayout {
  import opened Basics
  import opened RangeInterval
  import opened RangeSymbols

  lemma TwiceTheProduct(d: nat, q: nat)
    ensures (2 * d) * q == 2 * (d * q)
  {
  }

  /** Dividing by two and then by d is dividing by 2d. */
  lemma HalfDivided(m: nat, d: nat)
    requires 0 < d
    ensures m / 2 / d == m / (2 * d)
  {
    var h := m / 2;
    var q, r := h / d, h % d;
    var p := d * q;
    assert h == p + r;
    TwiceTheProduct(d, q);
    DivUnique(m, 2 * d, q, 2 * r + m % 2);
  }

  /** A right shift is a division. */
  lemma {:induction false} ShiftIsDivision(m: nat, n: nat)
    ensures ShiftRight(m, n) == m / Pow2(n)
    decreases n
  {
    if n > 0 {
      ShiftIsDivision(m / 2, n - 1);
      HalfDivided(m, Pow2(n - 1));
    }
  }

  lemma ExponentUnique(m: nat, e: nat)
    requires Pow2(e) <= m < Pow2(e + 1)
    ensures 0 < m && Exponent(m) == e
  {
    if Exponent(m) < e {
      Pow2Monotone(Exponent(m) + 1, e);
    } else if e < Exponent(m) {
      Pow2Monotone(e + 1, Exponent(m));
    }
  }

  /** The decisions of a number m with 2^e <= m < 2^(e + 1): not zero in state 0; e ones and a zero in
      states 1 to 10; the bits below the leading one, highest first, in states 31 down to 22; the sign
      in one of the states 11 to 21. */
  predicate IsPlaced(ds: Decisions, isSigned: bool, m: nat, negative: bool, e: nat) {
    && |ds| == 2 * e + 2 + (if isSigned then 1 else 0)
    && ds[0] == Decision(0, false)
    && (forall k :: 1 <= k <= e + 1 ==> ds[k] == Decision(Min(k, 10), k <= e))
    && (forall k :: e + 2 <= k < 2 * e + 2 ==> ds[k] == Decision(22 + Min(2 * e + 1 - k, 9), m / Pow2(2 * e + 1 - k) % 2 == 1))
    && (isSigned ==> ds[2 * e + 2] == Decision(11 + Min(e, 10), negative))
  }

  lemma {:induction false} UnaryPlaced(i: nat, e: nat, k: nat)
    requires i + k <= e
    ensures |UnaryDecisions(i, e)| == e - i + 1
    ensures UnaryDecisions(i, e)[k] == Decision(1 + Min(i + k, 9), i + k < e)
    decreases e - i
  {
    UnaryLength(i, e);
    if k > 0 {
      UnaryPlaced(i + 1, e, k - 1);
    }
  }

  lemma {:induction false} MantissaPlaced(n: nat, m: nat, k: nat)
    requires k < n
    ensures |MantissaDecisions(n, m)| == n
    ensures MantissaDecisions(n, m)[k] == Decision(22 + Min(n - 1 - k, 9), m / Pow2(n - 1 - k) % 2 == 1)
    decreases n
  {
    MantissaLength(n, m);
    if k > 0 {
      MantissaPlaced(n - 1, m, k - 1);
    } else {
      ShiftIsDivision(m, n - 1);
    }
  }

  predicate IsUnary(ds: Decisions, e: nat) {
    |ds| == e + 1 && forall k :: 0 <= k <= e ==> ds[k] == Decision(1 + Min(k, 9), k < e)
  }

  predicate IsMantissa(ds: Decisions, m: nat, e: nat) {
    |ds| == e && forall k :: 0 <= k < e ==> ds[k] == Decision(22 + Min(e - 1 - k, 9), m / Pow2(e - 1 - k) % 2 == 1)
  }

  lemma UnaryStands(e: nat)
    ensures IsUnary(UnaryDecisions(0, e), e)
  {
    hide UnaryDecisions;
    UnaryLength(0, e);
    forall k | 0 <= k <= e
      ensures UnaryDecisions(0, e)[k] == Decision(1 + Min(k, 9), k < e)
    {
      UnaryPlaced(0, e, k);
    }
  }

  lemma MantissaStands(e: nat, m: nat)
    ensures IsMantissa(MantissaDecisions(e, m), m, e)
  {
    hide MantissaDecisions, Pow2;
    MantissaLength(e, m);
    forall k | 0 <= k < e
      ensures MantissaDecisions(e, m)[k] == Decision(22 + Min(e - 1 - k, 9), m / Pow2(e - 1 - k) % 2 == 1)
    {
      MantissaPlaced(e, m, k);
    }
  }

  lemma PartsPlaced(unary: Decisions, mantissa: Decisions, sign: Decisions, ds: Decisions, isSigned: bool, m: nat, negative: bool, e: nat)
    requires IsUnary(unary, e) && IsMantissa(mantissa, m, e)
    requires sign == if isSigned then [Decision(11 + Min(e, 10), negative)] else []
    requires ds == [Decision(0, false)] + (unary + (mantissa + sign))
    ensures IsPlaced(ds, isSigned, m, negative, e)
  {
    hide Pow2;
    forall k | 1 <= k <= e + 1
      ensures ds[k] == Decision(Min(k, 10), k <= e)
    {
      assert ds[k] == unary[k - 1];
    }
    forall k | e + 2 <= k < 2 * e + 2
      ensures ds[k] == Decision(22 + Min(2 * e + 1 - k, 9), m / Pow2(2 * e + 1 - k) % 2 == 1)
    {
      assert ds[k] == mantissa[k - (e + 2)] && e - 1 - (k - (e + 2)) == 2 * e + 1 - k;
    }
  }

  /** The encoder's decisions stand where they should. */
  lemma SymbolPlaced(isSigned: bool, m: nat, negative: bool, e: nat)
    requires Pow2(e) <= m < Pow2(e + 1)
    ensures IsPlaced(SymbolDecisions(isSigned, m, negative), isSigned, m, negative, e)
  {
    hide UnaryDecisions, MantissaDecisions, Pow2, IsPlaced, IsUnary, IsMantissa, Exponent;
    ExponentUnique(m, e);
    UnaryStands(e);
    MantissaStands(e, m);
    PartsPlaced(UnaryDecisions(0, e), MantissaDecisions(e, m), SignDecisions(isSigned, e, negative),
                SymbolDecisions(isSigned, m, negative), isSigned, m, negative, e);
  }

  /** Zero is one decision. */
  lemma ZeroPlaced(isSigned: bool, negative: bool)
    ensures SymbolDecisions(isSigned, 0, negative) == [Decision(0, true)]
  {
  }

  lemma PlacesUnique(a: Decisions, b: Decisions, isSigned: bool, m: nat, negative: bool, e: nat)
    requires IsPlaced(a, isSigned, m, negative, e) && IsPlaced(b, isSigned, m, negative, e)
    ensures a == b
  {
    hide Pow2;
    forall k | 0 <= k < |a|
      ensures a[k] == b[k]
    {
    }
  }

  /** The reader consults the states of the decisions one after the other and finds their bits. */
  function Walk(p: seq<byte>, t: Table, r: Reading, ds: Decisions): Option<Reading>
    decreases |ds|
  {
    if ds == [] then Some(r)
    else
      var (next, bit) := ReadBit(p, t, r, ds[0].index);
      if bit == ds[0].bit then Walk(p, t, next, ds[1..]) else None
  }

  lemma WalkFirst(p: seq<byte>, t: Table, r: Reading, d: Decision, rest: Decisions)
    requires d.index < 32 && ReadBit(p, t, r, d.index).1 == d.bit
    ensures Walk(p, t, r, [d] + rest) == Walk(p, t, ReadBit(p, t, r, d.index).0, rest)
  {
    hide ReadBit;
    assert ([d] + rest)[1..] == rest;
  }

  lemma {:induction false} WalkConcat(p: seq<byte>, t: Table, r: Reading, a: Decisions, b: Decisions)
    requires Walk(p, t, r, a).Some?
    ensures Walk(p, t, r, a + b) == Walk(p, t, Walk(p, t, r, a).value, b)
    decreases |a|
  {
    hide ReadBit;
    if a == [] {
      assert a + b == b;
    } else {
      WalkConcat(p, t, ReadBit(p, t, r, a[0].index).0, a[1..], b);
      assert (a + b)[1..] == a[1..] + b;
    }
  }

  lemma {:induction false} ExponentWalked(p: seq<byte>, t: Table, r: Reading, i: nat)
    requires i <= 62 && ReadExponent(p, t, r, i).Ok?
    ensures var (e, r') := ReadExponent(p, t, r, i).value;
            i <= e <= 62 && Walk(p, t, r, UnaryDecisions(i, e)) == Some(r')
    decreases 62 - i
  {
    hide ReadBit;
    var (r1, bit) := ReadBit(p, t, r, 1 + Min(i, 9));
    if bit {
      ExponentWalked(p, t, r1, i + 1);
      var e := ReadExponent(p, t, r, i).value.0;
      WalkFirst(p, t, r, Decision(1 + Min(i, 9), true), UnaryDecisions(i + 1, e));
    } else {
      WalkFirst(p, t, r, Decision(1 + Min(i, 9), false), []);
      assert [Decision(1 + Min(i, 9), false)] + [] == [Decision(1 + Min(i, 9), false)];
    }
  }

  lemma NothingShifted(m: nat)
    ensures ShiftRight(m, 0) == m
  {
  }

  lemma {:induction false} MantissaWalked(p: seq<byte>, t: Table, r: Reading, n: nat, high: nat)
    ensures var (m, r') := ReadMantissa(p, t, r, n, high);
            ShiftRight(m, n) == high && Walk(p, t, r, MantissaDecisions(n, m)) == Some(r')
    decreases n
  {
    hide ReadBit, ShiftRight;
    if n == 0 {
      NothingShifted(high);
    } else {
      var (r1, bit) := ReadBit(p, t, r, 22 + Min(n - 1, 9));
      MantissaWalked(p, t, r1, n - 1, 2 * high + if bit then 1 else 0);
      var m := ReadMantissa(p, t, r, n, high).0;
      ShiftNext(m, n - 1);
      WalkFirst(p, t, r, Decision(22 + Min(n - 1, 9), bit), MantissaDecisions(n - 1, m));
    }
  }

  lemma {:induction false} LeadingExponent(m: nat, e: nat)
    requires ShiftRight(m, e) == 1
    ensures Pow2(e) <= m < Pow2(e + 1)
    decreases e
  {
    if e > 0 {
      LeadingExponent(m / 2, e - 1);
    }
  }

  lemma LastWalked(p: seq<byte>, t: Table, r: Reading, ds: Decisions, d: Decision)
    requires Walk(p, t, r, ds).Some? && d.index < 32 && ReadBit(p, t, Walk(p, t, r, ds).value, d.index).1 == d.bit
    ensures Walk(p, t, r, ds + [d]) == Some(ReadBit(p, t, Walk(p, t, r, ds).value, d.index).0)
  {
    hide ReadBit;
    WalkConcat(p, t, r, ds, [d]);
    WalkFirst(p, t, Walk(p, t, r, ds).value, d, []);
    assert [d] + [] == [d];
  }

  lemma SuffixWalked(p: seq<byte>, t: Table, r: Reading, e: nat, isSigned: bool)
    requires ReadSuffix(p, t, r, e, isSigned).Ok?
    ensures var (v, r') := ReadSuffix(p, t, r, e, isSigned).value;
            && Pow2(e) <= Abs(v) < Pow2(e + 1)
            && Walk(p, t, r, SuffixDecisions(isSigned, Abs(v), v < 0)) == Some(r')
  {
    hide ReadBit, ReadMantissa, MantissaDecisions, Walk, Pow2, Exponent, ShiftRight;
    var (m, r1) := ReadMantissa(p, t, r, e, 1);
    MantissaWalked(p, t, r, e, 1);
    LeadingExponent(m, e);
    ExponentUnique(m, e);
    var mantissa := MantissaDecisions(e, m);
    if isSigned {
      var (r2, negative) := ReadBit(p, t, r1, 11 + Min(e, 10));
      LastWalked(p, t, r, mantissa, Decision(11 + Min(e, 10), negative));
      var v := ReadSuffix(p, t, r, e, isSigned).value.0;
      assert v == Signed(m, negative) && Abs(v) == m && (v < 0 <==> negative);
    } else {
      assert mantissa + [] == mantissa;
    }
  }

  lemma ScalarWalked(p: seq<byte>, t: Table, r: Reading, isSigned: bool)
    requires ReadScalar(p, t, r, isSigned).Ok?
    ensures var (v, r') := ReadScalar(p, t, r, isSigned).value;
            Walk(p, t, r, SymbolDecisions(isSigned, Abs(v), v < 0)) == Some(r')
  {
    hide ReadBit, ReadExponent, ReadSuffix, UnaryDecisions, SuffixDecisions;
    var (r0, zero) := ReadBit(p, t, r, 0);
    if zero {
      WalkFirst(p, t, r, Decision(0, true), []);
      assert [Decision(0, true)] + [] == [Decision(0, true)];
    } else {
      ExponentWalked(p, t, r0, 0);
      var (e, r1) := ReadExponent(p, t, r0, 0).value;
      SuffixWalked(p, t, r1, e, isSigned);
      var (v, r2) := ReadSuffix(p, t, r1, e, isSigned).value;
      ExponentUnique(Abs(v), e);
      var suffix := SuffixDecisions(isSigned, Abs(v), v < 0);
      WalkConcat(p, t, r0, UnaryDecisions(0, e), suffix);
      WalkFirst(p, t, r, Decision(0, false), UnaryDecisions(0, e) + suffix);
    }
  }

  /** Whatever the payload, a number that is read was read from exactly those states: the reader
      finds zero in state 0, or the decisions of the number in their places. */
  lemma ScalarConsults(p: seq<byte>, t: Table, r: Reading, isSigned: bool, ds: Decisions, e: nat)
    requires ReadScalar(p, t, r, isSigned).Ok?
    requires var v := ReadScalar(p, t, r, isSigned).value.0;
             if v == 0 then ds == [Decision(0, true)]
             else Pow2(e) <= Abs(v) < Pow2(e + 1) && IsPlaced(ds, isSigned, Abs(v), v < 0, e)
    ensures Walk(p, t, r, ds) == Some(ReadScalar(p, t, r, isSigned).value.1)
  {
    hide ReadScalar, Walk, SymbolDecisions, IsPlaced, Pow2;
    ScalarWalked(p, t, r, isSigned);
    var v := ReadScalar(p, t, r, isSigned).value.0;
    if v == 0 {
      ZeroPlaced(isSigned, false);
    } else {
      SymbolPlaced(isSigned, Abs(v), v < 0, e);
      PlacesUnique(ds, SymbolDecisions(isSigned, Abs(v), v < 0), isSigned, Abs(v), v < 0, e);
    }
  }

  /** Ones from the i-th place of the unary part on, as many as no number has. */
  function Overlong(i: nat): (ds: Decisions)
    requires i <= 63
    ensures |ds| == 63 - i && forall k :: 0 <= k < |ds| ==> ds[k] == Decision(Min(1 + i + k, 10), true)
    decreases 63 - i
  {
    if i == 63 then [] else [Decision(Min(1 + i, 10), true)] + Overlong(i + 1)
  }

  lemma {:induction false} ExponentRefused(p: seq<byte>, t: Table, r: Reading, i: nat)
    requires i <= 62
    ensures ReadExponent(p, t, r, i).Err? <==> Walk(p, t, r, Overlong(i)).Some?
    ensures ReadExponent(p, t, r, i).Err? ==> ReadExponent(p, t, r, i) == Err(SyntaxError)
    ensures ReadExponent(p, t, r, i).Ok? ==> ReadExponent(p, t, r, i).value.0 <= 62
    decreases 62 - i
  {
    hide ReadBit;
    var (r1, bit) := ReadBit(p, t, r, 1 + Min(i, 9));
    assert Overlong(i)[0] == Decision(1 + Min(i, 9), true) && Overlong(i)[1..] == Overlong(i + 1);
    if bit && i < 62 {
      ExponentRefused(p, t, r1, i + 1);
    } else if bit {
      assert Overlong(63) == [];
    }
  }

  /** A number is refused exactly when it is not zero and has 63 ones. */
  lemma ScalarRefused(p: seq<byte>, t: Table, r: Reading, isSigned: bool)
    ensures ReadScalar(p, t, r, isSigned).Err? <==> Walk(p, t, r, [Decision(0, false)] + Overlong(0)).Some?
    ensures ReadScalar(p, t, r, isSigned).Err? ==> ReadScalar(p, t, r, isSigned) == Err(SyntaxError)
  {
    hide ReadBit, ReadExponent, ReadSuffix, Overlong;
    var (r0, zero) := ReadBit(p, t, r, 0);
    var ds := [Decision(0, false)] + Overlong(0);
    assert ds[0] == Decision(0, false) && ds[1..] == Overlong(0);
    if !zero {
      ExponentRefused(p, t, r0, 0);
      if ReadExponent(p, t, r0, 0).Ok? {
        var (e, r1) := ReadExponent(p, t, r0, 0).value;
        SuffixAccepted(p, t, r1, e, isSigned);
      }
    }
  }

  lemma SuffixAccepted(p: seq<byte>, t: Table, r: Reading, e: nat, isSigned: bool)
    requires e <= 62
    ensures ReadSuffix(p, t, r, e, isSigned).Ok?
  {
    hide ReadBit, ReadMantissa;
    var m := ReadMantissa(p, t, r, e, 1).0;
    MantissaWalked(p, t, r, e, 1);
    LeadingExponent(m, e);
    Pow2Monotone(e + 1, 63);
    Pow2Of63();
  }
}
