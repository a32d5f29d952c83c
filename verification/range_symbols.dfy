// Scalar symbols as runs of adaptive binary decisions.

module RangeSymbols {
  import opened Basics
  import opened RangeInterval

  type Table = t: seq<byte> | |t| == 256 witness seq(256, _ => 0)

  // The 32 adaptive states of one scalar context.
  type ScalarStates = s: seq<byte> | |s| == 32 witness seq(32, _ => 0)

  const INT64_MAX: int := 0x7fff_ffff_ffff_ffff
  const INT64_MIN: int := -0x8000_0000_0000_0000

  function ZeroState(t: Table, state: byte): byte {
    // Converting 256 - t[..] to an octet sends 256 to 0.
    if state == 0 || t[256 - state] == 0 then 0 else 256 - t[256 - state]
  }

  function OneState(t: Table, state: byte): byte {
    t[state]
  }

  function NextState(t: Table, state: byte, bit: bool): byte {
    if bit then OneState(t, state) else ZeroState(t, state)
  }

  /** A binary decision: which of the 32 states codes it, and the bit. */
  datatype Decision = Decision(index: nat, bit: bool)

  type Decisions = ds: seq<Decision> | forall d <- ds :: d.index < 32

  /** floor(log2(m)) for m > 0. */
  function Exponent(m: nat): (e: nat)
    requires 0 < m
    ensures Pow2(e) <= m < Pow2(e + 1)
  {
    if m == 1 then 0 else Exponent(m / 2) + 1
  }

  /** Unary part: ones for i .. e - 1, then a zero. */
  function UnaryDecisions(i: nat, e: nat): (ds: Decisions)
    requires i <= e
    decreases e - i
  {
    if i == e then [Decision(1 + Min(e, 9), false)]
    else [Decision(1 + Min(i, 9), true)] + UnaryDecisions(i + 1, e)
  }

  /** Mantissa bits n - 1 .. 0 of m, highest first. */
  function MantissaDecisions(n: nat, m: nat): (ds: Decisions) {
    if n == 0 then []
    else [Decision(22 + Min(n - 1, 9), ShiftRight(m, n - 1) % 2 == 1)] + MantissaDecisions(n - 1, m)
  }

  function SignDecisions(isSigned: bool, e: nat, negative: bool): (ds: Decisions) {
    if isSigned then [Decision(11 + Min(e, 10), negative)] else []
  }

  function SuffixDecisions(isSigned: bool, m: nat, negative: bool): (ds: Decisions)
    requires 0 < m
  {
    MantissaDecisions(Exponent(m), m) + SignDecisions(isSigned, Exponent(m), negative)
  }

  function SymbolDecisions(isSigned: bool, m: nat, negative: bool): (ds: Decisions) {
    if m == 0 then [Decision(0, true)]
    else
      var e := Exponent(m);
      [Decision(0, false)] + (UnaryDecisions(0, e) + SuffixDecisions(isSigned, m, negative))
  }

  /** Codes the decisions one after the other, adapting the states. */
  function Encode(t: Table, iv: Interval, s: ScalarStates, ds: Decisions): Option<(Interval, ScalarStates)>
    decreases |ds|
  {
    if ds == [] then Some((iv, s))
    else
      var d := ds[0];
      match Narrow(iv, s[d.index], d.bit)
      case None => None
      case Some(next) => Encode(t, next, s[d.index := NextState(t, s[d.index], d.bit)], ds[1..])
  }

  lemma {:induction false} EncodeConcat(t: Table, iv: Interval, s: ScalarStates, a: Decisions, b: Decisions)
    ensures var ab: Decisions := a + b;
            Encode(t, iv, s, ab) ==
            match Encode(t, iv, s, a)
            case None => None
            case Some((iv', s')) => Encode(t, iv', s', b)
    decreases |a|
  {
    if a == [] {
      assert a + b == b;
    } else {
      assert (a + b)[1..] == a[1..] + b;
      var d := a[0];
      match Narrow(iv, s[d.index], d.bit)
      case None =>
      case Some(next) =>
        EncodeConcat(t, next, s[d.index := NextState(t, s[d.index], d.bit)], a[1..], b);
    }
  }

  lemma {:induction false} EncodeKeepsSound(t: Table, iv: Interval, s: ScalarStates, ds: Decisions)
    requires Sound(iv)
    requires Encode(t, iv, s, ds).Some?
    ensures Sound(Encode(t, iv, s, ds).value.0)
    ensures iv.count <= Encode(t, iv, s, ds).value.0.count
    decreases |ds|
  {
    if ds != [] {
      var d := ds[0];
      NarrowKeepsSound(iv, s[d.index], d.bit);
      EncodeKeepsSound(t, Narrow(iv, s[d.index], d.bit).value,
                       s[d.index := NextState(t, s[d.index], d.bit)], ds[1..]);
    }
  }

  /** A decision adds at most one byte. */
  lemma {:induction false} EncodeShort(t: Table, iv: Interval, s: ScalarStates, ds: Decisions)
    requires Encode(t, iv, s, ds).Some?
    ensures Encode(t, iv, s, ds).value.0.count <= iv.count + |ds|
    decreases |ds|
  {
    if ds != [] {
      var d := ds[0];
      EncodeShort(t, Narrow(iv, s[d.index], d.bit).value,
                  s[d.index := NextState(t, s[d.index], d.bit)], ds[1..]);
    }
  }

  lemma {:induction false} EncodeNests(p: seq<byte>, t: Table, iv: Interval, s: ScalarStates, ds: Decisions)
    requires Encode(t, iv, s, ds).Some?
    requires Admits(p, Encode(t, iv, s, ds).value.0)
    ensures Admits(p, iv)
    decreases |ds|
  {
    if ds != [] {
      var d := ds[0];
      EncodeNests(p, t, Narrow(iv, s[d.index], d.bit).value,
                  s[d.index := NextState(t, s[d.index], d.bit)], ds[1..]);
      NarrowNests(p, iv, s[d.index], d.bit);
    }
  }

  /** The decoder's registers together with the states it is adapting. */
  datatype Reading = Reading(cursor: Cursor, states: ScalarStates)

  function ReadBit(p: seq<byte>, t: Table, r: Reading, index: nat): (Reading, bool)
    requires index < 32
  {
    var (c, bit) := ReadDecision(p, r.cursor, r.states[index]);
    (Reading(c, r.states[index := NextState(t, r.states[index], bit)]), bit)
  }

  /** The unary loop; more than 62 ones is a syntax error. */
  function ReadExponent(p: seq<byte>, t: Table, r: Reading, e: nat): Result<(nat, Reading)>
    requires e <= 62
    decreases 63 - e, p
  {
    var (r', bit) := ReadBit(p, t, r, 1 + Min(e, 9));
    if !bit then Ok((e, r'))
    else if e + 1 > 62 then Err(SyntaxError)
    else ReadExponent(p, t, r', e + 1)
  }

  function ReadMantissa(p: seq<byte>, t: Table, r: Reading, n: nat, m: nat): (nat, Reading)
    decreases n
  {
    if n == 0 then (m, r)
    else
      var (r', bit) := ReadBit(p, t, r, 22 + Min(n - 1, 9));
      ReadMantissa(p, t, r', n - 1, 2 * m + if bit then 1 else 0)
  }

  function Signed(m: nat, negative: bool): int {
    if negative then -(m as int) else m
  }

  /** Mantissa and sign of a symbol whose exponent is known. */
  function ReadSuffix(p: seq<byte>, t: Table, r: Reading, e: nat, isSigned: bool): (v: Result<(int, Reading)>)
    ensures v.Ok? ==> Abs(v.value.0) <= INT64_MAX && (!isSigned ==> 0 <= v.value.0)
  {
    var (m, r1) := ReadMantissa(p, t, r, e, 1);
    if INT64_MAX < m then Err(SyntaxError)
    else if isSigned then
      var (r2, negative) := ReadBit(p, t, r1, 11 + Min(e, 10));
      Ok((Signed(m, negative), r2))
    else Ok((m, r1))
  }

  function ReadScalar(p: seq<byte>, t: Table, r: Reading, isSigned: bool): (v: Result<(int, Reading)>)
    ensures v.Ok? ==> Abs(v.value.0) <= INT64_MAX && (!isSigned ==> 0 <= v.value.0)
  {
    var (r0, zero) := ReadBit(p, t, r, 0);
    if zero then Ok((0, r0))
    else
      var (e, r1) :- ReadExponent(p, t, r0, 0);
      ReadSuffix(p, t, r1, e, isSigned)
  }

  ghost predicate Follows(p: seq<byte>, r: Reading, iv: Interval, s: ScalarStates) {
    Tracks(p, r.cursor, iv) && r.states == s
  }

  lemma BitFollows(p: seq<byte>, t: Table, r: Reading, iv: Interval, d: Decision)
    requires d.index < 32
    requires Tracks(p, r.cursor, iv)
    requires Encode(t, iv, r.states, [d]).Some?
    requires Admits(p, Encode(t, iv, r.states, [d]).value.0)
    ensures ReadBit(p, t, r, d.index).1 == d.bit
    ensures Follows(p, ReadBit(p, t, r, d.index).0,
                    Encode(t, iv, r.states, [d]).value.0, Encode(t, iv, r.states, [d]).value.1)
  {
    var step := Narrow(iv, r.states[d.index], d.bit);
    assert [d][0] == d;
    assert Encode(t, iv, r.states, [d]) ==
           match step { case None => None case Some(next) =>
             Encode(t, next, r.states[d.index := NextState(t, r.states[d.index], d.bit)], [d][1..]) };
    assert [d][1..] == [];
    DecisionFollows(p, r.cursor, iv, r.states[d.index], d.bit);
  }

  /** The first decision of a list is read back, and the rest of the list lies ahead. */
  lemma HeadFollows(p: seq<byte>, t: Table, r: Reading, iv: Interval, d: Decision, rest: Decisions)
    requires d.index < 32
    requires Tracks(p, r.cursor, iv)
    requires Encode(t, iv, r.states, [d] + rest).Some?
    requires Admits(p, Encode(t, iv, r.states, [d] + rest).value.0)
    ensures Encode(t, iv, r.states, [d]).Some?
    ensures ReadBit(p, t, r, d.index).1 == d.bit
    ensures var (iv1, s1) := Encode(t, iv, r.states, [d]).value;
            && Follows(p, ReadBit(p, t, r, d.index).0, iv1, s1)
            && Encode(t, iv1, s1, rest) == Encode(t, iv, r.states, [d] + rest)
  {
    EncodeConcat(t, iv, r.states, [d], rest);
    var (iv1, s1) := Encode(t, iv, r.states, [d]).value;
    EncodeNests(p, t, iv1, s1, rest);
    BitFollows(p, t, r, iv, d);
  }

  lemma {:induction false} ExponentFollows(p: seq<byte>, t: Table, r: Reading, iv: Interval, i: nat, e: nat)
    requires i <= e <= 62
    requires Tracks(p, r.cursor, iv)
    requires Encode(t, iv, r.states, UnaryDecisions(i, e)).Some?
    requires Admits(p, Encode(t, iv, r.states, UnaryDecisions(i, e)).value.0)
    ensures ReadExponent(p, t, r, i).Ok?
    ensures ReadExponent(p, t, r, i).value.0 == e
    ensures Follows(p, ReadExponent(p, t, r, i).value.1,
                    Encode(t, iv, r.states, UnaryDecisions(i, e)).value.0,
                    Encode(t, iv, r.states, UnaryDecisions(i, e)).value.1)
    decreases e - i
  {
    if i == e {
      BitFollows(p, t, r, iv, Decision(1 + Min(e, 9), false));
    } else {
      var d := Decision(1 + Min(i, 9), true);
      HeadFollows(p, t, r, iv, d, UnaryDecisions(i + 1, e));
      ExponentFollows(p, t, ReadBit(p, t, r, d.index).0, Encode(t, iv, r.states, [d]).value.0, i + 1, e);
    }
  }

  /** One round of the mantissa loop. */
  lemma MantissaRound(p: seq<byte>, t: Table, r: Reading, iv: Interval, n: nat, high: nat, d: Decision, rest: Decisions)
    returns (r': Reading, iv': Interval)
    requires 0 < n && d.index == 22 + Min(n - 1, 9)
    requires Tracks(p, r.cursor, iv)
    requires Encode(t, iv, r.states, [d] + rest).Some?
    requires Admits(p, Encode(t, iv, r.states, [d] + rest).value.0)
    ensures ReadMantissa(p, t, r, n, high) == ReadMantissa(p, t, r', n - 1, 2 * high + if d.bit then 1 else 0)
    ensures Tracks(p, r'.cursor, iv')
    ensures Encode(t, iv', r'.states, rest) == Encode(t, iv, r.states, [d] + rest)
  {
    HeadFollows(p, t, r, iv, d, rest);
    r' := ReadBit(p, t, r, d.index).0;
    iv' := Encode(t, iv, r.states, [d]).value.0;
  }

  lemma {:induction false} MantissaFollows(p: seq<byte>, t: Table, r: Reading, iv: Interval, n: nat, m: nat)
    requires 0 <= ShiftRight(m, n)
    requires Tracks(p, r.cursor, iv)
    requires Encode(t, iv, r.states, MantissaDecisions(n, m)).Some?
    requires Admits(p, Encode(t, iv, r.states, MantissaDecisions(n, m)).value.0)
    ensures ReadMantissa(p, t, r, n, ShiftRight(m, n)).0 == m
    ensures Follows(p, ReadMantissa(p, t, r, n, ShiftRight(m, n)).1,
                    Encode(t, iv, r.states, MantissaDecisions(n, m)).value.0,
                    Encode(t, iv, r.states, MantissaDecisions(n, m)).value.1)
    decreases n
  {
    hide Narrow, ReadDecision, NextState;
    if n > 0 {
      ShiftNext(m, n - 1);
      var d := Decision(22 + Min(n - 1, 9), ShiftRight(m, n - 1) % 2 == 1);
      var r', iv' := MantissaRound(p, t, r, iv, n, ShiftRight(m, n), d, MantissaDecisions(n - 1, m));
      MantissaFollows(p, t, r', iv', n - 1, m);
    }
  }

  lemma SuffixFollows(p: seq<byte>, t: Table, r: Reading, iv: Interval, isSigned: bool, m: nat, negative: bool)
    requires 0 < m <= INT64_MAX
    requires negative ==> isSigned
    requires Tracks(p, r.cursor, iv)
    requires Encode(t, iv, r.states, SuffixDecisions(isSigned, m, negative)).Some?
    requires Admits(p, Encode(t, iv, r.states, SuffixDecisions(isSigned, m, negative)).value.0)
    ensures ReadSuffix(p, t, r, Exponent(m), isSigned).Ok?
    ensures ReadSuffix(p, t, r, Exponent(m), isSigned).value.0 == Signed(m, negative)
    ensures Follows(p, ReadSuffix(p, t, r, Exponent(m), isSigned).value.1,
                    Encode(t, iv, r.states, SuffixDecisions(isSigned, m, negative)).value.0,
                    Encode(t, iv, r.states, SuffixDecisions(isSigned, m, negative)).value.1)
  {
    var e := Exponent(m);
    var mantissa := MantissaDecisions(e, m);
    var sign := SignDecisions(isSigned, e, negative);
    EncodeConcat(t, iv, r.states, mantissa, sign);
    var (iv1, s1) := Encode(t, iv, r.states, mantissa).value;
    EncodeNests(p, t, iv1, s1, sign);
    LeadingOne(m);
    MantissaFollows(p, t, r, iv, e, m);
    if isSigned {
      BitFollows(p, t, ReadMantissa(p, t, r, e, 1).1, iv1, Decision(11 + Min(e, 10), negative));
    }
  }

  /** Reading undoes writing, symbol by symbol. */
  lemma ScalarFollows(p: seq<byte>, t: Table, r: Reading, iv: Interval, isSigned: bool, m: nat, negative: bool)
    requires m <= INT64_MAX
    requires negative ==> isSigned && 0 < m
    requires Tracks(p, r.cursor, iv)
    requires Encode(t, iv, r.states, SymbolDecisions(isSigned, m, negative)).Some?
    requires Admits(p, Encode(t, iv, r.states, SymbolDecisions(isSigned, m, negative)).value.0)
    ensures ReadScalar(p, t, r, isSigned).Ok?
    ensures ReadScalar(p, t, r, isSigned).value.0 == Signed(m, negative)
    ensures Follows(p, ReadScalar(p, t, r, isSigned).value.1,
                    Encode(t, iv, r.states, SymbolDecisions(isSigned, m, negative)).value.0,
                    Encode(t, iv, r.states, SymbolDecisions(isSigned, m, negative)).value.1)
  {
    if m == 0 {
      BitFollows(p, t, r, iv, Decision(0, true));
    } else {
      var e := Exponent(m);
      ExponentBound(m);
      var unary := UnaryDecisions(0, e);
      var suffix := SuffixDecisions(isSigned, m, negative);
      HeadFollows(p, t, r, iv, Decision(0, false), unary + suffix);
      var (iv1, s1) := Encode(t, iv, r.states, [Decision(0, false)]).value;
      EncodeConcat(t, iv1, s1, unary, suffix);
      var (iv2, s2) := Encode(t, iv1, s1, unary).value;
      EncodeNests(p, t, iv2, s2, suffix);
      var r0 := ReadBit(p, t, r, 0).0;
      ExponentFollows(p, t, r0, iv1, 0, e);
      SuffixFollows(p, t, ReadExponent(p, t, r0, 0).value.1, iv2, isSigned, m, negative);
    }
  }

  lemma LeadingOne(m: nat)
    requires 0 < m
    ensures ShiftRight(m, Exponent(m)) == 1
  {
  }

  lemma ExponentBound(m: nat)
    requires 0 < m <= INT64_MAX
    ensures Exponent(m) <= 62
  {
    if 63 <= Exponent(m) {
      Pow2Monotone(63, Exponent(m));
      Pow2Of63();
    }
  }

  lemma {:induction false} UnaryLength(i: nat, e: nat)
    requires i <= e
    ensures |UnaryDecisions(i, e)| == e - i + 1
    decreases e - i
  {
    if i < e {
      UnaryLength(i + 1, e);
    }
  }

  lemma {:induction false} MantissaLength(n: nat, m: nat)
    ensures |MantissaDecisions(n, m)| == n
  {
    if n > 0 {
      MantissaLength(n - 1, m);
    }
  }

  /** A symbol takes at most 127 decisions. */
  lemma SymbolLength(isSigned: bool, m: nat, negative: bool)
    requires m <= INT64_MAX
    ensures |SymbolDecisions(isSigned, m, negative)| <= 127
  {
    if 0 < m {
      ExponentBound(m);
      UnaryLength(0, Exponent(m));
      MantissaLength(Exponent(m), m);
    }
  }
}
