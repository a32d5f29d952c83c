// The 32-bit cyclic redundancy check of records and slices: most significant bit first,
// starting from zero, no final inversion.  A 32-bit register is its bits, highest first.

module Crc {
  import opened Basics
  import opened Bits

  const WIDTH: nat := 32

  type Word = w: seq<bool> | |w| == WIDTH witness seq(WIDTH, _ => false)

  const POLYNOMIAL: Word := FixedBits(0x04c1_1db7, WIDTH)

  const ZERO: Word := Zeros(WIDTH)

  function Xor(a: Word, b: Word): (w: Word)
    ensures forall i :: 0 <= i < WIDTH ==> w[i] == (a[i] != b[i])
  {
    seq(WIDTH, i requires 0 <= i < WIDTH => a[i] != b[i])
  }

  function ShiftOne(r: Word): Word {
    r[1..] + [false]
  }

  /** One bit of the division. */
  function Step(r: Word): Word {
    if r[0] then Xor(ShiftOne(r), POLYNOMIAL) else ShiftOne(r)
  }

  function Steps(r: Word, n: nat): Word
    decreases n, r
  {
    if n == 0 then r else Steps(Step(r), n - 1)
  }

  /** An octet in the top byte. */
  function Top(b: byte): Word {
    Octet(b) + Zeros(24)
  }

  function Feed(r: Word, b: byte): Word {
    Steps(Xor(r, Top(b)), 8)
  }

  /** The remainder after the given bytes, from the remainder `r`. */
  function Remainder(r: Word, bytes: seq<byte>): Word
    decreases |bytes|
  {
    if bytes == [] then r else Remainder(Feed(r, bytes[0]), bytes[1..])
  }

  method Crc32(bytes: seq<byte>) returns (remainder: Word)
    ensures remainder == Remainder(ZERO, bytes)
  {
    hide Top, Xor, Step;
    remainder := ZERO;
    for i := 0 to |bytes|
      invariant Remainder(remainder, bytes[i..]) == Remainder(ZERO, bytes)
    {
      assert bytes[i..][0] == bytes[i] && bytes[i..][1..] == bytes[i + 1..];
      remainder := FeedByte(remainder, bytes[i]);
    }
  }

  /** The inner loop over the eight bits of one byte. */
  method FeedByte(r: Word, b: byte) returns (remainder: Word)
    ensures remainder == Feed(r, b)
  {
    hide Top, Xor;
    remainder := Xor(r, Top(b));
    for bit := 0 to 8
      invariant Steps(remainder, 8 - bit) == Feed(r, b)
    {
      if remainder[0] {
        remainder := Xor(ShiftOne(remainder), POLYNOMIAL);
      } else {
        remainder := ShiftOne(remainder);
      }
    }
  }

  lemma {:induction false} RemainderConcat(r: Word, a: seq<byte>, b: seq<byte>)
    ensures Remainder(r, a + b) == Remainder(Remainder(r, a), b)
    decreases |a|
  {
    hide Feed;
    if a == [] {
      assert a + b == b;
    } else {
      assert (a + b)[1..] == a[1..] + b;
      RemainderConcat(Feed(r, a[0]), a[1..], b);
    }
  }

  lemma StepLinear(a: Word, b: Word)
    ensures Step(Xor(a, b)) == Xor(Step(a), Step(b))
  {
  }

  /** The polynomial ends in a one, so a step loses nothing. */
  lemma StepInjective(a: Word, b: Word)
    requires Step(a) == Step(b)
    ensures a == b
  {
    assert POLYNOMIAL[31] == (0x04c1_1db7 % 2 == 1);
    assert Step(a)[31] == a[0] && Step(b)[31] == b[0];
    if a[0] {
      XorCancels(ShiftOne(a), ShiftOne(b), POLYNOMIAL);
    }
    assert ShiftOne(a)[..31] == a[1..] && ShiftOne(b)[..31] == b[1..];
    assert a == [a[0]] + a[1..] && b == [b[0]] + b[1..];
  }

  lemma {:induction false} StepsLinear(a: Word, b: Word, n: nat)
    ensures Steps(Xor(a, b), n) == Xor(Steps(a, n), Steps(b, n))
    decreases n
  {
    hide Step, Xor;
    if n > 0 {
      StepLinear(a, b);
      StepsLinear(Step(a), Step(b), n - 1);
    }
  }

  lemma {:induction false} StepsInjective(a: Word, b: Word, n: nat)
    requires Steps(a, n) == Steps(b, n)
    ensures a == b
    decreases n
  {
    hide Step;
    if n > 0 {
      StepsInjective(Step(a), Step(b), n - 1);
      StepInjective(a, b);
    }
  }

  /** While leading bits are clear, dividing is shifting. */
  lemma {:induction false} ShiftOut(r: Word, n: nat)
    requires n <= WIDTH && r[..n] == Zeros(n)
    ensures Steps(r, n) == r[n..] + Zeros(n)
    decreases n
  {
    hide Xor;
    if n > 0 {
      assert !r[..n][0];
      var next := ShiftOne(r);
      assert next[..n - 1] == r[..n][1..] == Zeros(n - 1);
      ShiftOut(next, n - 1);
      assert next[n - 1..] + Zeros(n - 1) == r[n..] + Zeros(n);
    }
  }

  lemma XorCancels(a: Word, b: Word, c: Word)
    requires Xor(a, c) == Xor(b, c)
    ensures a == b
  {
    forall i | 0 <= i < WIDTH
      ensures a[i] == b[i]
    {
      assert Xor(a, c)[i] == Xor(b, c)[i];
    }
  }

  /** Feeding the same bytes keeps different remainders apart. */
  lemma {:induction false} RemainderInjective(a: Word, b: Word, bytes: seq<byte>)
    requires Remainder(a, bytes) == Remainder(b, bytes)
    ensures a == b
    decreases |bytes|
  {
    hide Steps, Top, Xor;
    if bytes != [] {
      RemainderInjective(Feed(a, bytes[0]), Feed(b, bytes[0]), bytes[1..]);
      StepsInjective(Xor(a, Top(bytes[0])), Xor(b, Top(bytes[0])), 8);
      XorCancels(a, b, Top(bytes[0]));
    }
  }

  /** The number whose binary digits are the given bits. */
  function Gathered(s: seq<bool>): nat {
    Accumulate(s, 0, |s|, 0)
  }

  lemma {:induction false} GatheredBits(s: seq<bool>, i: nat, high: nat, j: nat)
    requires i <= j < |s|
    ensures ShiftRight(Accumulate(s, i, |s|, high), |s| - 1 - j) % 2 == if s[j] then 1 else 0
    decreases j - i
  {
    var next := 2 * high + if s[i] then 1 else 0;
    if i < j {
      GatheredBits(s, i + 1, next, j);
    } else {
      AccumulateHigh(s, i + 1, next);
    }
  }

  lemma {:induction false} AccumulateHigh(s: seq<bool>, i: nat, high: nat)
    requires i <= |s|
    ensures ShiftRight(Accumulate(s, i, |s|, high), |s| - i) == high
    decreases |s| - i
  {
    if i < |s| {
      var next := 2 * high + if s[i] then 1 else 0;
      AccumulateHigh(s, i + 1, next);
      ShiftNext(Accumulate(s, i, |s|, high), |s| - i - 1);
    }
  }

  lemma {:induction false} GatheredBound(s: seq<bool>, i: nat, high: nat)
    requires i <= |s|
    ensures Accumulate(s, i, |s|, high) < ShiftLeft(high + 1, |s| - i)
    decreases |s| - i
  {
    if i < |s| {
      GatheredBound(s, i + 1, 2 * high + if s[i] then 1 else 0);
      ShiftLeftAdds(high + 1, high + 1, |s| - i - 1);
      ShiftLeftMonotone(2 * high + 1 + if s[i] then 1 else 0, 2 * high + 2, |s| - i - 1);
    }
  }

  /** Eight bits as an octet. */
  function ToOctet(s: seq<bool>): (b: byte)
    requires |s| == 8
  {
    GatheredBound(s, 0, 0);
    ShiftLeftOne(8);
    assert Pow2(8) == 256;
    Gathered(s)
  }

  lemma OctetOfBits(s: seq<bool>)
    requires |s| == 8
    ensures Octet(ToOctet(s)) == s
  {
    forall j | 0 <= j < 8
      ensures Octet(ToOctet(s))[j] == s[j]
    {
      GatheredBits(s, 0, 0, j);
    }
  }

  /** A remainder as four bytes, most significant first. */
  function BigEndian(r: Word): (s: seq<byte>)
    ensures |s| == 4
  {
    [ToOctet(r[..8]), ToOctet(r[8..16]), ToOctet(r[16..24]), ToOctet(r[24..])]
  }

  lemma FeedOwnTop(r: Word)
    ensures Feed(r, ToOctet(r[..8])) == r[8..] + Zeros(8)
  {
    hide ToOctet, Steps;
    OctetOfBits(r[..8]);
    var cleared: Word := Zeros(8) + r[8..];
    assert Xor(r, Top(ToOctet(r[..8]))) == cleared;
    assert cleared[..8] == Zeros(8) && cleared[8..] == r[8..];
    ShiftOut(cleared, 8);
  }

  /** The register after n of its own bytes were fed. */
  function Shifted(r: Word, n: nat): Word
    requires 8 * n <= WIDTH
  {
    r[8 * n..] + Zeros(8 * n)
  }

  lemma FeedOwnByte(r: Word, n: nat)
    requires n < 4
    ensures |r[8 * n..8 * n + 8]| == 8
    ensures Feed(Shifted(r, n), ToOctet(r[8 * n..8 * n + 8])) == Shifted(r, n + 1)
  {
    hide ToOctet, Feed;
    var w := Shifted(r, n);
    assert w[..8] == r[8 * n..8 * n + 8];
    FeedOwnTop(w);
    assert w[8..] + Zeros(8) == Shifted(r, n + 1);
  }

  /** Four bytes of its own make any remainder vanish. */
  lemma OwnBytesVanish(r: Word)
    ensures Remainder(r, BigEndian(r)) == ZERO
  {
    hide Feed, ToOctet;
    FeedOwnByte(r, 0);
    FeedOwnByte(r, 1);
    FeedOwnByte(r, 2);
    FeedOwnByte(r, 3);
    assert r[0..8] == r[..8] && r[24..32] == r[24..];
    assert Shifted(r, 0) == r && Shifted(r, 4) == ZERO;
    RemainderOfFour(r, BigEndian(r));
  }

  lemma RemainderOfFour(r: Word, s: seq<byte>)
    requires |s| == 4
    ensures Remainder(r, s) == Feed(Feed(Feed(Feed(r, s[0]), s[1]), s[2]), s[3])
  {
    hide Feed;
    var r1 := Feed(r, s[0]);
    var r2 := Feed(r1, s[1]);
    var r3 := Feed(r2, s[2]);
    assert Remainder(r, s) == Remainder(r1, s[1..]);
    assert Remainder(r1, s[1..]) == Remainder(r2, s[2..]) by { assert s[1..][1..] == s[2..]; }
    assert Remainder(r2, s[2..]) == Remainder(r3, s[3..]) by { assert s[2..][1..] == s[3..]; }
    assert Remainder(r3, s[3..]) == Remainder(Feed(r3, s[3]), []) by { assert s[3..][1..] == []; }
  }

  /** Appending the remainder of data of any length makes the whole divisible. */
  lemma ParityVanishes(bytes: seq<byte>)
    ensures Remainder(ZERO, bytes + BigEndian(Remainder(ZERO, bytes))) == ZERO
  {
    hide Remainder, BigEndian;
    RemainderConcat(ZERO, bytes, BigEndian(Remainder(ZERO, bytes)));
    OwnBytesVanish(Remainder(ZERO, bytes));
  }

  /** The bits of n octets, followed by zeros. */
  function Padded(s: seq<byte>): Word
    requires |s| <= 4
  {
    BitsOf(s) + Zeros(WIDTH - 8 * |s|)
  }

  lemma PaddedNext(s: seq<byte>, b: byte)
    requires |s| < 4
    ensures Padded(s + [b]) == Xor(Padded(s), Zeros(8 * |s|) + Octet(b) + Zeros(24 - 8 * |s|))
  {
    hide Octet, BitsOf;
    BitsOfAppend(s, b);
  }

  /** An octet fed after n others entered the register 8 * n steps late. */
  lemma LateOctet(n: nat, b: byte)
    requires n < 4
    ensures Steps(Zeros(8 * n) + Octet(b) + Zeros(24 - 8 * n), 8 * n) == Top(b)
  {
    hide Octet, Xor;
    var w: Word := Zeros(8 * n) + Octet(b) + Zeros(24 - 8 * n);
    assert w[..8 * n] == Zeros(8 * n);
    ShiftOut(w, 8 * n);
    assert w[8 * n..] + Zeros(8 * n) == Top(b);
  }

  lemma {:induction false} StepsAdd(r: Word, m: nat, n: nat)
    ensures Steps(Steps(r, m), n) == Steps(r, m + n)
    decreases m
  {
    hide Step;
    if m > 0 {
      StepsAdd(Step(r), m - 1, n);
    }
  }

  lemma XorAssoc(a: Word, b: Word, c: Word)
    ensures Xor(Xor(a, b), c) == Xor(a, Xor(b, c))
    ensures Xor(a, b) == Xor(b, a)
  {
  }

  /** Up to four bytes enter the register as one word. */
  lemma {:induction false} FewBytes(r: Word, s: seq<byte>)
    requires |s| <= 4
    ensures Remainder(r, s) == Steps(Xor(r, Padded(s)), 8 * |s|)
    decreases |s|
  {
    hide Step, Top, Padded, Xor, Octet;
    if s == [] {
      PaddedNothing(r);
    } else {
      var n := |s| - 1;
      var front, last := s[..n], s[n];
      assert s == front + [last];
      RemainderConcat(r, front, [last]);
      assert [last][1..] == [];
      assert Remainder(Remainder(r, front), [last]) == Feed(Remainder(r, front), last);
      FewBytes(r, front);
      var late: Word := Zeros(8 * n) + Octet(last) + Zeros(24 - 8 * n);
      LateOctet(n, last);
      StepsLinear(Xor(r, Padded(front)), late, 8 * n);
      PaddedNext(front, last);
      XorAssoc(r, Padded(front), late);
      StepsAdd(Xor(r, Padded(s)), 8 * n, 8);
    }
  }

  lemma PaddedNothing(r: Word)
    ensures Xor(r, Padded([])) == r
  {
    assert Padded([]) == ZERO;
  }

  lemma {:induction false} BitsOfInjective(a: seq<byte>, b: seq<byte>)
    requires |a| == |b| && BitsOf(a) == BitsOf(b)
    ensures a == b
    decreases |a|
  {
    hide Octet;
    if a != [] {
      var n := |a| - 1;
      assert BitsOf(a)[..8 * n] == BitsOf(a[..n]) && BitsOf(b)[..8 * n] == BitsOf(b[..n]);
      assert BitsOf(a)[8 * n..] == Octet(a[n]) && BitsOf(b)[8 * n..] == Octet(b[n]);
      BitsOfInjective(a[..n], b[..n]);
      OctetInjective(a[n], b[n]);
      assert a == a[..n] + [a[n]] && b == b[..n] + [b[n]];
    }
  }

  lemma OctetInjective(a: byte, b: byte)
    requires Octet(a) == Octet(b)
    ensures a == b
  {
    OctetValue(a);
    OctetValue(b);
  }

  lemma OctetValue(a: byte)
    ensures Gathered(Octet(a)) == a
  {
    var s := Octet(a);
    assert Pow2(8) == 256;
    assert FixedBits(a, 8) == s;
    assert Carries(s, 0, FixedBits(a, 8));
    FixedReadsBack(s, 0, a, 8);
  }

  /** Any change confined to at most four consecutive bytes of valid data is detected. */
  lemma BurstDetected(before: seq<byte>, burst: seq<byte>, other: seq<byte>, after: seq<byte>)
    requires |burst| == |other| <= 4
    requires Remainder(ZERO, before + burst + after) == ZERO
    ensures Remainder(ZERO, before + other + after) == ZERO <==> other == burst
  {
    hide Remainder, Padded;
    RemainderConcat(ZERO, before + burst, after);
    RemainderConcat(ZERO, before + other, after);
    RemainderConcat(ZERO, before, burst);
    RemainderConcat(ZERO, before, other);
    if Remainder(ZERO, before + other + after) == ZERO {
      var r := Remainder(ZERO, before);
      RemainderInjective(Remainder(r, burst), Remainder(r, other), after);
      FewBytes(r, burst);
      FewBytes(r, other);
      StepsInjective(Xor(r, Padded(burst)), Xor(r, Padded(other)), 8 * |burst|);
      XorAssoc(r, Padded(burst), Padded(burst));
      XorAssoc(r, Padded(other), Padded(other));
      XorCancels(Padded(burst), Padded(other), r);
      SamePadded(burst, other);
    }
  }

  lemma SamePadded(a: seq<byte>, b: seq<byte>)
    requires |a| == |b| <= 4 && Padded(a) == Padded(b)
    ensures a == b
  {
    hide BitsOf;
    assert Padded(a)[..8 * |a|] == BitsOf(a) && Padded(b)[..8 * |b|] == BitsOf(b);
    BitsOfInjective(a, b);
  }
}
