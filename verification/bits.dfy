// Most-significant-bit-first bit strings, the bit writer and the bit reader.

module Bits {
  import opened Basics

  /** Bit `k` of an octet, bit 0 being the most significant one. */
  predicate ByteBit(b: nat, k: nat)
    requires k < 8
  {
    ShiftRight(b, 7 - k) % 2 == 1
  }

  function Octet(b: byte): (s: seq<bool>)
    ensures |s| == 8
  {
    seq(8, k requires 0 <= k < 8 => ByteBit(b, k))
  }

  /** The whole content of a byte string as bits. */
  function BitsOf(bytes: seq<byte>): (s: seq<bool>)
    ensures |s| == 8 * |bytes|
  {
    if bytes == [] then [] else BitsOf(bytes[..|bytes| - 1]) + Octet(bytes[|bytes| - 1])
  }

  lemma {:induction false} BitOfByte(bytes: seq<byte>, i: nat)
    requires i < 8 * |bytes|
    ensures BitsOf(bytes)[i] == ByteBit(bytes[i / 8], i % 8)
  {
    var n := |bytes| - 1;
    if i < 8 * n {
      BitOfByte(bytes[..n], i);
    } else {
      assert i / 8 == n && i % 8 == i - 8 * n;
    }
  }

  lemma {:induction false} BitsOfConcat(a: seq<byte>, b: seq<byte>)
    ensures BitsOf(a + b) == BitsOf(a) + BitsOf(b)
  {
    if b == [] {
      assert a + b == a;
    } else {
      var n := |b| - 1;
      assert (a + b)[..|a + b| - 1] == a + b[..n];
      BitsOfConcat(a, b[..n]);
    }
  }

  /** The low `n` bits of a number, most significant first. */
  function FixedBits(value: nat, n: nat): (s: seq<bool>)
    ensures |s| == n
  {
    seq(n, i requires 0 <= i < n => ShiftRight(value, n - 1 - i) % 2 == 1)
  }

  function Zeros(n: nat): (s: seq<bool>)
    ensures |s| == n
  {
    seq(n, _ => false)
  }

  /** The bit string `s` carries `code` from bit `pos` on. */
  predicate Carries(s: seq<bool>, pos: nat, code: seq<bool>) {
    pos + |code| <= |s| && s[pos..pos + |code|] == code
  }

  lemma CarriesAt(s: seq<bool>, pos: nat, code: seq<bool>, i: nat)
    requires Carries(s, pos, code) && i < |code|
    ensures s[pos + i] == code[i]
  {
    assert s[pos..pos + |code|][i] == s[pos + i];
  }

  lemma CarriesBoth(s: seq<bool>, pos: nat, a: seq<bool>, b: seq<bool>)
    ensures Carries(s, pos, a + b) <==> Carries(s, pos, a) && Carries(s, pos + |a|, b)
  {
    if pos + |a| + |b| <= |s| {
      assert s[pos..pos + |a| + |b|] == s[pos..pos + |a|] + s[pos + |a|..pos + |a| + |b|];
      if s[pos..pos + |a| + |b|] == a + b {
        assert s[pos..pos + |a|] == (a + b)[..|a|] == a;
        assert s[pos + |a|..pos + |a| + |b|] == (a + b)[|a|..] == b;
      }
    }
  }

  function TakeBit(s: seq<bool>, pos: nat): Result<(bool, nat)> {
    if |s| <= pos then Err(SyntaxError) else Ok((s[pos], pos + 1))
  }

  /** Bits i .. n - 1 shifted into `high` one after the other. */
  function Accumulate(s: seq<bool>, i: nat, n: nat, high: nat): nat
    requires i <= n <= |s|
    decreases n - i
  {
    if i == n then high else Accumulate(s, i + 1, n, 2 * high + if s[i] then 1 else 0)
  }

  /** Reads an n-bit number, all or nothing. */
  function TakeFixed(s: seq<bool>, pos: nat, n: nat): Result<(nat, nat)> {
    if |s| < pos + n then Err(SyntaxError) else Ok((Accumulate(s, pos, pos + n, 0), pos + n))
  }

  lemma {:induction false} AccumulateFixed(s: seq<bool>, pos: nat, i: nat, n: nat, value: nat)
    requires i <= n && Carries(s, pos, FixedBits(value, n))
    ensures 0 <= ShiftRight(value, n - i)
    ensures Accumulate(s, pos + i, pos + n, ShiftRight(value, n - i)) == value
    decreases n - i
  {
    if i < n {
      ShiftNext(value, n - 1 - i);
      CarriesAt(s, pos, FixedBits(value, n), i);
      AccumulateFixed(s, pos, i + 1, n, value);
    }
  }

  /** Fixed-width fields read back. */
  lemma FixedReadsBack(s: seq<bool>, pos: nat, value: nat, n: nat)
    requires value < Pow2(n) && Carries(s, pos, FixedBits(value, n))
    ensures TakeFixed(s, pos, n) == Ok((value, pos + n))
  {
    LowBitsSmall(value, n);
    AccumulateFixed(s, pos, 0, n, value);
  }

  /** Adding 2^i to a number whose bits i .. 0 are clear sets bit i and no other. */
  lemma {:induction false} SetBit(b: nat, i: nat, j: nat)
    requires LowBits(b, i + 1) == 0
    ensures ShiftRight(b + Pow2(i), j) % 2 == if j == i then 1 else ShiftRight(b, j) % 2
    decreases i
  {
    assert LowBits(b, i + 1) == 2 * LowBits(b / 2, i) + b % 2;
    if i > 0 {
      assert (b + Pow2(i)) / 2 == b / 2 + Pow2(i - 1);
      if j > 0 {
        SetBit(b / 2, i - 1, j - 1);
      }
    }
  }

  lemma {:induction false} SetBitClears(b: nat, i: nat)
    requires LowBits(b, i + 1) == 0
    ensures LowBits(b, i) == 0 && LowBits(b + Pow2(i), i) == 0
    ensures ShiftRight(b, i) % 2 == 0
    decreases i
  {
    assert LowBits(b, i + 1) == 2 * LowBits(b / 2, i) + b % 2;
    if i > 0 {
      assert (b + Pow2(i)) / 2 == b / 2 + Pow2(i - 1);
      SetBitClears(b / 2, i - 1);
    }
  }

  /** Room is left below the next multiple of 2^(i + 1). */
  lemma {:induction false} SetBitFits(b: nat, i: nat, n: nat)
    requires i < n && b < Pow2(n) && LowBits(b, i + 1) == 0
    ensures b + Pow2(i) < Pow2(n)
    decreases n
  {
    assert Pow2(n) == 2 * Pow2(n - 1);
    assert LowBits(b, i + 1) == 2 * LowBits(b / 2, i) + b % 2;
    assert b % 2 == 0 && b == 2 * (b / 2);
    if i > 0 {
      assert Pow2(i) == 2 * Pow2(i - 1);
      SetBitFits(b / 2, i - 1, n - 1);
    } else {
      assert Pow2(i) == 1;
    }
  }

  function Marked(last: byte, k: nat, bit: bool): nat
    requires k < 8
  {
    last as int + if bit then Pow2(7 - k) else 0
  }

  lemma MarkedBit(last: byte, k: nat, bit: bool, j: nat)
    requires j <= k < 8 && LowBits(last, 8 - k) == 0
    ensures ByteBit(Marked(last, k, bit), j) == if j == k then bit else ByteBit(last, j)
  {
    SetBitClears(last, 7 - k);
    SetBit(last, 7 - k, 7 - j);
  }

  /** One more bit into an octet whose bits k .. 7 are clear. */
  lemma PushIntoOctet(last: byte, k: nat, bit: bool)
    requires k < 8 && LowBits(last, 8 - k) == 0
    ensures Marked(last, k, bit) < 256
    ensures LowBits(Marked(last, k, bit), 7 - k) == 0
    ensures Octet(Marked(last, k, bit))[..k + 1] == Octet(last)[..k] + [bit]
  {
    MarkedFits(last, k, bit);
    OctetMarked(last, Marked(last, k, bit), k, bit);
  }

  lemma MarkedFits(last: byte, k: nat, bit: bool)
    requires k < 8 && LowBits(last, 8 - k) == 0
    ensures Marked(last, k, bit) < 256
    ensures LowBits(Marked(last, k, bit), 7 - k) == 0
  {
    assert Pow2(8) == 256;
    SetBitFits(last, 7 - k, 8);
    SetBitClears(last, 7 - k);
  }

  lemma OctetMarked(last: byte, marked: byte, k: nat, bit: bool)
    requires k < 8 && LowBits(last, 8 - k) == 0
    requires marked == Marked(last, k, bit)
    ensures Octet(marked)[..k + 1] == Octet(last)[..k] + [bit]
  {
    forall j | 0 <= j <= k
      ensures Octet(marked)[j] == (Octet(last)[..k] + [bit])[j]
    {
      MarkedBit(last, k, bit, j);
    }
  }

  /** The bytes are just enough for `n` bits, and the unused bits of the last one are clear. */
  ghost predicate Packed(bytes: seq<byte>, n: nat) {
    && |bytes| == (n + 7) / 8
    && (n % 8 != 0 ==> LowBits(bytes[|bytes| - 1], 8 - n % 8) == 0)
  }

  function Opened(bytes: seq<byte>, n: nat): seq<byte> {
    if n % 8 == 0 then bytes + [0] else bytes
  }

  lemma BitsOfAppend(front: seq<byte>, last: byte)
    ensures BitsOf(front + [last]) == BitsOf(front) + Octet(last)
  {
    assert (front + [last])[..|front|] == front;
  }

  lemma PushLast(front: seq<byte>, last: byte, marked: byte, k: nat, bit: bool)
    requires k < 8
    requires Octet(marked)[..k + 1] == Octet(last)[..k] + [bit]
    ensures 8 * |front| + k + 1 <= |BitsOf(front + [marked])| == |BitsOf(front + [last])|
    ensures BitsOf(front + [marked])[..8 * |front| + k + 1] == BitsOf(front + [last])[..8 * |front| + k] + [bit]
  {
    BitsOfAppend(front, last);
    BitsOfAppend(front, marked);
    var a, b, c := BitsOf(front), Octet(last), Octet(marked);
    assert (a + b)[..|a| + k] == a + b[..k];
    assert (a + c)[..|a| + (k + 1)] == a + c[..k + 1];
  }

  lemma PackedNext(front: seq<byte>, last: byte, n: nat)
    requires |front| == n / 8
    requires LowBits(last, 7 - n % 8) == 0
    ensures Packed(front + [last], n + 1)
  {
  }

  lemma OpenedKeeps(bytes: seq<byte>, n: nat)
    requires |bytes| == (n + 7) / 8
    ensures n <= |BitsOf(bytes)| <= |BitsOf(Opened(bytes, n))|
    ensures BitsOf(Opened(bytes, n))[..n] == BitsOf(bytes)[..n]
  {
    if n % 8 == 0 {
      BitsOfAppend(bytes, 0);
    }
  }

  /** Where the next bit goes: the octets before the open one, and the open one. */
  lemma Open(bytes: seq<byte>, n: nat) returns (front: seq<byte>, last: byte)
    requires Packed(bytes, n)
    ensures Opened(bytes, n) == front + [last]
    ensures |front| == n / 8 && n == 8 * |front| + n % 8
    ensures LowBits(last, 8 - n % 8) == 0
  {
    var open := Opened(bytes, n);
    front, last := open[..|open| - 1], open[|open| - 1];
    if n % 8 == 0 {
      LowBitsSmall(0, 8);
    }
  }

  /** Pushing one bit into the open octet appends it to what was written. */
  lemma PushBit(bytes: seq<byte>, n: nat, bit: bool, front: seq<byte>, last: byte)
    requires Packed(bytes, n)
    requires Opened(bytes, n) == front + [last]
    requires |front| == n / 8 && n == 8 * |front| + n % 8
    requires LowBits(last, 8 - n % 8) == 0
    ensures Marked(last, n % 8, bit) < 256
    ensures Packed(front + [Marked(last, n % 8, bit)], n + 1)
    ensures BitsOf(front + [Marked(last, n % 8, bit)])[..n + 1] == BitsOf(bytes)[..n] + [bit]
  {
    var k := n % 8;
    PushIntoOctet(last, k, bit);
    var marked: byte := Marked(last, k, bit);
    PushLast(front, last, marked, k, bit);
    OpenedKeeps(bytes, n);
    PackedNext(front, marked, n);
  }

  /** How many zero bits complete the last octet. */
  function Padding(n: nat): nat {
    if n % 8 == 0 then 0 else 8 - n % 8
  }

  lemma ReplaceLast(front: seq<byte>, last: byte, v: byte)
    ensures (front + [last])[|front| := v] == front + [v]
  {
  }

  class BitWriter {
    var bytes: seq<byte>
    var bitPosition: nat
    var finalized: bool

    ghost predicate Valid()
      reads this
    {
      Packed(bytes, bitPosition)
    }

    /** What has been written so far. */
    ghost function Contents(): (s: seq<bool>)
      requires Valid()
      reads this
      ensures |s| == bitPosition
    {
      BitsOf(bytes)[..bitPosition]
    }

    constructor ()
      ensures Valid() && Contents() == [] && !finalized
    {
      bytes, bitPosition, finalized := [], 0, false;
    }

    method WriteBit(bit: bool) returns (status: Status)
      requires Valid()
      modifies this`bytes, this`bitPosition
      ensures Valid()
      ensures status.Ok? <==> !finalized
      ensures status.Ok? ==> Contents() == old(Contents()) + [bit]
      ensures status.Err? ==> unchanged(this)
    {
      hide BitsOf, LowBits;
      if finalized {
        return Err(InvalidState);
      }
      var bitInByte := bitPosition % 8;
      ghost var front, last := Open(bytes, bitPosition);
      PushBit(bytes, bitPosition, bit, front, last);
      if bitInByte == 0 {
        bytes := bytes + [0];
      }
      if bit {
        ReplaceLast(front, last, Marked(last, bitInByte, bit));
        bytes := bytes[|bytes| - 1 := bytes[|bytes| - 1] as int + Pow2(7 - bitInByte)];
      }
      bitPosition := bitPosition + 1;
      status := Ok(());
    }

    method WriteBits(value: nat, count: nat) returns (status: Status)
      requires Valid()
      modifies this`bytes, this`bitPosition
      ensures Valid()
      ensures status.Ok? <==> !finalized && count <= 64 && value < Pow2(count)
      ensures status.Ok? ==> Contents() == old(Contents()) + FixedBits(value, count)
      ensures status.Err? ==> unchanged(this)
    {
      if finalized {
        return Err(InvalidState);
      }
      if count > 64 || value >= Pow2(count) {
        return Err(InvalidArgument);
      }
      var i := 0;
      while i < count
        invariant i <= count
        invariant Valid() && !finalized
        invariant Contents() == old(Contents()) + FixedBits(value, count)[..i]
      {
        var shift := count - 1 - i;
        status := WriteBit(ShiftRight(value, shift) % 2 == 1);
        if status.Err? {
          return;
        }
        i := i + 1;
      }
      status := Ok(());
    }

    method ByteAlignZero() returns (status: Status)
      requires Valid()
      modifies this`bytes, this`bitPosition
      ensures Valid()
      ensures status.Ok? <==> !finalized
      ensures status.Ok? ==> bitPosition % 8 == 0 && Contents() == old(Contents()) + Zeros(Padding(old(bitPosition)))
    {
      if finalized {
        return Err(InvalidState);
      }
      var remainder := bitPosition % 8;
      if remainder == 0 {
        return Ok(());
      }
      FixedZero(8 - remainder);
      status := WriteBits(0, 8 - remainder);
    }

    /** Hands out exactly the written bits; only whole bytes may leave. */
    method Finalize() returns (r: Result<seq<byte>>)
      requires Valid()
      modifies this`finalized
      ensures r.Ok? <==> !old(finalized) && bitPosition % 8 == 0
      ensures r.Ok? ==> BitsOf(r.value) == Contents()
      ensures r.Err? ==> unchanged(this)
    {
      if finalized || bitPosition % 8 != 0 {
        return Err(InvalidState);
      }
      finalized := true;
      r := Ok(bytes);
    }
  }

  lemma {:induction false} ShiftZero(n: nat)
    ensures ShiftRight(0, n) == 0
    decreases n
  {
    if n > 0 {
      ShiftZero(n - 1);
    }
  }

  lemma FixedZero(n: nat)
    ensures FixedBits(0, n) == Zeros(n)
  {
    forall i | 0 <= i < n
      ensures !FixedBits(0, n)[i]
    {
      ShiftZero(n - 1 - i);
    }
  }

  class BitReader {
    const data: seq<byte>
    var bitPosition: nat

    ghost predicate Valid()
      reads this
    {
      bitPosition <= 8 * |data|
    }

    /** All the bits, read or not. */
    ghost function Source(): (s: seq<bool>)
      ensures |s| == 8 * |data|
    {
      BitsOf(data)
    }

    constructor (bytes: seq<byte>)
      ensures Valid() && data == bytes && bitPosition == 0
    {
      data := bytes;
      bitPosition := 0;
    }

    method ReadBit() returns (r: Result<bool>)
      requires Valid()
      modifies this`bitPosition
      ensures Valid()
      ensures match TakeBit(Source(), old(bitPosition))
              case Err(error) => r == Err(error) && unchanged(this)
              case Ok((bit, next)) => r == Ok(bit) && bitPosition == next
    {
      if bitPosition >= 8 * |data| {
        return Err(SyntaxError);
      }
      BitOfByte(data, bitPosition);
      var bit := ShiftRight(data[bitPosition / 8], 7 - bitPosition % 8) % 2 == 1;
      bitPosition := bitPosition + 1;
      r := Ok(bit);
    }

    method ReadBits(count: nat) returns (r: Result<nat>)
      requires Valid()
      requires count <= 64
      modifies this`bitPosition
      ensures Valid()
      ensures match TakeFixed(Source(), old(bitPosition), count)
              case Err(error) => r == Err(error) && unchanged(this)
              case Ok((value, next)) => r == Ok(value) && bitPosition == next
    {
      if 8 * |data| - bitPosition < count {
        return Err(SyntaxError);
      }
      ghost var start := bitPosition;
      var value: nat := 0;
      var i := 0;
      while i < count
        invariant i <= count
        invariant Valid() && bitPosition == start + i
        invariant Accumulate(Source(), bitPosition, start + count, value) == Accumulate(Source(), start, start + count, 0)
      {
        var bit := ReadBit();
        if bit.Err? {
          return Err(SyntaxError);
        }
        value := value * 2 + if bit.value then 1 else 0;
        i := i + 1;
      }
      r := Ok(value);
    }

    method ByteAlign()
      requires Valid()
      modifies this`bitPosition
      ensures Valid()
      ensures bitPosition == (old(bitPosition) + 7) / 8 * 8
    {
      var remainder := bitPosition % 8;
      if remainder != 0 {
        bitPosition := bitPosition + 8 - remainder;
      }
    }
  }
}
