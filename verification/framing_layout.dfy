// The bytes around a slice, place by place, and which cyclic code they belong to.

module FramingLayout {
  import opened Basics
  import opened Bits
  import opened Crc
  import opened SymbolLayout
  import opened GolombAging
  import opened SliceFraming

  /** The generator of the code, as bytes: x^32 + x^26 + x^23 + ... + 1. */
  const GENERATOR: seq<byte> := [0x04, 0xc1, 0x1d, 0xb7]

  lemma GeneratorOctets(shift: nat)
    requires shift == 24 || shift == 16 || shift == 8 || shift == 0
    ensures GENERATOR[3 - shift / 8] == NumberOctet(0x04c1_1db7, shift)
  {
    hide ShiftRight, LowBits;
    Pow2Of24();
    assert Pow2(16) == 0x1_0000 && Pow2(0) == 1;
    ShiftIsDivision(0x04c1_1db7, shift);
    LowIsModulo(0x04c1_1db7 / Pow2(shift), 8);
  }

  lemma GeneratorBits()
    ensures BitsOf(GENERATOR) == POLYNOMIAL
  {
    hide ShiftRight, BitsOf, Octet, NumberOctet;
    BitsOfFour(GENERATOR);
    forall i | 0 <= i < 32
      ensures BitsOf(GENERATOR)[i] == POLYNOMIAL[i]
    {
      var shift := 24 - i / 8 * 8;
      GeneratorOctets(shift);
      NumberOctetBits(0x04c1_1db7, shift, i % 8);
      assert BitsOf(GENERATOR)[i] == Octet(GENERATOR[i / 8])[i % 8];
      assert shift + 7 - i % 8 == 31 - i;
    }
  }

  /** The low n bits are the remainder modulo 2^n. */
  lemma LowIsModulo(value: nat, n: nat)
    ensures LowBits(value, n) == value % Pow2(n)
  {
    hide ShiftRight, ShiftLeft, LowBits, Pow2;
    ShiftSplit(value, n);
    ShiftIsProduct(ShiftRight(value, n), n);
    var d, q := Pow2(n), ShiftRight(value, n);
    assert value == d * q + LowBits(value, n);
    DivUnique(value, d, q, LowBits(value, n));
  }

  lemma OctetOfOne()
    ensures Octet(0x01) == [false, false, false, false, false, false, false, true]
  {
    hide ShiftRight;
    forall k | 0 <= k < 8
      ensures ByteBit(0x01, k) == (k == 7)
    {
      OneShifted(7 - k);
    }
  }

  lemma OneShifted(n: nat)
    ensures ShiftRight(1, n) == if n == 0 then 1 else 0
  {
    if n > 0 {
      LowBitsSmall(0, n - 1);
    }
  }

  /** One octet 0x01 is divided once: what is left is the generator. */
  lemma OneLeavesGenerator()
    ensures Feed(ZERO, 0x01) == POLYNOMIAL
  {
    hide Steps, Octet;
    OctetOfOne();
    var r := Xor(ZERO, Top(0x01));
    assert r == Zeros(7) + [true] + Zeros(24);
    assert r[..7] == Zeros(7);
    ShiftOut(r, 7);
    var one := r[7..] + Zeros(7);
    assert one == [true] + Zeros(31);
    StepsAdd(r, 7, 1);
    assert ShiftOne(one) == ZERO;
    assert Step(one) == Xor(ZERO, POLYNOMIAL) == POLYNOMIAL;
    OneStep(one);
  }

  lemma OneStep(r: Word)
    ensures Steps(r, 1) == Step(r)
  {
  }

  /** 01 04 c1 1d b7 is divisible: the code is the one of this generator. */
  lemma GeneratorDivides()
    ensures Remainder(ZERO, [0x01] + GENERATOR) == ZERO
  {
    hide Feed, BigEndian;
    OneLeavesGenerator();
    GeneratorBits();
    OwnBytesVanish(POLYNOMIAL);
    BytesOfBits(POLYNOMIAL, GENERATOR);
    assert ([0x01] + GENERATOR)[1..] == GENERATOR;
  }

  lemma BytesOfBits(r: Word, s: seq<byte>)
    requires |s| == 4 && BitsOf(s) == r
    ensures BigEndian(r) == s
  {
    hide ToOctet, BitsOf;
    var t := BigEndian(r);
    OctetOfBits(r[..8]);
    OctetOfBits(r[8..16]);
    OctetOfBits(r[16..24]);
    OctetOfBits(r[24..]);
    BitsOfFour(t);
    assert BitsOf(t) == r;
    BitsOfInjective(t, s);
  }

  lemma BitsOfFour(s: seq<byte>)
    requires |s| == 4
    ensures BitsOf(s) == Octet(s[0]) + Octet(s[1]) + Octet(s[2]) + Octet(s[3])
  {
    hide Octet;
    assert s[..3] == [s[0], s[1], s[2]];
    BitsOfThree(s[0], s[1], s[2]);
  }

  /** And no other five bytes beginning with 01 are. */
  lemma GeneratorOnly(s: seq<byte>)
    requires |s| == 4
    ensures Remainder(ZERO, [0x01] + s) == ZERO <==> s == GENERATOR
  {
    hide Remainder;
    GeneratorDivides();
    assert [0x01] + GENERATOR + [] == [0x01] + GENERATOR && [0x01] + s + [] == [0x01] + s;
    BurstDetected([0x01], GENERATOR, s, []);
  }

  /** After the payload: its length in three bytes, most significant first; with parity one byte of
      status and four that make the whole slice divisible. */
  lemma FooterStands(ec: bool, errorStatus: byte, payload: seq<byte>)
    requires |payload| <= MAXIMUM_SLICE_SIZE
    ensures var s, n := Footered(ec, errorStatus, payload), |payload|;
            && |s| == n + (if ec then 8 else 3)
            && s[..n] == payload
            && 0x1_0000 * s[n] as int + 0x100 * s[n + 1] as int + s[n + 2] as int == n
            && (ec ==> s[n + 3] == errorStatus && Remainder(ZERO, s) == ZERO)
  {
    hide Remainder, BigEndian, NumberOctet;
    SizeOctets(|payload|);
    if ec {
      FooteredDivides(errorStatus, payload);
    }
  }

  lemma SizeOctets(size: nat)
    requires size <= MAXIMUM_SLICE_SIZE
    ensures NumberOctet(size, 16) == size / 0x1_0000
    ensures NumberOctet(size, 8) == size / 0x100 % 0x100
    ensures NumberOctet(size, 0) == size % 0x100
    ensures 0x1_0000 * (size / 0x1_0000) + 0x100 * (size / 0x100 % 0x100) + size % 0x100 == size
  {
    hide ShiftRight, LowBits;
    Pow2Of24();
    assert Pow2(16) == 0x1_0000 && Pow2(0) == 1;
    ShiftIsDivision(size, 16);
    ShiftIsDivision(size, 8);
    ShiftIsDivision(size, 0);
    LowIsModulo(size / 0x1_0000, 8);
    LowIsModulo(size / 0x100, 8);
    LowIsModulo(size, 8);
  }

  /** The slices of a frame stand one after the other, the first one first. */
  lemma {:induction false} FirstSliceFirst(ec: bool, first: Framed, rest: seq<Framed>)
    ensures Joined(ec, [first] + rest) == Footered(ec, first.errorStatus, first.payload) + Joined(ec, rest)
    decreases |rest|
  {
    hide Footered;
    var begin := Footered(ec, first.errorStatus, first.payload);
    if rest == [] {
      assert [first] + rest == [first] && [first][..0] == [];
      assert Joined(ec, [first]) == [] + begin;
      assert begin + [] == begin;
    } else {
      var n := |rest| - 1;
      var all := [first] + rest;
      assert all[..|rest|] == [first] + rest[..n] && all[|rest|] == rest[n];
      FirstSliceFirst(ec, first, rest[..n]);
      AppendAssoc(begin, Joined(ec, rest[..n]), Footered(ec, rest[n].errorStatus, rest[n].payload));
    }
  }
}
