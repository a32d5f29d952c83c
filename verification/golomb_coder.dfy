// The loops that write and read Golomb-Rice symbols on the bit writer and reader.

module GolombCoding {
  import opened Basics
  import opened Bits
  import opened GolombRice

  method DeriveParameter(c: ContextState) returns (r: Result<nat>)
    ensures r == match DeriveK(c) case Some(k) => Ok(k) case None => Err(InvalidState)
    ensures r.Ok? ==> r.value <= 31
  {
    var threshold := c.count;
    var k: nat := 0;
    while threshold < c.errorSum
      invariant k <= 31
      invariant SearchK(threshold, c.errorSum, k) == DeriveK(c)
      decreases 31 - k
    {
      if k == 31 {
        return Err(InvalidState);
      }
      k := k + 1;
      threshold := threshold * 2;
    }
    r := Ok(k);
  }

  method WriteZeros(writer: BitWriter, n: nat)
    requires writer.Valid() && !writer.finalized
    modifies writer`bytes, writer`bitPosition
    ensures writer.Valid()
    ensures writer.Contents() == old(writer.Contents()) + Zeros(n)
  {
    for i := 0 to n
      invariant writer.Valid() && !writer.finalized
      invariant writer.Contents() == old(writer.Contents()) + Zeros(i)
    {
      var _ := writer.WriteBit(false);
      assert Zeros(i) + [false] == Zeros(i + 1);
    }
  }

  method WriteRegular(writer: BitWriter, k: nat, folded: nat)
    requires writer.Valid() && !writer.finalized && k <= 31
    requires folded < ShiftLeft(12, k)
    modifies writer`bytes, writer`bitPosition
    ensures writer.Valid()
    ensures writer.Contents() == old(writer.Contents()) + (Zeros(ShiftRight(folded, k)) + ([true] + FixedBits(LowBits(folded, k), k)))
  {
    hide Zeros, FixedBits, LowBits, Packed, BitsOf;
    WriteZeros(writer, ShiftRight(folded, k));
    var _ := writer.WriteBit(true);
    var _ := writer.WriteBits(LowBits(folded, k), k);
    ghost var start := old(writer.Contents());
    AppendAssoc(start + Zeros(ShiftRight(folded, k)), [true], FixedBits(LowBits(folded, k), k));
    AppendAssoc(start, Zeros(ShiftRight(folded, k)), [true] + FixedBits(LowBits(folded, k), k));
  }

  /** Writes the code of a folded number, or nothing at all. */
  method WriteUnsigned(writer: BitWriter, k: nat, w: nat, folded: nat) returns (status: Status)
    requires writer.Valid() && !writer.finalized && k <= 31 && 0 < w <= 31
    modifies writer`bytes, writer`bitPosition
    ensures writer.Valid()
    ensures match Code(k, w, folded)
            case Err(error) => status == Err(error) && unchanged(writer)
            case Ok(bits) => status == Ok(()) && writer.Contents() == old(writer.Contents()) + bits
  {
    hide Zeros, FixedBits, LowBits, Packed, BitsOf, ShiftLeft, ShiftRight;
    if folded <= ShiftLeft(12, k) - 1 {
      WriteRegular(writer, k, folded);
      return Ok(());
    }
    if ShiftLeft(12, k) < 12 {
      ShiftLeftMonotone(0, 12, k);
    }
    var escaped := folded - 11;
    if escaped > Pow2(w) - 1 {
      return Err(InvalidArgument);
    }
    WriteZeros(writer, 12);
    var _ := writer.WriteBits(escaped, w);
    AppendAssoc(old(writer.Contents()), Zeros(12), FixedBits(escaped, w));
    status := Ok(());
  }

  /** Writes one symbol and adapts its context; a rejected symbol changes nothing. */
  method WriteSymbol(writer: BitWriter, c: ContextState, w: nat, value: int) returns (status: Status, next: ContextState)
    requires writer.Valid() && !writer.finalized
    modifies writer`bytes, writer`bitPosition
    ensures writer.Valid()
    ensures match Symbol(c, w, value)
            case Err(error) => status == Err(error) && next == c && unchanged(writer)
            case Ok((bits, c')) =>
              status == Ok(()) && next == c' && writer.Contents() == old(writer.Contents()) + bits
  {
    hide SearchK, LowBits, Code, Packed, BitsOf, Update;
    if !Acceptable(c) {
      return Err(InvalidState), c;
    }
    if w == 0 || w > 31 {
      return Err(InvalidArgument), c;
    }
    var k := DeriveParameter(c);
    if k.Err? {
      return Err(k.error), c;
    }
    var adaptive := SignExtend(value - c.bias, w);
    status := WriteUnsigned(writer, k.value, w, Fold(if Flips(c) then -1 - adaptive else adaptive));
    next := if status.Ok? then Update(c, adaptive) else c;
  }

  method WriteInterruption(writer: BitWriter, c: ContextState, w: nat, value: int) returns (status: Status, next: ContextState)
    requires writer.Valid() && !writer.finalized
    modifies writer`bytes, writer`bitPosition
    ensures writer.Valid()
    ensures match Interruption(c, w, value)
            case Err(error) => status == Err(error) && next == c && unchanged(writer)
            case Ok((bits, c')) =>
              status == Ok(()) && next == c' && writer.Contents() == old(writer.Contents()) + bits
  {
    hide Symbol, Packed, BitsOf;
    if value == 0 {
      return Err(InvalidArgument), c;
    }
    status, next := WriteSymbol(writer, c, w, if value > 0 then value - 1 else value);
  }

  method ReadSuffix(reader: BitReader, prefix: nat, k: nat) returns (r: Result<nat>)
    requires reader.Valid() && k <= 31
    modifies reader`bitPosition
    ensures reader.Valid()
    ensures match TakeFixed(reader.Source(), old(reader.bitPosition), k)
            case Err(error) => r == Err(error)
            case Ok((suffix, next)) => r == Ok(ShiftLeft(prefix, k) + suffix) && reader.bitPosition == next
  {
    hide BitsOf, Accumulate;
    var suffix := reader.ReadBits(k);
    if suffix.Err? {
      return Err(suffix.error);
    }
    r := Ok(ShiftLeft(prefix, k) + suffix.value);
  }

  /** Up to twelve prefix bits, then the suffix or the escape field. */
  method ReadUnsigned(reader: BitReader, k: nat, w: nat) returns (r: Result<nat>)
    requires reader.Valid() && k <= 31 && w <= 31
    modifies reader`bitPosition
    ensures reader.Valid()
    ensures match TakeCode(reader.Source(), old(reader.bitPosition), k, w, 0)
            case Err(error) => r == Err(error)
            case Ok((folded, next)) => r == Ok(folded) && reader.bitPosition == next
  {
    hide BitsOf, Accumulate;
    ghost var goal := TakeCode(reader.Source(), reader.bitPosition, k, w, 0);
    var prefix: nat := 0;
    while prefix < 12
      invariant prefix <= 12
      invariant reader.Valid()
      invariant TakeCode(reader.Source(), reader.bitPosition, k, w, prefix) == goal
    {
      var bit := reader.ReadBit();
      if bit.Err? {
        return Err(bit.error);
      }
      if bit.value {
        r := ReadSuffix(reader, prefix, k);
        return;
      }
      prefix := prefix + 1;
    }
    var escaped := reader.ReadBits(w);
    if escaped.Err? {
      return Err(escaped.error);
    }
    r := Ok(escaped.value + 11);
  }

  method ReadSigned(reader: BitReader, k: nat, w: nat) returns (r: Result<int>)
    requires reader.Valid() && k <= 31 && w <= 31
    modifies reader`bitPosition
    ensures reader.Valid()
    ensures match TakeCode(reader.Source(), old(reader.bitPosition), k, w, 0)
            case Err(error) => r == Err(error)
            case Ok((folded, next)) =>
              if INT32_MIN <= Unfold(folded) <= INT32_MAX then r == Ok(Unfold(folded)) && reader.bitPosition == next
              else r == Err(SyntaxError)
  {
    hide TakeCode, BitsOf;
    var folded := ReadUnsigned(reader, k, w);
    if folded.Err? {
      return Err(folded.error);
    }
    var value := Unfold(folded.value);
    if value < INT32_MIN || INT32_MAX < value {
      return Err(SyntaxError);
    }
    r := Ok(value);
  }

  method ReadSymbol(reader: BitReader, c: ContextState, w: nat) returns (r: Result<int>, next: ContextState)
    requires reader.Valid()
    modifies reader`bitPosition
    ensures reader.Valid()
    ensures match TakeSymbol(reader.Source(), old(reader.bitPosition), c, w)
            case Err(error) => r == Err(error) && next == c
            case Ok((value, pos, c')) => r == Ok(value) && next == c' && reader.bitPosition == pos
  {
    hide SearchK, LowBits, TakeCode, BitsOf, Update;
    if !Acceptable(c) {
      return Err(InvalidState), c;
    }
    if w == 0 || w > 31 {
      return Err(InvalidArgument), c;
    }
    var k := DeriveParameter(c);
    if k.Err? {
      return Err(k.error), c;
    }
    var coded := ReadSigned(reader, k.value, w);
    if coded.Err? {
      return Err(coded.error), c;
    }
    var value := if Flips(c) then -1 - coded.value else coded.value;
    r, next := Ok(SignExtend(value + c.bias, w)), Update(c, value);
  }

  method ReadInterruption(reader: BitReader, c: ContextState, w: nat) returns (r: Result<int>, next: ContextState)
    requires reader.Valid()
    modifies reader`bitPosition
    ensures reader.Valid()
    ensures match TakeInterruption(reader.Source(), old(reader.bitPosition), c, w)
            case Err(error) => r == Err(error) && next == c
            case Ok((value, pos, c')) => r == Ok(value) && next == c' && reader.bitPosition == pos
  {
    hide TakeSymbol, BitsOf;
    r, next := ReadSymbol(reader, c, w);
    if r.Ok? && r.value >= 0 {
      r := Ok(r.value + 1);
    }
  }
}
