// Slice footers: appended after each slice, located backward from the end of the frame.

module SliceFraming {
  import opened Basics
  import opened Bits
  import opened Crc

  const MAXIMUM_SLICE_SIZE: nat := 0x00ff_ffff

  function FooterSize(ec: bool): nat {
    if ec then 8 else 3
  }

  /** The octet of a number at the given shift. */
  function NumberOctet(value: nat, shift: nat): byte {
    assert Pow2(8) == 256;
    LowBits(ShiftRight(value, shift), 8)
  }

  function SizeBytes(size: nat): (s: seq<byte>)
    ensures |s| == 3
  {
    [NumberOctet(size, 16), NumberOctet(size, 8), NumberOctet(size, 0)]
  }

  /** The slice with its size and, if errors are signalled, its status and parity. */
  function Footered(ec: bool, errorStatus: byte, payload: seq<byte>): (s: seq<byte>)
    ensures |s| == |payload| + FooterSize(ec)
    ensures s[..|payload|] == payload
  {
    var sized := payload + SizeBytes(|payload|);
    if !ec then sized
    else
      var completed := sized + [errorStatus];
      completed + BigEndian(Remainder(ZERO, completed))
  }

  function Append(ec: bool, errorStatus: byte, payload: seq<byte>): Result<seq<byte>> {
    if !ec && errorStatus != 0 then Err(InvalidArgument)
    else if errorStatus > 2 then Err(InvalidArgument)
    else if MAXIMUM_SLICE_SIZE < |payload| then Err(ResourceExhausted)
    else Ok(Footered(ec, errorStatus, payload))
  }

  method AppendFooter(ec: bool, errorStatus: byte, payload: seq<byte>) returns (r: Result<seq<byte>>)
    ensures r == Append(ec, errorStatus, payload)
  {
    if !ec && errorStatus != 0 {
      return Err(InvalidArgument);
    }
    if errorStatus > 2 {
      return Err(InvalidArgument);
    }
    if |payload| > MAXIMUM_SLICE_SIZE {
      return Err(ResourceExhausted);
    }
    var completed := payload;
    var sliceSize := |completed|;
    completed := completed + [NumberOctet(sliceSize, 16)];
    completed := completed + [NumberOctet(sliceSize, 8)];
    completed := completed + [NumberOctet(sliceSize, 0)];
    assert completed == payload + SizeBytes(|payload|);
    if ec {
      completed := completed + [errorStatus];
      var crc := Crc32(completed);
      completed := completed + BigEndian(crc);
    }
    r := Ok(completed);
  }

  /** Size and status found in a footer. */
  function ReadFooter(ec: bool, footer: seq<byte>): Result<(nat, nat)> {
    var bits := BitsOf(footer);
    var (size, afterSize) :- TakeFixed(bits, 0, 24);
    if !ec then Ok((size, 0))
    else
      var (errorStatus, afterStatus) :- TakeFixed(bits, afterSize, 8);
      if 2 < errorStatus then Err(SyntaxError)
      else
        var _ :- TakeFixed(bits, afterStatus, 32);
        Ok((size, errorStatus))
  }

  /** Where a located slice begins, how long its payload is, and the status it carries. */
  datatype Slice = Slice(offset: nat, size: nat, errorStatus: nat)

  function SliceEnd(ec: bool, s: Slice): (end: nat)
    ensures s.offset + s.size <= end
  {
    s.offset + s.size + FooterSize(ec)
  }

  /** The slice that ends where the frame ends. */
  function Trailing(frame: seq<byte>, ec: bool, verify: bool): (r: Result<Slice>)
    ensures r.Ok? ==> SliceEnd(ec, r.value) == |frame|
  {
    if |frame| < FooterSize(ec) then Err(SyntaxError)
    else
      var available := |frame| - FooterSize(ec);
      var (size, errorStatus) :- ReadFooter(ec, frame[available..]);
      if available < size then Err(SyntaxError)
      else if verify && ec && Remainder(ZERO, frame[available - size..]) != ZERO then Err(CrcMismatch)
      else Ok(Slice(available - size, size, errorStatus))
  }

  /** All slices of a frame, first to last, found from the last one backward. */
  function Located(frame: seq<byte>, ec: bool, verify: bool, limit: nat): Result<seq<Slice>>
    decreases |frame|
  {
    if frame == [] then Ok([])
    else if limit == 0 then Err(SyntaxError)
    else
      var last :- Trailing(frame, ec, verify);
      var before :- Located(frame[..last.offset], ec, verify, limit - 1);
      Ok(before + [last])
  }

  function LocateSlices(frame: seq<byte>, ec: bool, verify: bool, maximumCount: nat): Result<seq<Slice>> {
    if maximumCount == 0 then Err(InvalidArgument)
    else if 0xffff_ffff < maximumCount then Err(ResourceExhausted)
    else Located(frame, ec, verify, maximumCount)
  }

  method ReadFooterBits(ec: bool, footer: seq<byte>) returns (r: Result<(nat, nat)>)
    ensures r == ReadFooter(ec, footer)
  {
    hide BitsOf, Accumulate;
    var reader := new BitReader(footer);
    var size := reader.ReadBits(24);
    if size.Err? {
      return Err(size.error);
    }
    if !ec {
      return Ok((size.value, 0));
    }
    var errorStatus := reader.ReadBits(8);
    if errorStatus.Err? {
      return Err(errorStatus.error);
    }
    if errorStatus.value > 2 {
      return Err(SyntaxError);
    }
    var crc := reader.ReadBits(32);
    if crc.Err? {
      return Err(crc.error);
    }
    r := Ok((size.value, errorStatus.value));
  }

  method LocateTrailing(frame: seq<byte>, ec: bool, verify: bool) returns (r: Result<Slice>)
    ensures r == Trailing(frame, ec, verify)
  {
    hide ReadFooter, Remainder;
    if |frame| < FooterSize(ec) {
      return Err(SyntaxError);
    }
    var available := |frame| - FooterSize(ec);
    var footer := ReadFooterBits(ec, frame[available..]);
    if footer.Err? {
      return Err(footer.error);
    }
    var (size, errorStatus) := footer.value;
    if size > available {
      return Err(SyntaxError);
    }
    if verify && ec {
      var crc := Crc32(frame[available - size..]);
      if crc != ZERO {
        return Err(CrcMismatch);
      }
    }
    r := Ok(Slice(available - size, size, errorStatus));
  }

  /** Results for the whole frame from those for its first part. */
  function Followed(before: Result<seq<Slice>>, after: seq<Slice>): Result<seq<Slice>> {
    match before
    case Err(error) => Err(error)
    case Ok(slices) => Ok(slices + after)
  }

  function Reversed(s: seq<Slice>): (r: seq<Slice>)
    ensures |r| == |s| && forall i :: 0 <= i < |s| ==> r[i] == s[|s| - 1 - i]
  {
    if s == [] then [] else Reversed(s[1..]) + [s[0]]
  }

  lemma ReversedPush(s: seq<Slice>, x: Slice)
    ensures Reversed(s + [x]) == [x] + Reversed(s)
  {
    var a, b := Reversed(s + [x]), [x] + Reversed(s);
    forall i | 0 <= i < |a|
      ensures a[i] == b[i]
    {
    }
    assert a == b;
  }

  /** The backward walk: each footer shrinks what remains. */
  method LocateAll(frame: seq<byte>, ec: bool, verify: bool, maximumCount: nat) returns (r: Result<seq<Slice>>)
    ensures r == LocateSlices(frame, ec, verify, maximumCount)
  {
    hide Trailing;
    if maximumCount == 0 {
      return Err(InvalidArgument);
    }
    if maximumCount > 0xffff_ffff {
      return Err(ResourceExhausted);
    }
    var located: seq<Slice> := [];
    var remaining: nat := |frame|;
    ghost var goal := Located(frame, ec, verify, maximumCount);
    assert frame[..remaining] == frame;
    Unchanged(goal);
    while remaining != 0
      invariant remaining <= |frame| && |located| <= maximumCount
      invariant Followed(Located(frame[..remaining], ec, verify, maximumCount - |located|), Reversed(located)) == goal
      decreases remaining
    {
      if |located| == maximumCount {
        return Err(SyntaxError);
      }
      var last := LocateTrailing(frame[..remaining], ec, verify);
      if last.Err? {
        return Err(last.error);
      }
      assert frame[..remaining][..last.value.offset] == frame[..last.value.offset];
      FollowedTwice(Located(frame[..last.value.offset], ec, verify, maximumCount - |located| - 1), [last.value], Reversed(located));
      ReversedPush(located, last.value);
      located := located + [last.value];
      remaining := last.value.offset;
    }
    assert frame[..0] == [] && [] + Reversed(located) == Reversed(located);
    var slices := ReverseInPlace(located);
    r := Ok(slices);
  }

  lemma Unchanged(r: Result<seq<Slice>>)
    ensures Followed(r, Reversed([])) == r
  {
    if r.Ok? {
      assert r.value + [] == r.value;
    }
  }

  lemma FollowedTwice(before: Result<seq<Slice>>, a: seq<Slice>, b: seq<Slice>)
    ensures Followed(Followed(before, a), b) == Followed(before, a + b)
  {
    if before.Ok? {
      AppendAssoc(before.value, a, b);
    }
  }

  method ReverseInPlace(s: seq<Slice>) returns (r: seq<Slice>)
    ensures r == Reversed(s)
  {
    r := s;
    var n := |s|;
    for i := 0 to n / 2
      invariant |r| == n
      invariant forall k :: 0 <= k < i ==> r[k] == s[n - 1 - k]
      invariant forall k :: n - i <= k < n ==> r[k] == s[n - 1 - k]
      invariant forall k :: i <= k < n - i ==> r[k] == s[k]
    {
      var first, last := r[i], r[n - 1 - i];
      r := r[i := last];
      r := r[n - 1 - i := first];
    }
    assert r == Reversed(s);
  }

  lemma {:induction false} ShiftRightTwice(value: nat, m: nat, n: nat)
    ensures ShiftRight(ShiftRight(value, m), n) == ShiftRight(value, m + n)
    decreases m
  {
    if m > 0 {
      ShiftRightTwice(value / 2, m - 1, n);
    }
  }

  lemma {:induction false} BitOfLowBits(value: nat, n: nat, k: nat)
    requires k < n
    ensures ShiftRight(LowBits(value, n), k) % 2 == ShiftRight(value, k) % 2
    decreases k
  {
    assert LowBits(value, n) == 2 * LowBits(value / 2, n - 1) + value % 2;
    if k > 0 {
      BitOfLowBits(value / 2, n - 1, k - 1);
    }
  }

  /** The octet of a number carries eight of its bits. */
  lemma NumberOctetBits(value: nat, shift: nat, k: nat)
    requires k < 8
    ensures Octet(NumberOctet(value, shift))[k] == (ShiftRight(value, shift + 7 - k) % 2 == 1)
  {
    hide LowBits, ShiftRight;
    BitOfLowBits(ShiftRight(value, shift), 8, 7 - k);
    ShiftRightTwice(value, shift, 7 - k);
  }

  lemma SizeBits(size: nat)
    ensures BitsOf(SizeBytes(size)) == FixedBits(size, 24)
  {
    hide NumberOctet;
    var s := SizeBytes(size);
    BitsOfThree(s[0], s[1], s[2]);
    forall i | 0 <= i < 24
      ensures BitsOf(s)[i] == FixedBits(size, 24)[i]
    {
      NumberOctetBits(size, 16 - i / 8 * 8, i % 8);
    }
  }

  lemma BitsOfThree(a: byte, b: byte, c: byte)
    ensures BitsOf([a, b, c]) == Octet(a) + Octet(b) + Octet(c)
  {
    hide Octet;
    assert [a, b, c][..2] == [a, b] && [a, b][..1] == [a] && [a][..0] == [];
    assert BitsOf([a, b, c]) == BitsOf([a, b]) + Octet(c);
    assert BitsOf([a, b]) == BitsOf([a]) + Octet(b);
    assert BitsOf([a]) == [] + Octet(a);
  }

  /** A footer read back gives the size and the status that were appended. */
  lemma FooterReadsBack(ec: bool, errorStatus: byte, payload: seq<byte>)
    requires Append(ec, errorStatus, payload).Ok?
    ensures ReadFooter(ec, Footered(ec, errorStatus, payload)[|payload|..]) == Ok((|payload|, if ec then errorStatus else 0))
  {
    hide BitsOf, Accumulate, FixedBits, BigEndian, Remainder, SizeBytes;
    var size := SizeBytes(|payload|);
    var footer := Footered(ec, errorStatus, payload)[|payload|..];
    SizeBits(|payload|);
    Pow2Of24();
    assert footer[..3] == size;
    assert footer == size + footer[3..];
    BitsOfConcat(size, footer[3..]);
    assert BitsOf(footer) == FixedBits(|payload|, 24) + BitsOf(footer[3..]);
    assert Carries(BitsOf(footer), 0, FixedBits(|payload|, 24));
    FixedReadsBack(BitsOf(footer), 0, |payload|, 24);
    if ec {
      assert footer[3..] == [errorStatus] + footer[4..];
      BitsOfConcat([errorStatus], footer[4..]);
      SingleOctet(errorStatus);
      CarriesBoth(BitsOf(footer), 0, FixedBits(|payload|, 24), FixedBits(errorStatus, 8));
      assert BitsOf(footer) == FixedBits(|payload|, 24) + FixedBits(errorStatus, 8) + BitsOf(footer[4..]);
      assert Carries(BitsOf(footer), 0, FixedBits(|payload|, 24) + FixedBits(errorStatus, 8));
      FixedReadsBack(BitsOf(footer), 24, errorStatus, 8);
    }
  }

  lemma Pow2Of24()
    ensures Pow2(24) == 0x100_0000 && Pow2(8) == 256
  {
    assert Pow2(8) == 256;
    assert Pow2(16) == 0x1_0000;
  }

  lemma SingleOctet(b: byte)
    ensures BitsOf([b]) == FixedBits(b, 8)
  {
    assert [b][..0] == [];
    assert BitsOf([b]) == BitsOf([]) + Octet(b);
    assert Octet(b) == FixedBits(b, 8);
  }

  lemma SuffixOf(front: seq<byte>, slice: seq<byte>, k: nat)
    requires k <= |slice|
    ensures (front + slice)[|front| + k..] == slice[k..]
  {
  }

  lemma FooteredDivides(errorStatus: byte, payload: seq<byte>)
    ensures Remainder(ZERO, Footered(true, errorStatus, payload)) == ZERO
  {
    hide Remainder, BigEndian, SizeBytes;
    ParityVanishes(payload + SizeBytes(|payload|) + [errorStatus]);
  }

  /** The last slice is found whatever stands before it. */
  lemma TrailingFound(front: seq<byte>, ec: bool, errorStatus: byte, payload: seq<byte>, verify: bool)
    requires Append(ec, errorStatus, payload).Ok?
    ensures Trailing(front + Footered(ec, errorStatus, payload), ec, verify)
         == Ok(Slice(|front|, |payload|, if ec then errorStatus else 0))
  {
    hide ReadFooter, Remainder, Footered;
    var slice := Footered(ec, errorStatus, payload);
    FooteredLength(ec, errorStatus, payload);
    FooterReadsBack(ec, errorStatus, payload);
    SuffixOf(front, slice, |payload|);
    SuffixOf(front, slice, 0);
    assert slice[0..] == slice;
    if ec {
      FooteredDivides(errorStatus, payload);
    }
  }

  /** What the encoder hands to framing. */
  datatype Framed = Framed(payload: seq<byte>, errorStatus: byte)

  ghost predicate AllAppendable(ec: bool, slices: seq<Framed>) {
    forall i :: 0 <= i < |slices| ==> Append(ec, slices[i].errorStatus, slices[i].payload).Ok?
  }

  function Joined(ec: bool, slices: seq<Framed>): seq<byte> {
    if slices == [] then []
    else
      var last := slices[|slices| - 1];
      Joined(ec, slices[..|slices| - 1]) + Footered(ec, last.errorStatus, last.payload)
  }

  function Expected(ec: bool, slices: seq<Framed>): (r: seq<Slice>)
    ensures |r| == |slices|
  {
    if slices == [] then []
    else
      var last := slices[|slices| - 1];
      var front := slices[..|slices| - 1];
      Expected(ec, front) + [Slice(|Joined(ec, front)|, |last.payload|, if ec then last.errorStatus else 0)]
  }

  /** Backward location inverts forward framing: the same slices, in order. */
  lemma {:induction false} LocatedBack(ec: bool, slices: seq<Framed>, verify: bool, limit: nat)
    requires AllAppendable(ec, slices) && |slices| <= limit
    ensures Located(Joined(ec, slices), ec, verify, limit) == Ok(Expected(ec, slices))
    decreases |slices|
  {
    hide Footered, Trailing;
    if slices != [] {
      var front := slices[..|slices| - 1];
      var last := slices[|slices| - 1];
      var slice := Footered(ec, last.errorStatus, last.payload);
      TrailingFound(Joined(ec, front), ec, last.errorStatus, last.payload, verify);
      assert (Joined(ec, front) + slice)[..|Joined(ec, front)|] == Joined(ec, front);
      FooteredLength(ec, last.errorStatus, last.payload);
      LocatedBack(ec, front, verify, limit - 1);
    }
  }

  lemma FooteredLength(ec: bool, errorStatus: byte, payload: seq<byte>)
    ensures |Footered(ec, errorStatus, payload)| == |payload| + FooterSize(ec)
  {
  }

  lemma SliceOfFront(front: seq<byte>, tail: seq<byte>, from: nat, to: nat)
    requires from <= to <= |front|
    ensures (front + tail)[from..to] == front[from..to]
  {
  }

  /** The bytes of the i-th located slice are the payload it was framed with, and its footer. */
  lemma {:induction false} ExpectedBytes(ec: bool, slices: seq<Framed>, i: nat)
    requires i < |slices|
    ensures var s := Expected(ec, slices)[i];
            && SliceEnd(ec, s) <= |Joined(ec, slices)|
            && Joined(ec, slices)[s.offset..SliceEnd(ec, s)] == Footered(ec, slices[i].errorStatus, slices[i].payload)
    decreases |slices|
  {
    hide Footered;
    var front := slices[..|slices| - 1];
    var last := slices[|slices| - 1];
    var tail := Footered(ec, last.errorStatus, last.payload);
    FooteredLength(ec, last.errorStatus, last.payload);
    if i < |front| {
      ExpectedBytes(ec, front, i);
      var s := Expected(ec, front)[i];
      assert Expected(ec, slices)[i] == s;
      SliceOfFront(Joined(ec, front), tail, s.offset, SliceEnd(ec, s));
    } else {
      assert (Joined(ec, front) + tail)[|Joined(ec, front)|..] == tail;
    }
  }

  lemma {:induction false} ExpectedSize(ec: bool, slices: seq<Framed>, i: nat)
    requires i < |slices|
    ensures Expected(ec, slices)[i].size == |slices[i].payload|
    decreases |slices|
  {
    if i < |slices| - 1 {
      ExpectedSize(ec, slices[..|slices| - 1], i);
    }
  }

  /** The payload of the i-th located slice. */
  lemma ExpectedPayload(ec: bool, slices: seq<Framed>, i: nat)
    requires i < |slices|
    ensures var s := Expected(ec, slices)[i];
            SliceEnd(ec, s) <= |Joined(ec, slices)| && Joined(ec, slices)[s.offset..s.offset + s.size] == slices[i].payload
  {
    hide Footered, Joined, Expected;
    ExpectedBytes(ec, slices, i);
    ExpectedSize(ec, slices, i);
    var s := Expected(ec, slices)[i];
    FooteredFront(ec, slices[i].errorStatus, slices[i].payload);
    assert Joined(ec, slices)[s.offset..SliceEnd(ec, s)][..s.size] == Joined(ec, slices)[s.offset..s.offset + s.size];
  }

  lemma FooteredFront(ec: bool, errorStatus: byte, payload: seq<byte>)
    ensures |payload| <= |Footered(ec, errorStatus, payload)| && Footered(ec, errorStatus, payload)[..|payload|] == payload
  {
  }

  /** The slices lie end to end, from `start` to `end`. */
  predicate Tile(ec: bool, slices: seq<Slice>, end: nat)
    decreases |slices|
  {
    if slices == [] then end == 0
    else
      var last := slices[|slices| - 1];
      SliceEnd(ec, last) == end && Tile(ec, slices[..|slices| - 1], last.offset)
  }

  /** A slice inside the frame, with a known status and, where checked, a divisible whole. */
  predicate Checked(frame: seq<byte>, ec: bool, verify: bool, s: Slice) {
    && SliceEnd(ec, s) <= |frame|
    && s.errorStatus <= 2
    && (verify && ec ==> Remainder(ZERO, frame[s.offset..SliceEnd(ec, s)]) == ZERO)
  }

  lemma TrailingChecked(frame: seq<byte>, ec: bool, verify: bool)
    requires Trailing(frame, ec, verify).Ok?
    ensures Checked(frame, ec, verify, Trailing(frame, ec, verify).value)
  {
    hide BitsOf, Accumulate, Remainder;
    var s := Trailing(frame, ec, verify).value;
    assert frame[s.offset..SliceEnd(ec, s)] == frame[s.offset..];
  }

  lemma CheckedLonger(frame: seq<byte>, n: nat, ec: bool, verify: bool, s: Slice)
    requires n <= |frame| && Checked(frame[..n], ec, verify, s)
    ensures Checked(frame, ec, verify, s)
  {
    hide Remainder;
    assert frame[..n][s.offset..SliceEnd(ec, s)] == frame[s.offset..SliceEnd(ec, s)];
  }

  /** Whatever bytes are located successfully, the slices tile the frame without gaps, there are
      no more of them than allowed, and every checked slice is divisible. */
  lemma {:induction false} LocatedTile(frame: seq<byte>, ec: bool, verify: bool, limit: nat)
    requires Located(frame, ec, verify, limit).Ok?
    ensures var slices := Located(frame, ec, verify, limit).value;
            && Tile(ec, slices, |frame|) && |slices| <= limit
            && forall i :: 0 <= i < |slices| ==> Checked(frame, ec, verify, slices[i])
    decreases |frame|
  {
    hide Trailing, Checked;
    if frame != [] {
      var last := Trailing(frame, ec, verify).value;
      TrailingChecked(frame, ec, verify);
      LocatedTile(frame[..last.offset], ec, verify, limit - 1);
      var before := Located(frame[..last.offset], ec, verify, limit - 1).value;
      assert (before + [last])[..|before|] == before;
      forall i | 0 <= i < |before|
        ensures Checked(frame, ec, verify, before[i])
      {
        CheckedLonger(frame, last.offset, ec, verify, before[i]);
      }
    }
  }

  /** The footer of one slice on its own, as the slice decoder reads it. */
  function ReadFromEnd(slice: seq<byte>, ec: bool, verify: bool): Result<Slice> {
    if |slice| < FooterSize(ec) then Err(SyntaxError)
    else
      var (size, errorStatus) :- ReadFooter(ec, slice[|slice| - FooterSize(ec)..]);
      if size + FooterSize(ec) != |slice| then Err(SyntaxError)
      else if verify && ec && Remainder(ZERO, slice) != ZERO then Err(CrcMismatch)
      else Ok(Slice(0, size, errorStatus))
  }

  /** No change of at most four consecutive bytes of a slice with parity goes unnoticed,
      wherever it is: in the content, the size, the status or the parity. */
  lemma SliceBurstDetected(before: seq<byte>, burst: seq<byte>, other: seq<byte>, after: seq<byte>)
    requires |burst| == |other| <= 4 && burst != other
    requires ReadFromEnd(before + burst + after, true, true).Ok?
    ensures ReadFromEnd(before + other + after, true, true).Err?
  {
    hide ReadFooter, Remainder;
    BurstDetected(before, burst, other, after);
  }
}
