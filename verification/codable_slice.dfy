// Which slices can always be coded in range mode: under the default transition table, all of
// them, frame after frame.  The bytes the closing picks always exist.

module CodableSlice {
  import opened Basics
  import opened GolombContent
  import opened RangeInterval
  import opened RangeSymbols
  import opened RangeContexts
  import opened RangeScript
  import opened RangeNumbers
  import opened StateTransition
  import opened SteadyCoding
  import opened SampleModel
  import opened RangeSlice
  import opened CodableContent
  import opened StreamModel
  import opened SliceSchedule
  import opened SliceHeader
  import opened SliceLayouts
  import opened RangeSliceCodec

  /** The n-byte big-endian representation. */
  function Octets(value: nat, n: nat): (bytes: seq<byte>)
    ensures |bytes| == n
  {
    if n == 0 then [] else Octets(value / 256, n - 1) + [value % 256]
  }

  lemma {:induction false} OctetsPrefix(value: nat, n: nat)
    requires value < Scale(1, n)
    ensures Prefix(Octets(value, n), n) == value
  {
    if n > 0 {
      OctetsPrefix(value / 256, n - 1);
      var front := Octets(value / 256, n - 1);
      assert (front + [value % 256])[..n - 1] == front[..n - 1];
      PrefixAgrees(front + [value % 256], front, n - 1);
    }
  }

  lemma {:induction false} ScaleFull(n: nat)
    ensures Scale(FULL_RANGE, n) < Scale(1, n + 2)
  {
    if n > 0 {
      ScaleFull(n - 1);
    }
  }

  /** An interval is wide enough to hold a number that ends in a zero byte, and that byte need not
      be sent. */
  lemma ClosedExists(iv: Interval) returns (bytes: seq<byte>)
    requires Sound(iv)
    ensures Admits(bytes, iv) && |bytes| == Max(2, iv.count - 1)
  {
    hide Octets, Scale;
    var n := iv.count;
    var q := (iv.low + 255) / 256;
    ScaleFull(n - 2);
    assert Scale(1, n) == 256 * Scale(1, n - 1) by {
      assert n != 0;
      ScaleStep(n);
    }
    if n == 2 {
      bytes := Octets(256 * q, 2);
      OctetsPrefix(256 * q, 2);
    } else {
      bytes := Octets(q, n - 1);
      OctetsPrefix(q, n - 1);
      assert Prefix(bytes, n) == Prefix(bytes, n - 1) * 256;
    }
  }

  /** And the lower bound has as many bytes as its count says. */
  lemma PlainExists(iv: Interval) returns (bytes: seq<byte>)
    requires Sound(iv)
    ensures |bytes| == iv.count && Prefix(bytes, |bytes|) == iv.low
  {
    ScaleFull(iv.count - 2);
    bytes := Octets(iv.low, iv.count);
    OctetsPrefix(iv.low, iv.count);
  }

  lemma ScaleStep(n: nat)
    requires 0 < n
    ensures Scale(1, n) == 256 * Scale(1, n - 1)
  {
  }

  /** A stream of the encoder's own kind: the default transition table, no initial states of its
      own, and tables that know every neighbourhood. */
  ghost predicate IsPlain(s: StreamParameters) {
    && IsSupported(s)
    && s.stateTransition == DefaultTransition() && s.initialStates == []
    && forall t <- s.quantTableSets :: Covers(t) && 1 <= t.contextCount <= MAX_SCALAR_CONTEXTS
  }

  /** What a slice of the stream may hold: samples in every plane, each within its range. */
  predicate IsSliceImage(s: StreamParameters, v: HeaderValues, image: Planes)
    requires IsSupported(s) && IsPlaced(s, v)
  {
    SliceLayout(s, v).Ok? && (SliceLayoutFits(s, v); IsImage(SliceLayout(s, v).value, image))
  }

  ghost predicate SteadyBanks(banks: seq<seq<ScalarStates>>) {
    forall b :: 0 <= b < |banks| ==> forall i :: 0 <= i < |banks[b]| ==> SteadyStates(banks[b][i])
  }

  lemma {:induction false} NumbersInside(values: seq<nat>, sizes: seq<nat>)
    requires 0 < |sizes| && 0 < sizes[0] && forall n <- values :: n <= INT64_MAX
    ensures AllInside(Numbers(values), sizes)
  {
    if values != [] {
      assert values[0] in values && forall n <- values[1..] :: n in values;
      NumbersInside(values[1..], sizes);
      AllInsideConcat([Number(values[0])], Numbers(values[1..]), sizes);
    }
  }

  lemma HeaderNumbersTyped(v: HeaderValues)
    requires IsTyped(v) && 0 < v.width && 0 < v.height
    requires v.pictureStructure <= INT64_MAX && v.sarNum <= INT64_MAX && v.sarDen <= INT64_MAX
    ensures forall n <- HeaderNumbers(v) :: n <= INT64_MAX
  {
  }

  /** The typed headers a writer does not refuse: half an aspect ratio is none. */
  predicate IsWritable(v: HeaderValues) {
    && IsTyped(v) && v.sarNum <= INT64_MAX && v.sarDen <= INT64_MAX && (v.sarNum == 0 <==> v.sarDen == 0)
  }

  lemma HeaderScripted(s: StreamParameters, v: HeaderValues)
    requires IsPlaced(s, v) && IsWritable(v)
    ensures HeaderScript(s, v).Ok? && AllInside(HeaderScript(s, v).value, [1])
  {
    hide Numbers;
    HeaderNumbersTyped(v);
    NumbersInside(HeaderNumbers(v), [1]);
  }

  lemma StartSteady(s: StreamParameters)
    requires s.stateTransition == DefaultTransition()
    ensures SteadyEncoder(SliceStart(s)) && SliceStart(s).contexts.sizes == [1]
  {
    hide DefaultTransition;
    OneBankBuilds(1);
    BuildSteady([1], []);
    SliceStartSound(s);
  }

  lemma ReconfigureSteady(e: Encoder, counts: seq<nat>, banks: seq<seq<ScalarStates>>)
    requires SteadyEncoder(e) && Build(counts, banks, DEFAULT_STATE).Ok? && SteadyBanks(banks)
    ensures var op := Operation(ReconfigureRequest(counts, banks), 0);
            && Write(e, op).Ok? && SteadyEncoder(Write(e, op).value) && Write(e, op).value.contexts.sizes == counts
  {
    hide DefaultTransition;
    BuildSteady(counts, banks);
    WriteKeepsSound(e, Operation(ReconfigureRequest(counts, banks), 0));
  }

  /** Flag and header are always written. */
  lemma DescriptionWrites(s: StreamParameters, v: HeaderValues, first: bool, keyframe: bool) returns (header: Encoder)
    requires IsPlain(s) && IsPlaced(s, v) && IsWritable(v)
    ensures DescriptionOps(s, v, first, keyframe).Ok?
    ensures WriteAll(SliceStart(s), DescriptionOps(s, v, first, keyframe).value) == Ok(header)
    ensures SteadyEncoder(header)
  {
    hide DefaultTransition, HeaderScript, IsInside, Write, SteadyEncoder, Build, IsPlaced;
    HeaderScripted(s, v);
    StartSteady(s);
    var start, ops := SliceStart(s), HeaderScript(s, v).value;
    if first {
      var flag, setup := Flag(keyframe), Operation(ReconfigureRequest([1], []), 0);
      FlagWrites(start, keyframe);
      var e1 := Write(start, flag).value;
      OneBankBuilds(1);
      ReconfigureSteady(e1, [1], []);
      var e2 := Write(e1, setup).value;
      AllInsideWrite(e2, ops);
      header := WriteAll(e2, ops).value;
      WriteTwo(start, flag, setup);
      WriteAllConcat(start, [flag, setup], ops);
    } else {
      AllInsideWrite(start, ops);
      header := WriteAll(start, ops).value;
      assert OpeningOps(first, keyframe) + ops == ops;
    }
  }

  lemma FlagWrites(e: Encoder, bit: bool)
    requires SteadyEncoder(e)
    ensures Write(e, Flag(bit)).Ok? && SteadyEncoder(Write(e, Flag(bit)).value)
  {
    hide SteadyEncoder, Write;
    InsideWrites(e, Flag(bit));
  }

  lemma WriteTwo(e: Encoder, a: Operation, b: Operation)
    requires Write(e, a).Ok?
    ensures WriteAll(e, [a, b]) == Write(Write(e, a).value, b)
  {
    hide Write;
    assert [a, b][1..] == [b];
    WriteOne(Write(e, a).value, b);
  }

  /** Banks a slice may start from: none yet, or steady ones of the right sizes. */
  ghost predicate AreBanks(s: StreamParameters, v: HeaderValues, banks: seq<seq<ScalarStates>>)
    requires IsSupported(s) && IsPlaced(s, v)
  {
    StartBanks(s, v, banks).Ok? && SteadyBanks(banks)
  }

  lemma {:induction false} NoErrorBuilds(counts: seq<nat>, banks: seq<seq<ScalarStates>>, b: nat)
    requires b <= |counts| && forall k :: b <= k < |counts| ==> BankError(counts, banks, k) == None
    ensures FirstBankError(counts, banks, b) == None
    decreases |counts| - b
  {
    if b < |counts| {
      NoErrorBuilds(counts, banks, b + 1);
    }
  }

  /** The contexts of a slice are always set up. */
  lemma StartBuilds(s: StreamParameters, v: HeaderValues, saved: seq<seq<ScalarStates>>) returns (banks: seq<seq<ScalarStates>>)
    requires IsPlain(s) && IsPlaced(s, v) && AreBanks(s, v, saved)
    ensures StartBanks(s, v, saved) == Ok(banks) && SteadyBanks(banks) && Build(Counts(s, v), banks, DEFAULT_STATE).Ok?
  {
    hide DefaultTransition, SteadyStates, Covers, RasterStatus, IsSupported;
    banks := StartBanks(s, v, saved).value;
    var counts := Counts(s, v);
    CountsBounded(s, v);
    forall k | 0 <= k < |counts|
      ensures BankError(counts, banks, k) == None
    {
      assert |GivenBank(banks, k)| == 0 || |GivenBank(banks, k)| == counts[k];
    }
    NoErrorBuilds(counts, banks, 0);
  }

  lemma CountsBounded(s: StreamParameters, v: HeaderValues)
    requires IsPlain(s) && IsPlaced(s, v)
    ensures 1 <= |Counts(s, v)| <= MAX_BANKS
    ensures forall k :: 0 <= k < |Counts(s, v)| ==> 1 <= Counts(s, v)[k] <= MAX_SCALAR_CONTEXTS
    ensures forall t <- TablesOf(s, v) :: Covers(t)
  {
    hide DefaultTransition, Covers, IsSupported;
    forall k | 0 <= k < |v.indexes|
      ensures TablesOf(s, v)[k] in s.quantTableSets
    {
      assert v.indexes[k] in v.indexes;
    }
  }

  /** The samples of a picture are always written, and leave banks the next frame can start from. */
  lemma SamplesWrite(s: StreamParameters, v: HeaderValues, image: Planes, saved: seq<seq<ScalarStates>>, header: Encoder)
    returns (final: Encoder)
    requires IsPlain(s) && IsPlaced(s, v) && IsSliceImage(s, v, image) && AreBanks(s, v, saved) && SteadyEncoder(header)
    ensures SampleOps(s, v, image, saved).Ok?
    ensures WriteAll(header, SampleOps(s, v, image, saved).value) == Ok(final)
    ensures SteadyEncoder(final)
  {
    hide DefaultTransition, Covers, IsSupported, IsPlaced, ContentOps, StartBanks, SteadyEncoder, Build, SteadyBanks, IsImage;
    SliceLayoutFits(s, v);
    var l := SliceLayout(s, v).value;
    ImageShaped(l, image);
    var banks := StartBuilds(s, v, saved);
    CountsBounded(s, v);
    var counts := Counts(s, v);
    ReconfigureSteady(header, counts, banks);
    var setup := Operation(ContentRequest(s, v, banks), 0);
    var ready := Write(header, setup).value;
    assert TableSizes(l) == counts;
    RangeContentWrites(l, image, ready);
    var content := ContentOps(l, image).value;
    final := WriteAll(ready, content).value;
    WriteOne(header, setup);
    WriteAllConcat(header, [setup], content);
  }

  lemma ImageShaped(l: Layout, image: Planes)
    requires IsLayout(l) && IsImage(l, image)
    ensures Shaped(l, image)
  {
  }

  lemma {:induction false} SplitSteady(c: Contexts, b: nat)
    requires WellFormed(c) && SteadyContexts(c) && b <= |c.sizes|
    ensures SteadyBanks(SplitFrom(c, b))
    decreases |c.sizes| - b
  {
    hide SteadyStates;
    if b < |c.sizes| {
      SumPrefix(c.sizes, b);
      SplitSteady(c, b + 1);
    }
  }

  /** A coded slice held a picture, and leaves banks the next frame can start from. */
  lemma BanksResume(s: StreamParameters, v: HeaderValues, first: bool, keyframe: bool, image: Planes,
                    saved: seq<seq<ScalarStates>>, c: RangeCoded)
    requires IsPlain(s) && IsPlaced(s, v) && IsWritable(v) && AreBanks(s, v, saved)
    requires IsRangeCoded(s, v, first, keyframe, image, saved, c)
    ensures AreBanks(s, v, Captured(c.final.contexts))
  {
    hide DefaultTransition, Covers, IsPlaced, DescriptionOps, ContentOps, WriteAll, StartBanks, SteadyStates, IsImage, Admits;
    SliceLayoutFits(s, v);
    var header := DescriptionWrites(s, v, first, keyframe);
    var final := SamplesWrite(s, v, image, saved, header);
    ContextsResume(s, v, first, keyframe, image, saved, c, c.final);
    SplitSteady(final.contexts, 0);
  }

  /** Every picture is coded in range mode, whatever an earlier frame left: no symbol meets an empty
      interval, no context is missing, the closed bytes exist; and the next frame can start. */
  lemma RangeSliceCodes(s: StreamParameters, v: HeaderValues, first: bool, keyframe: bool, image: Planes,
                        saved: seq<seq<ScalarStates>>)
    returns (c: RangeCoded)
    requires IsPlain(s) && IsPlaced(s, v) && IsWritable(v) && IsSliceImage(s, v, image) && AreBanks(s, v, saved)
    ensures IsRangeCoded(s, v, first, keyframe, image, saved, c)
    ensures AreBanks(s, v, Captured(c.final.contexts))
  {
    hide DefaultTransition, Covers, IsPlaced, DescriptionOps, SampleOps, WriteAll, AreBanks, IsSliceImage, Admits, Captured;
    var header := DescriptionWrites(s, v, first, keyframe);
    var final := SamplesWrite(s, v, image, saved, header);
    var payload := ClosedExists(final.interval);
    c := RangeCoded(header, final, payload);
    BanksResume(s, v, first, keyframe, image, saved, c);
  }

  lemma BlankBanks(s: StreamParameters, v: HeaderValues)
    requires IsSupported(s) && IsPlaced(s, v)
    ensures AreBanks(s, v, [])
  {
    hide IsSupported, IsPlaced;
  }
}
