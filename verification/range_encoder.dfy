// The range encoder object: a growing big-endian lower bound with carry propagation.

module RangeEncoding {
  import opened Basics
  import opened RangeInterval
  import opened RangeSymbols
  import opened RangeContexts
  import opened RangeScript

  /** Lays the banks out one after the other, with the checks in the order they are made. */
  method InitializeContexts(counts: seq<nat>, banks: seq<seq<ScalarStates>>, state: byte)
    returns (r: Result<Contexts>)
    ensures r == Build(counts, banks, state)
  {
    if |counts| == 0 {
      return Err(InvalidArgument);
    }
    if |counts| > MAX_BANKS {
      return Err(ResourceExhausted);
    }
    if |banks| != 0 && |banks| != |counts| {
      return Err(InvalidArgument);
    }
    var bank := 0;
    while bank < |counts|
      invariant bank <= |counts|
      invariant FirstBankError(counts, banks, bank) == FirstBankError(counts, banks, 0)
    {
      if counts[bank] == 0 {
        return Err(InvalidArgument);
      }
      if counts[bank] > MAX_SCALAR_CONTEXTS {
        return Err(ResourceExhausted);
      }
      if |banks| != 0 && |banks[bank]| != 0 && |banks[bank]| != counts[bank] {
        return Err(InvalidArgument);
      }
      bank := bank + 1;
    }
    var offsets: seq<nat> := [];
    var offset := 0;
    var states: seq<ScalarStates> := [];
    bank := 0;
    while bank < |counts|
      invariant bank <= |counts|
      invariant offset == Sum(counts[..bank])
      invariant |offsets| == bank
      invariant forall b :: 0 <= b < bank ==> offsets[b] == Sum(counts[..b])
      invariant states == Concat(counts, banks, state, bank)
    {
      offsets := offsets + [offset];
      assert counts[..bank + 1][..bank] == counts[..bank];
      offset := offset + counts[bank];
      if |banks| != 0 && |banks[bank]| != 0 {
        states := states + banks[bank];
      } else {
        var uniform: ScalarStates := seq(32, _ => state);
        states := states + seq(counts[bank], _ => uniform);
      }
      bank := bank + 1;
    }
    assert offsets == seq(|counts|, b requires 0 <= b < |counts| => Sum(counts[..b]));
    r := Ok(Contexts(offsets, counts, states));
  }

  lemma {:induction false} ScaleAdds(a: int, b: int, n: nat)
    ensures Scale(a + b, n) == Scale(a, n) + Scale(b, n)
    ensures Scale(256 * a, n) == 256 * Scale(a, n)
    decreases n
  {
    if n > 0 {
      ScaleAdds(a, b, n - 1);
    }
  }

  lemma {:induction false} ScaleMonotone(a: int, b: int, n: nat)
    requires a <= b
    ensures Scale(a, n) <= Scale(b, n)
    decreases n
  {
    if n > 0 {
      ScaleMonotone(a, b, n - 1);
    }
  }

  lemma {:induction false} PrefixUpdate(p: seq<byte>, i: nat, v: byte, n: nat)
    requires i < |p| && n <= |p|
    ensures Prefix(p[i := v], n) == Prefix(p, n) + if i < n then Scale(v - p[i], n - 1 - i) else 0
    decreases n
  {
    if n > 0 {
      PrefixUpdate(p, i, v, n - 1);
    }
  }

  lemma {:induction false} PrefixBound(p: seq<byte>, n: nat)
    ensures Prefix(p, n) < Scale(1, n)
    decreases n
  {
    if n > 0 {
      PrefixBound(p, n - 1);
    }
  }

  /** Adding one byte's share of the carry keeps number plus weighted carry. */
  lemma CarryInto(p: seq<byte>, i: nat, carry: nat, sum: nat)
    requires i < |p| && sum == p[i] as int + carry % 256
    ensures Prefix(p[i := sum % 256], |p|) + Scale(carry / 256 + sum / 256, |p| - i)
            == Prefix(p, |p|) + Scale(carry, |p| - i - 1)
  {
    var n := |p| - i - 1;
    var change: int := sum % 256 - p[i] as int;
    var carried := carry / 256 + sum / 256;
    PrefixUpdate(p, i, sum % 256, |p|);
    ScaleAdds(carried, 0, n);
    ScaleAdds(change, 256 * carried, n);
    assert change + 256 * carried == carry;
  }

  lemma PrefixAppend(p: seq<byte>, b: byte)
    ensures Prefix(p + [b], |p| + 1) == Prefix(p, |p|) * 256 + b
  {
    assert (p + [b])[..|p|] == p == p[..|p|];
    PrefixAgrees(p + [b], p, |p|);
  }

  lemma {:induction false} FullRangeFits(n: nat)
    requires 2 <= n
    ensures Scale(FULL_RANGE, n - 2) < Scale(1, n)
    decreases n
  {
    if n > 2 {
      FullRangeFits(n - 1);
    }
  }

  predicate Clears(lastByte: byte, delta: nat) {
    (lastByte as int + delta) % 256 == 0
  }

  lemma ClearingSteps(lastByte: byte, a: nat, b: nat)
    requires Clears(lastByte, a) && Clears(lastByte, b)
    ensures a == b || a + 256 <= b || b + 256 <= a
  {
  }

  lemma ClearedLastByte(before: seq<byte>, after: seq<byte>, delta: nat)
    requires 0 < |before| == |after|
    requires Prefix(after, |after|) == Prefix(before, |before|) + delta
    requires Clears(before[|before| - 1], delta)
    ensures after[|after| - 1] == 0
  {
    var n := |before|;
    assert Prefix(after, n) == Prefix(after, n - 1) * 256 + after[n - 1];
    assert Prefix(before, n) == Prefix(before, n - 1) * 256 + before[n - 1];
  }

  lemma TrailingZeroInvisible(p: seq<byte>)
    requires 0 < |p| && p[|p| - 1] == 0
    ensures Prefix(p[..|p| - 1], |p|) == Prefix(p, |p|)
  {
    var n := |p| - 1;
    assert p[..n][..n] == p[..n];
    PrefixAgrees(p[..n], p, n);
  }

  class RangeEncoder {
    var lowBytes: seq<byte>
    var range: nat
    var table: Table
    var contexts: Contexts
    var snapshots: seq<Contexts>
    var initialized: bool
    var finalized: bool

    constructor ()
      ensures !initialized && !finalized
    {
      lowBytes, range, table := [], 0, seq(256, _ => 0);
      contexts, snapshots := Contexts([], [], []), [];
      initialized, finalized := false, false;
    }

    function Interval(): Interval
      reads this
    {
      RangeInterval.Interval(Prefix(lowBytes, |lowBytes|), range, |lowBytes|)
    }

    function Value(): Encoder
      reads this
    {
      Encoder(Interval(), contexts, snapshots, table)
    }

    ghost predicate Valid()
      reads this
    {
      initialized ==> SoundEncoder(Value())
    }

    predicate Writable()
      reads this
    {
      initialized && !finalized
    }

    method Reset(counts: seq<nat>, banks: seq<seq<ScalarStates>>, state: byte, transitions: Table)
      returns (status: Status)
      requires Valid()
      modifies this
      ensures Valid()
      ensures match Build(counts, banks, state)
              case Err(error) => status == Err(error) && unchanged(this)
              case Ok(c) => status == Ok(()) && Writable() && Value() == FreshEncoder(c, transitions)
    {
      var c :- InitializeContexts(counts, banks, state);
      BuildWellFormed(counts, banks, state);
      lowBytes, range, table := [0, 0], FULL_RANGE, transitions;
      assert Prefix([0, 0], 2) == 0 by {
        assert Prefix([0, 0], 1) == 0;
      }
      contexts, snapshots := c, [];
      initialized, finalized := true, false;
      status := Ok(());
    }

    method ReconfigureContexts(counts: seq<nat>, banks: seq<seq<ScalarStates>>) returns (status: Status)
      requires Valid()
      modifies this
      ensures Valid() && initialized == old(initialized) && finalized == old(finalized)
      ensures status.Ok? <==> old(Writable()) && Write(old(Value()), Operation(ReconfigureRequest(counts, banks), 0)).Ok?
      ensures status.Ok? ==> Ok(Value()) == Write(old(Value()), Operation(ReconfigureRequest(counts, banks), 0))
      ensures status.Err? ==> unchanged(this)
    {
      if !initialized || finalized {
        return Err(InvalidState);
      }
      var c :- InitializeContexts(counts, banks, DEFAULT_STATE);
      BuildWellFormed(counts, banks, DEFAULT_STATE);
      contexts := c;
      status := Ok(());
    }

    method BeginIndependentScalarContexts(count: nat) returns (status: Status)
      requires Valid()
      modifies this
      ensures Valid() && initialized == old(initialized) && finalized == old(finalized)
      ensures status.Ok? <==> old(Writable()) && Write(old(Value()), Operation(BeginRequest(count), 0)).Ok?
      ensures status.Ok? ==> Ok(Value()) == Write(old(Value()), Operation(BeginRequest(count), 0))
      ensures status.Err? ==> unchanged(this)
    {
      if !initialized || finalized {
        return Err(InvalidState);
      }
      snapshots := snapshots + [contexts];
      var r := InitializeContexts([count], [], DEFAULT_STATE);
      BuildWellFormed([count], [], DEFAULT_STATE);
      if r.Err? {
        contexts, snapshots := snapshots[|snapshots| - 1], snapshots[..|snapshots| - 1];
        return Err(r.error);
      }
      contexts := r.value;
      status := Ok(());
    }

    method EndIndependentScalarContexts() returns (status: Status)
      requires Valid()
      modifies this
      ensures Valid() && initialized == old(initialized) && finalized == old(finalized)
      ensures status.Ok? <==> old(Writable()) && old(snapshots) != []
      ensures status.Ok? ==> Ok(Value()) == Write(old(Value()), Operation(EndRequest, 0))
      ensures status.Err? ==> unchanged(this)
    {
      if !initialized || finalized || |snapshots| == 0 {
        return Err(InvalidState);
      }
      contexts, snapshots := snapshots[|snapshots| - 1], snapshots[..|snapshots| - 1];
      status := Ok(());
    }

    /** Adds with carry propagation, byte by byte from the last one, in place. */
    method AddToLow(value: nat) returns (status: Status)
      modifies this`lowBytes
      ensures |lowBytes| == old(|lowBytes|)
      ensures status.Ok? <==> old(Interval().low) + value < Scale(1, |lowBytes|)
      ensures status.Ok? ==> Interval().low == old(Interval().low) + value
    {
      var index: nat := |lowBytes|;
      var carry: nat := value;
      ghost var start := Prefix(lowBytes, |lowBytes|);
      while carry != 0 && index != 0
        invariant index <= |lowBytes| == old(|lowBytes|)
        invariant Prefix(lowBytes, |lowBytes|) + Scale(carry, |lowBytes| - index) == start + value
      {
        index := index - 1;
        var sum: nat := lowBytes[index] as int + carry % 256;
        CarryInto(lowBytes, index, carry, sum);
        lowBytes := lowBytes[index := sum % 256];
        carry := carry / 256 + sum / 256;
      }
      PrefixBound(lowBytes, |lowBytes|);
      ScaleAdds(0, 0, |lowBytes| - index);
      if carry != 0 {
        ScaleMonotone(1, carry, |lowBytes|);
        return Err(InternalError);
      }
      status := Ok(());
    }

    /** A sound interval leaves room for any part of its width. */
    lemma RoomForWidth(value: nat)
      requires Sound(Interval())
      requires value <= range
      ensures Interval().low + value < Scale(1, |lowBytes|)
    {
      FullRangeFits(|lowBytes|);
    }

    method WriteRac(state: byte, bit: bool) returns (status: Status, next: byte)
      requires Sound(Interval())
      modifies this`lowBytes, this`range
      ensures match Narrow(old(Interval()), state, bit)
              case None => status == Err(InvalidArgument) && next == state && unchanged(this)
              case Some(iv) => status == Ok(()) && next == NextState(table, state, bit) && Interval() == iv && Sound(iv)
    {
      NarrowKeepsSound(Interval(), state, bit);
      var one := OneWidth(range, state);
      var zero := range - one;
      var nextRange := if bit then one else zero;
      if nextRange == 0 {
        return Err(InvalidArgument), state;
      }
      next := state;
      if bit {
        RoomForWidth(zero);
        var added := AddToLow(zero);
        if added.Err? {
          return added, state;
        }
        next := OneState(table, state);
      } else {
        next := ZeroState(table, state);
      }
      range := nextRange;
      if nextRange < 256 {
        PrefixAppend(lowBytes, 0);
        range := range * 256;
        lowBytes := lowBytes + [0];
      }
      status := Ok(());
    }

    method WriteBool(bit: bool) returns (status: Status)
      requires Valid()
      modifies this
      ensures Valid() && initialized == old(initialized) && finalized == old(finalized)
      ensures status.Ok? <==> old(Writable()) && RangeScript.WriteBool(old(Value()), bit).Ok?
      ensures status.Ok? ==> Ok(Value()) == RangeScript.WriteBool(old(Value()), bit)
      ensures status.Err? ==> unchanged(this)
    {
      if !initialized || finalized {
        return Err(InvalidState);
      }
      FirstContextExists(contexts);
      if |contexts.sizes| == 0 || contexts.sizes[0] == 0 {
        return Err(InvalidState);
      }
      var at := contexts.offsets[0];
      var states := contexts.states[at];
      EncodeOne(table, Interval(), states, Decision(0, bit));
      var next;
      status, next := WriteRac(states[0], bit);
      if status.Ok? {
        contexts := Store(contexts, at, states[0 := next]);
      }
    }

    method WriteTerminationSentinel() returns (status: Status)
      requires Valid()
      modifies this
      ensures Valid() && initialized == old(initialized) && finalized == old(finalized)
      ensures status.Ok? <==> old(Writable())
      ensures status.Ok? ==> Ok(Value()) == WriteSentinel(old(Value()))
      ensures status.Err? ==> unchanged(this)
    {
      if !initialized || finalized {
        return Err(InvalidState);
      }
      NarrowKeepsSound(Interval(), SENTINEL_STATE, false);
      var next;
      status, next := WriteRac(SENTINEL_STATE, false);
    }

    method WriteUnsigned(bank: nat, context: nat, value: nat) returns (status: Status)
      requires Valid()
      modifies this
      ensures Valid() && initialized == old(initialized) && finalized == old(finalized)
      ensures status.Ok? <==> old(Writable()) && RangeScript.WriteSymbol(old(Value()), bank, context, false, value).Ok?
      ensures status.Ok? ==> Ok(Value()) == RangeScript.WriteSymbol(old(Value()), bank, context, false, value)
      ensures status.Err? ==> unchanged(this) && status.error != InternalError
    {
      if !initialized || finalized {
        return Err(InvalidState);
      }
      if value > INT64_MAX {
        return Err(InvalidArgument);
      }
      status := WriteSymbol(bank, context, false, value, false);
    }

    method WriteSigned(bank: nat, context: nat, value: int) returns (status: Status)
      requires Valid()
      requires INT64_MIN <= value <= INT64_MAX
      modifies this
      ensures Valid() && initialized == old(initialized) && finalized == old(finalized)
      ensures status.Ok? <==> old(Writable()) && RangeScript.WriteSymbol(old(Value()), bank, context, true, value).Ok?
      ensures status.Ok? ==> Ok(Value()) == RangeScript.WriteSymbol(old(Value()), bank, context, true, value)
      ensures status.Err? ==> unchanged(this) && status.error != InternalError
    {
      if !initialized || finalized {
        return Err(InvalidState);
      }
      if value == INT64_MIN {
        return Err(InvalidArgument);
      }
      var negative := value < 0;
      status := WriteSymbol(bank, context, true, if negative then -value else value, negative);
    }

    /** The decisions of one symbol, in coding order: at most 127 of them. */
    static method ListDecisions(isSigned: bool, magnitude: nat, negative: bool) returns (ds: Decisions)
      requires magnitude <= INT64_MAX
      ensures ds == SymbolDecisions(isSigned, magnitude, negative)
      ensures |ds| <= 127
    {
      ds := [Decision(0, magnitude == 0)];
      if magnitude != 0 {
        var width := BitWidth(magnitude);
        var exponent := width - 1;
        ExponentBound(magnitude);
        var unary := ListUnary(exponent);
        var mantissa := ListMantissa(exponent, magnitude);
        ds := ds + (unary + (mantissa + if isSigned then [Decision(11 + Min(exponent, 10), negative)] else []));
      }
    }

    static method ListUnary(exponent: nat) returns (ds: Decisions)
      ensures ds == UnaryDecisions(0, exponent)
      ensures |ds| == exponent + 1
    {
      ds := [];
      var index := 0;
      while index < exponent
        invariant index <= exponent
        invariant |ds| == index
        invariant ds + UnaryDecisions(index, exponent) == UnaryDecisions(0, exponent)
      {
        ds := ds + [Decision(1 + Min(index, 9), true)];
        index := index + 1;
      }
      ds := ds + [Decision(1 + Min(exponent, 9), false)];
    }

    static method ListMantissa(exponent: nat, magnitude: nat) returns (ds: Decisions)
      ensures ds == MantissaDecisions(exponent, magnitude)
      ensures |ds| == exponent
    {
      ds := [];
      var bit := exponent as int - 1;
      while bit >= 0
        invariant -1 <= bit < exponent
        invariant |ds| == exponent - 1 - bit
        invariant ds + MantissaDecisions(bit + 1, magnitude) == MantissaDecisions(exponent, magnitude)
      {
        ds := ds + [Decision(22 + Min(bit, 9), ShiftRight(magnitude, bit) % 2 == 1)];
        bit := bit - 1;
      }
    }

    static method BitWidth(m: nat) returns (w: nat)
      requires 0 < m
      ensures w == Exponent(m) + 1
    {
      w := 1;
      var rest := m;
      while rest > 1
        invariant 1 <= rest <= m
        invariant w + Exponent(rest) == Exponent(m) + 1
      {
        rest := rest / 2;
        w := w + 1;
      }
    }

    /** Writes a whole symbol or, when some decision would get an empty range, nothing. */
    method WriteSymbol(bank: nat, context: nat, isSigned: bool, magnitude: nat, negative: bool) returns (status: Status)
      requires Valid() && initialized
      requires magnitude <= INT64_MAX
      requires negative ==> isSigned && 0 < magnitude
      modifies this
      ensures Valid() && initialized && finalized == old(finalized)
      ensures status.Ok? <==> RangeScript.WriteSymbol(old(Value()), bank, context, isSigned, Signed(magnitude, negative)).Ok?
      ensures status.Ok? ==> Ok(Value()) == RangeScript.WriteSymbol(old(Value()), bank, context, isSigned, Signed(magnitude, negative))
      ensures status.Err? ==> unchanged(this) && status.error != InternalError
    {
      hide SymbolDecisions, Encode, Prefix, Scale;
      if bank >= |contexts.sizes| {
        return Err(InvalidArgument);
      }
      if context >= contexts.sizes[bank] {
        return Err(InvalidArgument);
      }
      var at := contexts.offsets[bank] + context;
      LocateInside(contexts, bank, context);
      var states := contexts.states[at];
      var ds := ListDecisions(isSigned, magnitude, negative);

      var accepted := Prevalidate(states, ds);
      if !accepted {
        return Err(InvalidArgument);
      }
      status, states := WriteDecisions(states, ds);
      if status.Err? {
        return Err(InternalError);
      }
      contexts := Store(contexts, at, states);
    }

    /** A dry run on copies of the width and of the states; the lower bound does not matter. */
    method Prevalidate(states: ScalarStates, ds: Decisions) returns (accepted: bool)
      ensures accepted <==> Encode(table, Interval(), states, ds).Some?
    {
      var trialStates := states;
      var trialRange := range;
      ghost var trial := Interval();
      ghost var goal := Encode(table, trial, states, ds);
      var index := 0;
      while index < |ds|
        invariant index <= |ds|
        invariant trial.range == trialRange
        invariant Encode(table, trial, trialStates, ds[index..]) == goal
      {
        var d := ds[index];
        assert ds[index..][0] == d && ds[index..][1..] == ds[index + 1..];
        var state := trialStates[d.index];
        var one := OneWidth(trialRange, state);
        var zero := trialRange - one;
        var nextRange := if d.bit then one else zero;
        if nextRange == 0 {
          return false;
        }
        trial := Narrow(trial, state, d.bit).value;
        trialStates := trialStates[d.index := if d.bit then OneState(table, state) else ZeroState(table, state)];
        trialRange := if nextRange < 256 then nextRange * 256 else nextRange;
        index := index + 1;
      }
      assert ds[index..] == [];
      accepted := true;
    }

    method WriteDecisions(states: ScalarStates, ds: Decisions) returns (status: Status, adapted: ScalarStates)
      requires Sound(Interval())
      requires Encode(table, Interval(), states, ds).Some?
      modifies this`lowBytes, this`range
      ensures status.Ok?
      ensures Sound(Interval())
      ensures Encode(table, old(Interval()), states, ds) == Some((Interval(), adapted))
    {
      adapted := states;
      var index := 0;
      while index < |ds|
        invariant index <= |ds|
        invariant Sound(Interval())
        invariant Encode(table, Interval(), adapted, ds[index..]) == Encode(table, old(Interval()), states, ds)
      {
        var d := ds[index];
        assert ds[index..][0] == d && ds[index..][1..] == ds[index + 1..];
        var written, next := WriteRac(adapted[d.index], d.bit);
        if written.Err? {
          return written, adapted;
        }
        adapted := adapted[d.index := next];
        index := index + 1;
      }
      assert ds[index..] == [];
      status := Ok(());
    }

    method CopyContexts() returns (r: Result<seq<seq<ScalarStates>>>)
      requires Valid()
      ensures r.Ok? <==> initialized
      ensures r.Ok? ==> r.value == Split(contexts)
    {
      if !initialized {
        return Err(InvalidState);
      }
      var banks: seq<seq<ScalarStates>> := [];
      var bank := 0;
      assert banks + SplitFrom(contexts, 0) == Split(contexts);
      while bank < |contexts.sizes|
        invariant bank <= |contexts.sizes|
        invariant banks + SplitFrom(contexts, bank) == Split(contexts)
      {
        SumPrefix(contexts.sizes, bank);
        var offset := contexts.offsets[bank];
        banks := banks + [contexts.states[offset..offset + contexts.sizes[bank]]];
        bank := bank + 1;
      }
      r := Ok(banks);
    }

    method ByteCount() returns (n: nat)
      ensures n == Interval().count
    {
      n := |lowBytes|;
    }

    /** Plain finalization hands out the lower bound itself. */
    method Finalize() returns (r: Result<seq<byte>>)
      requires Valid()
      modifies this`finalized
      ensures r.Ok? <==> old(Writable())
      ensures r.Ok? ==> finalized && |r.value| == Interval().count && Prefix(r.value, |r.value|) == Interval().low
      ensures r.Ok? ==> 2 <= |r.value| && Admits(r.value, Interval())
      ensures r.Err? ==> unchanged(this)
    {
      if !initialized || finalized {
        return Err(InvalidState);
      }
      finalized := true;
      r := Ok(lowBytes);
    }

    /** The delta that closes the interval: below the width, clearing the last byte and,
        among those, nearest to the middle.  No unsigned subtraction here goes below zero. */
    static method ClosingDelta(lastByte: byte, range: nat) returns (delta: nat)
      requires 256 <= range
      ensures delta < range && Clears(lastByte, delta)
      ensures forall other: nat :: other < range && Clears(lastByte, other)
                ==> Abs(range / 2 - delta) <= Abs(range / 2 - other)
    {
      var toZero: nat := (256 - lastByte as int) % 256;
      delta := range / 2;
      if toZero < range {
        var target := range / 2;
        var aligned := toZero;
        while aligned + 256 < range && aligned + 256 <= target
          invariant aligned < range
          invariant aligned == toZero || aligned <= target
          invariant Clears(lastByte, aligned)
        {
          aligned := aligned + 256;
        }
        if aligned + 256 < range {
          assert 0 <= target - aligned && 0 <= aligned + 256 - target;
          if target - aligned > aligned + 256 - target {
            aligned := aligned + 256;
          }
        }
        delta := aligned;
      }
      forall other: nat | other < range && Clears(lastByte, other)
        ensures Abs(range / 2 - delta) <= Abs(range / 2 - other)
      {
        ClearingSteps(lastByte, delta, other);
      }
    }

    /** Closed finalization picks a value inside the interval whose last byte is zero and
        drops that byte; zeros past the end restore it. */
    method FinalizeClosed() returns (r: Result<seq<byte>>)
      requires Valid()
      modifies this`finalized
      ensures r.Ok? <==> old(Writable())
      ensures r.Ok? ==> finalized
      ensures r.Ok? ==> 2 <= |r.value| && Admits(r.value, Interval())
      ensures r.Ok? ==> |r.value| == Max(2, Interval().count - 1)
      ensures r.Err? ==> unchanged(this)
    {
      if !initialized || finalized {
        return Err(InvalidState);
      }
      var completed := new RangeEncoder();
      completed.lowBytes, completed.range := lowBytes, range;
      var last: byte := if |lowBytes| == 0 then 0 else lowBytes[|lowBytes| - 1];
      var delta := ClosingDelta(last, range);
      RoomForWidth(delta);
      var added := completed.AddToLow(delta);
      if added.Err? {
        return Err(InternalError);
      }
      var bytes := completed.lowBytes;
      ClearedLastByte(lowBytes, bytes, delta);
      if |bytes| > 2 && bytes[|bytes| - 1] == 0 {
        TrailingZeroInvisible(bytes);
        bytes := bytes[..|bytes| - 1];
      }
      finalized := true;
      r := Ok(bytes);
    }
  }

  lemma EncodeOne(t: Table, iv: Interval, s: ScalarStates, d: Decision)
    requires d.index < 32
    ensures Encode(t, iv, s, [d]) ==
            match Narrow(iv, s[d.index], d.bit)
            case None => None
            case Some(next) => Some((next, s[d.index := NextState(t, s[d.index], d.bit)]))
  {
    assert [d][0] == d && [d][1..] == [];
  }
}
