// The range decoder object: 32-bit registers over a payload with implicit zeros past its end.

module RangeDecoding {
  import opened Basics
  import opened RangeInterval
  import opened RangeSymbols
  import opened RangeContexts
  import opened RangeScript
  import RangeEncoding

  class RangeCoder {
    var payload: seq<byte>
    var range: nat
    var low: nat
    var bytePosition: nat
    var end: bool
    var initialized: bool
    var table: Table
    var contexts: Contexts
    var snapshots: seq<Contexts>

    constructor ()
      ensures Valid() && !initialized && snapshots == []
    {
      payload, range, low, bytePosition, end := [], 0, 0, 0, false;
      initialized, table := false, seq(256, _ => 0);
      contexts, snapshots := Contexts([], [], []), [];
    }

    function Registers(): Cursor
      reads this
    {
      Cursor(range, low, bytePosition, end)
    }

    function Value(): Decoder
      reads this
    {
      Decoder(payload, Registers(), contexts, snapshots, table)
    }

    /** On every payload, valid or not, the registers never leave 32 bits. */
    ghost predicate Valid()
      reads this
    {
      && (initialized ==> InBounds(Registers()) && WellFormed(contexts))
      && forall c <- snapshots :: WellFormed(c)
    }

    method Reset(bytes: seq<byte>, counts: seq<nat>, banks: seq<seq<ScalarStates>>, state: byte, transitions: Table)
      returns (status: Status)
      requires Valid()
      modifies this
      ensures Valid()
      ensures |bytes| < 2 ==> status == Err(SyntaxError) && unchanged(this)
      ensures 2 <= |bytes| ==>
                match Build(counts, banks, state)
                case Err(error) => status == Err(error) && unchanged(this)
                case Ok(c) => status == Ok(()) && initialized && Value() == FreshDecoder(bytes, c, transitions).(saved := old(snapshots))
    {
      if |bytes| < 2 {
        return Err(SyntaxError);
      }
      var c :- RangeEncoding.InitializeContexts(counts, banks, state);
      BuildWellFormed(counts, banks, state);
      contexts := c;
      payload := bytes;
      range := FULL_RANGE;
      low := 256 * (bytes[0] as int) + bytes[1] as int;
      bytePosition := 2;
      end := bytePosition >= |payload|;
      if low >= range {
        low := range;
        end := true;
      }
      table := transitions;
      initialized := true;
      status := Ok(());
    }

    method ReconfigureContexts(counts: seq<nat>, banks: seq<seq<ScalarStates>>) returns (status: Status)
      requires Valid()
      modifies this
      ensures Valid() && initialized == old(initialized)
      ensures status.Ok? <==> old(initialized) && Read(old(Value()), ReconfigureRequest(counts, banks)).Ok?
      ensures status.Ok? ==> Ok((0, Value())) == Read(old(Value()), ReconfigureRequest(counts, banks))
      ensures status.Err? ==> unchanged(this)
    {
      if !initialized {
        return Err(InvalidState);
      }
      var c :- RangeEncoding.InitializeContexts(counts, banks, DEFAULT_STATE);
      BuildWellFormed(counts, banks, DEFAULT_STATE);
      contexts := c;
      status := Ok(());
    }

    method BeginIndependentScalarContexts(count: nat) returns (status: Status)
      requires Valid()
      modifies this
      ensures Valid() && initialized == old(initialized)
      ensures status.Ok? <==> old(initialized) && Read(old(Value()), BeginRequest(count)).Ok?
      ensures status.Ok? ==> Ok((0, Value())) == Read(old(Value()), BeginRequest(count))
      ensures status.Err? ==> unchanged(this)
    {
      if !initialized {
        return Err(InvalidState);
      }
      snapshots := snapshots + [contexts];
      var r := RangeEncoding.InitializeContexts([count], [], DEFAULT_STATE);
      BuildWellFormed([count], [], DEFAULT_STATE);
      if r.Err? {
        contexts, snapshots := snapshots[|snapshots| - 1], snapshots[..|snapshots| - 1];
        return Err(r.error);
      }
      contexts := r.value;
      status := Ok(());
    }

    method EndIndependentScalarContexts() returns (status: Status)
      requires Valid()
      modifies this
      ensures Valid() && initialized == old(initialized)
      ensures status.Ok? <==> old(initialized) && old(snapshots) != []
      ensures status.Ok? ==> Ok((0, Value())) == Read(old(Value()), EndRequest)
      ensures status.Err? ==> unchanged(this)
    {
      if !initialized || |snapshots| == 0 {
        return Err(InvalidState);
      }
      contexts, snapshots := snapshots[|snapshots| - 1], snapshots[..|snapshots| - 1];
      status := Ok(());
    }

    method Refill()
      requires InBounds(Registers()) || (range < 256 && 0 < range && low < range) || (range < 256 && low <= range && end)
      modifies this`range, this`low, this`bytePosition, this`end
      ensures Registers() == RangeInterval.Refill(payload, old(Registers()))
    {
      if range >= 256 {
        return;
      }
      range := range * 256;
      low := low * 256;
      if !end {
        if bytePosition < |payload| {
          low := low + payload[bytePosition];
          bytePosition := bytePosition + 1;
        }
        if bytePosition >= |payload| {
          end := true;
        }
      }
    }

    method ReadRac(state: byte) returns (r: Result<bool>, next: byte)
      requires Valid()
      modifies this`range, this`low, this`bytePosition, this`end
      ensures Valid()
      ensures r.Ok? <==> initialized
      ensures r.Ok? ==> (Registers(), r.value) == ReadDecision(payload, old(Registers()), state)
      ensures r.Ok? ==> next == NextState(table, state, r.value)
      ensures r.Err? ==> unchanged(this) && next == state
    {
      if !initialized {
        return Err(InvalidState), state;
      }
      ReadDecisionInBounds(payload, Registers(), state);
      var one := OneWidth(range, state);
      range := range - one;
      if low < range {
        next := ZeroState(table, state);
        r := Ok(false);
        Refill();
        return;
      }
      low := low - range;
      range := one;
      next := OneState(table, state);
      r := Ok(true);
      Refill();
    }

    method ReadBool() returns (r: Result<bool>)
      requires Valid()
      modifies this
      ensures Valid() && initialized == old(initialized)
      ensures r.Ok? <==> initialized
      ensures r.Ok? ==> RangeScript.ReadBool(old(Value())) == Ok((r.value, Value()))
      ensures r.Err? ==> unchanged(this)
    {
      if !initialized || |contexts.sizes| == 0 || contexts.sizes[0] == 0 {
        if initialized {
          FirstContextExists(contexts);
        }
        return Err(InvalidState);
      }
      FirstContextExists(contexts);
      var at := contexts.offsets[0];
      var states := contexts.states[at];
      var next;
      r, next := ReadRac(states[0]);
      contexts := Store(contexts, at, states[0 := next]);
    }

    method ReadTerminationSentinel() returns (status: Status)
      requires Valid()
      modifies this`range, this`low, this`bytePosition, this`end
      ensures Valid()
      ensures status.Ok? <==> initialized
      ensures status.Ok? ==> Ok((0, Value())) == Read(old(Value()), SentinelRequest)
    {
      var bit, next := ReadRac(SENTINEL_STATE);
      status := if bit.Ok? then Ok(()) else Err(bit.error);
    }

    /** One bit of a symbol, adapting the given copy of the context's states. */
    method ReadStateBit(states: ScalarStates, index: nat) returns (bit: bool, adapted: ScalarStates)
      requires Valid() && initialized
      requires index < 32
      modifies this`range, this`low, this`bytePosition, this`end
      ensures Valid()
      ensures ReadBit(payload, table, Reading(old(Registers()), states), index) == (Reading(Registers(), adapted), bit)
    {
      var r, next := ReadRac(states[index]);
      bit := r.value;
      adapted := states[index := next];
    }

    method ReadUnary(states: ScalarStates) returns (r: Result<nat>, adapted: ScalarStates)
      requires Valid() && initialized
      modifies this`range, this`low, this`bytePosition, this`end
      ensures Valid()
      ensures match ReadExponent(payload, table, Reading(old(Registers()), states), 0)
              case Err(error) => r == Err(error)
              case Ok((e, after)) => r == Ok(e) && e <= 62 && after == Reading(Registers(), adapted)
    {
      ghost var goal := ReadExponent(payload, table, Reading(Registers(), states), 0);
      var exponent := 0;
      adapted := states;
      while true
        invariant exponent <= 62
        invariant Valid()
        invariant ReadExponent(payload, table, Reading(Registers(), adapted), exponent) == goal
        decreases 63 - exponent
      {
        var bit;
        bit, adapted := ReadStateBit(adapted, 1 + Min(exponent, 9));
        if !bit {
          return Ok(exponent), adapted;
        }
        if exponent + 1 > 62 {
          return Err(SyntaxError), adapted;
        }
        exponent := exponent + 1;
      }
    }

    method ReadMantissaBits(states: ScalarStates, exponent: nat) returns (magnitude: nat, adapted: ScalarStates)
      requires Valid() && initialized
      modifies this`range, this`low, this`bytePosition, this`end
      ensures Valid()
      ensures ReadMantissa(payload, table, Reading(old(Registers()), states), exponent, 1) == (magnitude, Reading(Registers(), adapted))
    {
      magnitude := 1;
      adapted := states;
      var i := exponent as int - 1;
      while i >= 0
        invariant -1 <= i < exponent
        invariant Valid()
        invariant ReadMantissa(payload, table, Reading(Registers(), adapted), i + 1, magnitude)
               == ReadMantissa(payload, table, Reading(old(Registers()), states), exponent, 1)
      {
        var bit;
        bit, adapted := ReadStateBit(adapted, 22 + Min(i, 9));
        magnitude := magnitude * 2 + if bit then 1 else 0;
        i := i - 1;
      }
    }

    method ReadSuffixBits(states: ScalarStates, exponent: nat, isSigned: bool) returns (r: Result<int>, adapted: ScalarStates)
      requires Valid() && initialized
      modifies this`range, this`low, this`bytePosition, this`end
      ensures Valid()
      ensures match ReadSuffix(payload, table, Reading(old(Registers()), states), exponent, isSigned)
              case Err(error) => r == Err(error)
              case Ok((v, after)) => r == Ok(v) && after == Reading(Registers(), adapted)
    {
      var magnitude;
      magnitude, adapted := ReadMantissaBits(states, exponent);
      if magnitude > INT64_MAX {
        return Err(SyntaxError), adapted;
      }
      var value: int := magnitude;
      if isSigned {
        var bit;
        bit, adapted := ReadStateBit(adapted, 11 + Min(exponent, 10));
        if bit {
          value := -value;
        }
      }
      r := Ok(value);
    }

    method ReadWithStates(states: ScalarStates, isSigned: bool) returns (r: Result<int>, adapted: ScalarStates)
      requires Valid() && initialized
      modifies this`range, this`low, this`bytePosition, this`end
      ensures Valid()
      ensures match ReadScalar(payload, table, Reading(old(Registers()), states), isSigned)
              case Err(error) => r == Err(error)
              case Ok((v, after)) => r == Ok(v) && after == Reading(Registers(), adapted)
    {
      var zero;
      zero, adapted := ReadStateBit(states, 0);
      if zero {
        return Ok(0), adapted;
      }
      var exponent;
      exponent, adapted := ReadUnary(adapted);
      if exponent.Err? {
        return Err(exponent.error), adapted;
      }
      r, adapted := ReadSuffixBits(adapted, exponent.value, isSigned);
    }

    method ReadSymbol(bank: nat, context: nat, isSigned: bool) returns (r: Result<int>)
      requires Valid() && initialized
      modifies this
      ensures Valid() && initialized
      ensures match RangeScript.ReadSymbol(old(Value()), bank, context, isSigned)
              case Err(error) => r == Err(error)
              case Ok((v, d)) => r == Ok(v) && Value() == d
    {
      if bank >= |contexts.sizes| {
        return Err(InvalidArgument);
      }
      if context >= contexts.sizes[bank] {
        return Err(InvalidArgument);
      }
      var at := contexts.offsets[bank] + context;
      LocateInside(contexts, bank, context);
      var states := contexts.states[at];
      r, states := ReadWithStates(states, isSigned);
      contexts := Store(contexts, at, states);
    }

    method ReadUnsigned() returns (r: Result<nat>)
      requires Valid() && initialized
      modifies this
      ensures Valid() && initialized
      ensures match RangeScript.ReadUnsigned(old(Value()))
              case Err(error) => r == Err(error)
              case Ok((v, d)) => r == Ok(v) && Value() == d
    {
      hide RangeScript.ReadSymbol;
      var value := ReadSymbol(0, 0, false);
      if value.Err? {
        return Err(value.error);
      }
      r := Ok(value.value);
    }

    method SetStateTransition(transitions: Table) returns (status: Status)
      requires Valid()
      modifies this`table
      ensures Valid()
      ensures status.Ok? <==> initialized
      ensures status.Ok? ==> Value() == old(Value()).(table := transitions)
      ensures status.Err? ==> unchanged(this)
    {
      if !initialized {
        return Err(InvalidState);
      }
      table := transitions;
      status := Ok(());
    }

    method CopyContexts() returns (r: Result<seq<seq<ScalarStates>>>)
      requires Valid()
      ensures r.Ok? <==> initialized
      ensures r.Ok? ==> r.value == Split(contexts)
    {
      if !initialized {
        return Err(InvalidState);
      }
      var banks: seq<seq<ScalarStates>> := [];
      var bank := 0;
      assert banks + SplitFrom(contexts, 0) == Split(contexts);
      while bank < |contexts.sizes|
        invariant bank <= |contexts.sizes|
        invariant banks + SplitFrom(contexts, bank) == Split(contexts)
      {
        SumPrefix(contexts.sizes, bank);
        var offset := contexts.offsets[bank];
        banks := banks + [contexts.states[offset..offset + contexts.sizes[bank]]];
        bank := bank + 1;
      }
      r := Ok(banks);
    }
  }
}
