// Plain numbers and flags among the operations of the range coder.

module RangeNumbers {
  import opened Basics
  import opened RangeInterval
  import opened RangeSymbols
  import opened RangeContexts
  import opened RangeScript
  import opened RangeEncoding

  function Number(value: nat): Operation {
    Operation(SymbolRequest(0, 0, false), value)
  }

  function Numbers(values: seq<nat>): (ops: seq<Operation>)
    ensures |ops| == |values|
  {
    if values == [] then [] else [Number(values[0])] + Numbers(values[1..])
  }

  function Flag(flag: bool): Operation {
    Operation(BoolRequest, if flag then 1 else 0)
  }

  /** A signed number in a context of the first bank. */
  function SignedNumber(context: nat, value: int): Operation {
    Operation(SymbolRequest(0, context, true), value)
  }

  lemma NumberReadsBack(value: nat, rest: seq<Operation>, d: Decoder, final: Encoder) returns (d': Decoder)
    requires Scripted(d, [Number(value)] + rest, final)
    ensures ReadUnsigned(d) == Ok((value, d'))
    ensures Scripted(d', rest, final) && d'.payload == d.payload
  {
    hide Scripted, RangeScript.ReadSymbol;
    assert ([Number(value)] + rest)[1..] == rest;
    NextOperation(d, [Number(value)] + rest, final);
    d' := Read(d, Number(value).request).value.1;
  }

  lemma NumbersSplit(a: seq<nat>, b: seq<nat>)
    ensures Numbers(a + b) == Numbers(a) + Numbers(b)
    decreases |a|
  {
    if a == [] {
      assert a + b == b;
    } else {
      assert (a + b)[1..] == a[1..] + b;
      NumbersSplit(a[1..], b);
    }
  }

  lemma FirstNumber(value: nat, values: seq<nat>, rest: seq<Operation>)
    ensures Numbers([value] + values) + rest == [Number(value)] + (Numbers(values) + rest)
  {
    assert ([value] + values)[1..] == values;
    AppendAssoc([Number(value)], Numbers(values), rest);
  }

  lemma FlagReadsBack(flag: bool, rest: seq<Operation>, d: Decoder, final: Encoder) returns (d': Decoder)
    requires Scripted(d, [Flag(flag)] + rest, final)
    ensures ReadBool(d) == Ok((flag, d'))
    ensures Scripted(d', rest, final) && d'.payload == d.payload
  {
    hide Scripted, RangeScript.ReadBool;
    var op := Flag(flag);
    assert ([op] + rest)[1..] == rest;
    NextOperation(d, [op] + rest, final);
    d' := Read(d, op.request).value.1;
    assert Read(d, BoolRequest) ==
           match ReadBool(d) { case Err(error) => Err(error) case Ok((bit, d1)) => Ok((if bit then 1 else 0, d1)) };
  }

  lemma SignedReadsBack(context: nat, value: int, rest: seq<Operation>, d: Decoder, final: Encoder) returns (d': Decoder)
    requires Scripted(d, [SignedNumber(context, value)] + rest, final)
    ensures RangeScript.ReadSymbol(d, 0, context, true) == Ok((value, d'))
    ensures Scripted(d', rest, final) && d'.payload == d.payload
  {
    hide Scripted, RangeScript.ReadSymbol;
    assert ([SignedNumber(context, value)] + rest)[1..] == rest;
    NextOperation(d, [SignedNumber(context, value)] + rest, final);
    d' := Read(d, SignedNumber(context, value).request).value.1;
  }

  lemma NumbersRepresentable(values: seq<nat>)
    requires forall n <- values :: n <= 2 * INT64_MAX + 1
    ensures AllRepresentable(Numbers(values))
    decreases |values|
  {
    if values != [] {
      assert values[0] in values && forall n <- values[1..] :: n in values;
      NumbersRepresentable(values[1..]);
    }
  }

  lemma NumbersFirst(value: nat, values: seq<nat>)
    ensures Numbers([value] + values) != [] && Numbers([value] + values)[0] == Number(value)
    ensures Numbers([value] + values)[1..] == Numbers(values)
  {
    assert ([value] + values)[1..] == values;
  }

  /** Writes numbers one after the other. */
  method WriteNumbers(writer: RangeEncoder, values: seq<nat>) returns (status: Status)
    requires writer.Valid() && writer.Writable()
    modifies writer
    ensures writer.Valid() && writer.Writable()
    ensures status.Ok? <==> WriteAll(old(writer.Value()), Numbers(values)).Ok?
    ensures status.Ok? ==> WriteAll(old(writer.Value()), Numbers(values)) == Ok(writer.Value())
  {
    hide Write;
    ghost var goal := WriteAll(writer.Value(), Numbers(values));
    assert values[0..] == values;
    for i := 0 to |values|
      invariant writer.Valid() && writer.Writable()
      invariant goal.Ok? ==> WriteAll(writer.Value(), Numbers(values[i..])) == goal
      invariant goal.Err? ==> WriteAll(writer.Value(), Numbers(values[i..])).Err?
    {
      assert values[i..] == [values[i]] + values[i + 1..];
      NumbersFirst(values[i], values[i + 1..]);
      status := WriteNumber(writer, values[i]);
      if status.Err? {
        return;
      }
    }
    status := Ok(());
  }

  method WriteNumber(writer: RangeEncoder, value: nat) returns (status: Status)
    requires writer.Valid() && writer.Writable()
    modifies writer
    ensures writer.Valid() && writer.Writable()
    ensures status.Ok? <==> Write(old(writer.Value()), Number(value)).Ok?
    ensures status.Ok? ==> Write(old(writer.Value()), Number(value)) == Ok(writer.Value())
  {
    hide RangeScript.WriteSymbol;
    status := writer.WriteUnsigned(0, 0, value);
  }
}
