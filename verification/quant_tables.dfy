// Quantization tables: the run-length form the configuration carries, its parser, and the
// bound that keeps every derived context inside its table set.

module QuantTables {
  import opened Basics
  import opened SampleModel
  import opened RangeInterval
  import opened RangeSymbols
  import opened RangeContexts
  import opened RangeScript
  import opened RangeNumbers

  const INT32_LIMIT: int := 0x7fff_ffff
  const MAX_CONTEXT_COUNT: nat := 32768
  const HALF_ENTRIES: nat := 128

  /** A table is given by its first half; the second one is its negated mirror image. */
  function Mirror(half: seq<int>): (t: seq<int>)
    requires |half| == HALF_ENTRIES
    ensures |t| == TABLE_ENTRIES
  {
    seq(TABLE_ENTRIES, i requires 0 <= i < TABLE_ENTRIES =>
      if i < 128 then half[i] else if i == 128 then -half[127] else -half[256 - i])
  }

  lemma MirrorKeepsHalf(half: seq<int>)
    requires |half| == HALF_ENTRIES
    ensures Mirror(half)[..HALF_ENTRIES] == half
  {
  }

  /** The value-th step of a table whose contexts are `scale` apart. */
  function Entry(scale: int, value: nat): int {
    scale * value
  }

  /** The scale after a table with `count` steps on either side of zero, zero counted once. */
  function Widened(scale: int, count: nat): int {
    scale * (2 * count - 1)
  }

  /** The writer's guard before it multiplies in 64 bits. */
  predicate EntryOverflows(scale: int, value: nat) {
    value != 0 && INT64_MAX / value < scale
  }

  /** The guard of both sides before the scale grows. */
  predicate ScaleOverflows(scale: int, count: nat) {
    2 * count - 1 <= 0 || INT64_MAX / (2 * count - 1) < scale
  }

  /** The parser's guard before it stores 32 bits. */
  predicate EntryTooWide(scale: int, value: nat) {
    INT32_LIMIT / Max(scale, 1) < value
  }

  lemma QuotientBound(a: int, b: int, limit: int)
    requires 0 < a && 0 <= b && 0 <= limit
    ensures b <= limit / a <==> a * b <= limit
  {
    var q := limit / a;
    assert a * q <= limit < a * (q + 1);
    if b <= q {
      MulMonotone(a, b, q);
    } else {
      MulMonotone(a, q + 1, b);
    }
  }

  lemma EntrySteps(scale: int, value: nat)
    requires 0 < scale
    ensures Entry(scale, 0) == 0
    ensures Entry(scale, value + 1) == Entry(scale, value) + scale
    ensures 0 <= Entry(scale, value)
  {
    MulMonotone(scale, 0, value);
  }

  lemma EntryMonotone(scale: int, a: nat, b: nat)
    requires 0 < scale && a <= b
    ensures Entry(scale, a) <= Entry(scale, b)
  {
    MulMonotone(scale, a, b);
  }

  /** The parser's guard is exact, and stricter than the writer's. */
  lemma GuardsAgree(scale: int, value: nat)
    requires 0 < scale
    ensures EntryTooWide(scale, value) <==> INT32_LIMIT < Entry(scale, value)
    ensures EntryOverflows(scale, value) <==> INT64_MAX < Entry(scale, value)
  {
    QuotientBound(scale, value, INT32_LIMIT);
    if value != 0 {
      QuotientBound(value, scale, INT64_MAX);
    }
  }

  /** How many entries from k on equal the expected value. */
  function RunLength(half: seq<int>, k: nat, expected: int): (n: nat)
    requires k <= |half|
    ensures k + n <= |half|
    ensures forall j :: k <= j < k + n ==> half[j] == expected
    ensures k + n < |half| ==> half[k + n] != expected
    decreases |half| - k
  {
    if k == |half| || half[k] != expected then 0 else 1 + RunLength(half, k + 1, expected)
  }

  /** The lengths of the runs 0, scale, 2 * scale, ... from entry k on. */
  function Runs(half: seq<int>, scale: int, k: nat, value: nat): (lens: Result<seq<nat>>)
    requires k <= |half|
    ensures lens.Ok? ==> |lens.value| <= |half| - k && (k < |half| ==> 1 <= |lens.value|)
    decreases |half| - k
  {
    if k == |half| then Ok([])
    else if EntryOverflows(scale, value) then Err(InvalidState)
    else if half[k] != Entry(scale, value) then Err(InvalidState)
    else
      var len := RunLength(half, k, Entry(scale, value));
      var more :- Runs(half, scale, k + len, value + 1);
      Ok([len] + more)
  }

  /** A run is written as its length less one. */
  function LengthOp(len: nat): Operation {
    Operation(SymbolRequest(0, 0, false), len - 1)
  }

  function RunOps(lens: seq<nat>): (ops: seq<Operation>)
    ensures |ops| == |lens|
  {
    if lens == [] then [] else [LengthOp(lens[0])] + RunOps(lens[1..])
  }

  /** A table is written in a scope of its own. */
  function TableOps(lens: seq<nat>): seq<Operation> {
    [BEGIN_SCOPE] + (RunOps(lens) + [END_SCOPE])
  }

  /** What the C++ types of a table set can hold. */
  predicate IsStored(t: QuantTableSet) {
    && IsTableSet(t)
    && t.contextCount < 0x1_0000_0000
    && forall i, j :: 0 <= i < |t.tables| && 0 <= j < |t.tables[i]| ==> -INT32_LIMIT - 1 <= t.tables[i][j] <= INT32_LIMIT
  }

  function HalfOf(t: QuantTableSet, i: nat): (half: seq<int>)
    requires IsTableSet(t) && i < CONTEXT_INPUTS
    ensures |half| == HALF_ENTRIES
  {
    t.tables[i][..HALF_ENTRIES]
  }

  /** The tables from the i-th one on, when the tables before it make up `scale`. */
  function SetOps(t: QuantTableSet, i: nat, scale: int): Result<seq<Operation>>
    requires IsTableSet(t) && i <= CONTEXT_INPUTS
    decreases CONTEXT_INPUTS - i
  {
    if i == CONTEXT_INPUTS then
      // The count is narrowed to 32 bits before it is compared.
      if (scale + 1) / 2 % 0x1_0000_0000 == t.contextCount then Ok([]) else Err(InvalidState)
    else if t.tables[i] != Mirror(HalfOf(t, i)) then Err(InvalidState)
    else
      var lens :- Runs(HalfOf(t, i), scale, 0, 0);
      if ScaleOverflows(scale, |lens|) then Err(InvalidState)
      else Then(TableOps(lens), SetOps(t, i + 1, Widened(scale, |lens|)))
  }

  function Repeat(value: int, n: nat): (s: seq<int>)
    ensures |s| == n && forall i :: 0 <= i < n ==> s[i] == value
  {
    seq(n, _ => value)
  }

  /** Reads runs until the half table is full; a run may overshoot the end, except the first. */
  function ParseRuns(d: Decoder, scale: int, half: seq<int>, value: nat): (r: Result<(seq<int>, nat, Decoder)>)
    requires |half| <= HALF_ENTRIES
    ensures r.Ok? ==> |r.value.0| == HALF_ENTRIES && half <= r.value.0
    ensures r.Ok? && |half| < HALF_ENTRIES ==> r.value.0[|half|] == Entry(scale, value)
    decreases HALF_ENTRIES - |half|
  {
    if |half| == HALF_ENTRIES then Ok((half, value, d))
    else
      var (lenMinusOne, d') :- ReadUnsigned(d);
      var remaining := HALF_ENTRIES - |half|;
      if remaining <= lenMinusOne && |half| == 0 then Err(SyntaxError)
      else if EntryTooWide(scale, value) then Err(SyntaxError)
      else
        var run := Repeat(Entry(scale, value), Min(lenMinusOne + 1, remaining));
        assert (half + run)[|half|] == Entry(scale, value);
        ParseRuns(d', scale, half + run, value + 1)
  }

  /** One table in its own scope. */
  function ParseTable(d: Decoder, scale: int): (r: Result<(seq<int>, nat, Decoder)>)
    ensures r.Ok? ==> |r.value.0| == HALF_ENTRIES
  {
    var (_, inner) :- Read(d, BeginRequest(1));
    var (half, count, after) :- ParseRuns(inner, scale, [], 0);
    var (_, outer) :- Read(after, EndRequest);
    Ok((half, count, outer))
  }

  function ParseSet(d: Decoder, scale: int, tables: seq<seq<int>>): Result<(QuantTableSet, Decoder)>
    requires |tables| <= CONTEXT_INPUTS
    decreases CONTEXT_INPUTS - |tables|
  {
    if |tables| == CONTEXT_INPUTS then
      var count := (scale + 1) / 2;
      if count <= 0 || MAX_CONTEXT_COUNT < count then Err(SyntaxError)
      else Ok((QuantTableSet(tables, count), d))
    else
      var (half, count, d') :- ParseTable(d, scale);
      if ScaleOverflows(scale, count) then Err(SyntaxError)
      else ParseSet(d', Widened(scale, count), tables + [Mirror(half)])
  }

  /** Every entry of a half table lies between its first and its last step. */
  lemma {:induction false} RunsBound(half: seq<int>, scale: int, k: nat, value: nat)
    requires k < |half| && 0 < scale
    requires Runs(half, scale, k, value).Ok?
    ensures var last := value + |Runs(half, scale, k, value).value| - 1;
            && (forall j :: k <= j < |half| ==> Entry(scale, value) <= half[j] <= Entry(scale, last))
            && half[|half| - 1] == Entry(scale, last)
    decreases |half| - k
  {
    hide Entry, EntryOverflows;
    var len := RunLength(half, k, Entry(scale, value));
    if k + len < |half| {
      RunsBound(half, scale, k + len, value + 1);
      EntryMonotone(scale, value, value + 1);
      EntryMonotone(scale, value, value + |Runs(half, scale, k, value).value| - 1);
    }
  }

  /** The next run of a half table, as both sides see it. */
  lemma NextRun(half: seq<int>, scale: int, prefix: seq<int>, value: nat, lens: seq<nat>)
    returns (len: nat, more: seq<nat>, longer: seq<int>)
    requires prefix <= half && |prefix| < |half| && 0 < scale && half[|prefix|] <= INT32_LIMIT
    requires Runs(half, scale, |prefix|, value) == Ok(lens)
    ensures 1 <= len && |longer| == |prefix| + len && longer == prefix + Repeat(Entry(scale, value), len) <= half
    ensures |lens| == 1 + |more| && RunOps(lens) == [LengthOp(len)] + RunOps(more)
    ensures Runs(half, scale, |longer|, value + 1) == Ok(more)
    ensures !EntryTooWide(scale, value)
  {
    hide Entry, EntryTooWide, EntryOverflows;
    len := RunLength(half, |prefix|, Entry(scale, value));
    more := lens[1..];
    longer := prefix + Repeat(Entry(scale, value), len);
    GuardsAgree(scale, value);
  }

  lemma ParseNext(d: Decoder, scale: int, half: seq<int>, value: nat, len: nat, d': Decoder)
    requires |half| + len <= HALF_ENTRIES && 1 <= len
    requires ReadUnsigned(d) == Ok((len - 1, d')) && !EntryTooWide(scale, value)
    ensures ParseRuns(d, scale, half, value) == ParseRuns(d', scale, half + Repeat(Entry(scale, value), len), value + 1)
  {
    hide ReadUnsigned, Repeat, Entry, EntryTooWide;
  }

  lemma TableFull(d: Decoder, scale: int, half: seq<int>, value: nat)
    requires |half| == HALF_ENTRIES
    ensures Runs(half, scale, |half|, value) == Ok([])
    ensures ParseRuns(d, scale, half, value) == Ok((half, value, d))
  {
  }

  lemma {:induction false} RunsReadBack(half: seq<int>, scale: int, prefix: seq<int>, value: nat, lens: seq<nat>,
                                        rest: seq<Operation>, d: Decoder, final: Encoder)
    returns (d': Decoder)
    requires |half| == HALF_ENTRIES && prefix <= half && 0 < scale
    requires forall j :: 0 <= j < |half| ==> half[j] <= INT32_LIMIT
    requires Runs(half, scale, |prefix|, value) == Ok(lens)
    requires Scripted(d, RunOps(lens) + rest, final)
    ensures ParseRuns(d, scale, prefix, value) == Ok((half, value + |lens|, d'))
    ensures Scripted(d', rest, final) && d'.payload == d.payload
    decreases |half| - |prefix|
  {
    hide Scripted, Runs, ParseRuns, ReadUnsigned, Repeat, Entry, EntryTooWide;
    if |prefix| == |half| {
      TableFull(d, scale, half, value);
      assert prefix == half && RunOps(lens) + rest == rest;
      d' := d;
    } else {
      var len, more, longer := NextRun(half, scale, prefix, value, lens);
      AppendAssoc([LengthOp(len)], RunOps(more), rest);
      assert LengthOp(len) == Number(len - 1);
      var d1 := NumberReadsBack(len - 1, RunOps(more) + rest, d, final);
      ParseNext(d, scale, prefix, value, len, d1);
      d' := RunsReadBack(half, scale, longer, value + 1, more, rest, d1, final);
    }
  }

  lemma TableReadsBack(half: seq<int>, scale: int, lens: seq<nat>, rest: seq<Operation>, d: Decoder, final: Encoder)
    returns (d': Decoder)
    requires |half| == HALF_ENTRIES && 0 < scale
    requires forall j :: 0 <= j < |half| ==> half[j] <= INT32_LIMIT
    requires Runs(half, scale, 0, 0) == Ok(lens)
    requires Scripted(d, TableOps(lens) + rest, final)
    ensures ParseTable(d, scale) == Ok((half, |lens|, d'))
    ensures Scripted(d', rest, final) && d'.payload == d.payload
  {
    hide Scripted, Read, ParseRuns, Runs, RunOps;
    var ops := RunOps(lens);
    assert TableOps(lens) + rest == [BEGIN_SCOPE] + (ops + ([END_SCOPE] + rest));
    assert ([BEGIN_SCOPE] + (ops + ([END_SCOPE] + rest)))[1..] == ops + ([END_SCOPE] + rest);
    NextOperation(d, [BEGIN_SCOPE] + (ops + ([END_SCOPE] + rest)), final);
    var d1 := Read(d, BeginRequest(1)).value.1;
    var d2 := RunsReadBack(half, scale, [], 0, lens, [END_SCOPE] + rest, d1, final);
    assert ([END_SCOPE] + rest)[1..] == rest;
    NextOperation(d2, [END_SCOPE] + rest, final);
    d' := Read(d2, EndRequest).value.1;
  }

  /** Entries of 32 bits keep the scale far below any overflow. */
  const MAX_SCALE: int := 3 * INT32_LIMIT

  lemma WidenedBy(scale: int, count: nat)
    requires 0 < scale && 1 <= count
    ensures Widened(scale, count) == scale + 2 * Entry(scale, count - 1)
  {
  }

  lemma NextScale(scale: int, n: nat)
    requires 0 < scale <= MAX_SCALE && 1 <= n <= 128 && Entry(scale, n - 1) <= INT32_LIMIT
    ensures 0 < Widened(scale, n) <= MAX_SCALE
    ensures !ScaleOverflows(scale, n)
  {
    WidenedBy(scale, n);
    EntrySteps(scale, n - 1);
    if n > 1 {
      EntryMonotone(scale, 1, n - 1);
    }
    QuotientBound(2 * n - 1, scale, INT64_MAX);
  }

  lemma ScaleStaysSmall(t: QuantTableSet, i: nat, scale: int)
    requires IsStored(t) && i < CONTEXT_INPUTS && 0 < scale <= MAX_SCALE
    requires Runs(HalfOf(t, i), scale, 0, 0).Ok?
    ensures var n := |Runs(HalfOf(t, i), scale, 0, 0).value|;
            1 <= n <= 128 && 0 < Widened(scale, n) <= MAX_SCALE && !ScaleOverflows(scale, n)
  {
    hide Runs, Entry, Widened, ScaleOverflows;
    var n := |Runs(HalfOf(t, i), scale, 0, 0).value|;
    RunsBound(HalfOf(t, i), scale, 0, 0);
    assert HalfOf(t, i)[127] == t.tables[i][127];
    NextScale(scale, n);
  }

  /** A written table set is parsed back exactly if its contexts are not too many, and is
      refused if they are.  Narrowing the count never hides an excess. */
  lemma {:induction false} SetReadsBack(t: QuantTableSet, i: nat, scale: int, ops: seq<Operation>, rest: seq<Operation>,
                                        d: Decoder, final: Encoder)
    returns (d': Decoder)
    requires IsStored(t) && i <= CONTEXT_INPUTS && 0 < scale <= MAX_SCALE
    requires SetOps(t, i, scale) == Ok(ops)
    requires Scripted(d, ops + rest, final)
    ensures ParseSet(d, scale, t.tables[..i]) ==
            if t.contextCount <= MAX_CONTEXT_COUNT then Ok((t, d')) else Err(SyntaxError)
    ensures Scripted(d', rest, final) && d'.payload == d.payload
    decreases CONTEXT_INPUTS - i
  {
    hide Scripted, Runs, TableOps, ParseTable, Entry, Widened, ScaleOverflows;
    if i == CONTEXT_INPUTS {
      assert t.tables[..i] == t.tables && ops + rest == rest;
      d' := d;
    } else {
      var half := HalfOf(t, i);
      var lens := Runs(half, scale, 0, 0).value;
      ScaleStaysSmall(t, i, scale);
      var more := SetOps(t, i + 1, Widened(scale, |lens|)).value;
      AppendAssoc(TableOps(lens), more, rest);
      forall j | 0 <= j < |half|
        ensures half[j] <= INT32_LIMIT
      {
        assert half[j] == t.tables[i][j];
      }
      var d1 := TableReadsBack(half, scale, lens, more + rest, d, final);
      assert t.tables[..i] + [Mirror(half)] == t.tables[..i + 1];
      d' := SetReadsBack(t, i + 1, Widened(scale, |lens|), more, rest, d1, final);
    }
  }

  /** A run put together by the parser is a run for the writer. */
  lemma RunParsed(full: seq<int>, scale: int, k: nat, len: nat, value: nat)
    requires 0 < scale && 1 <= len && k + len <= |full|
    requires !EntryTooWide(scale, value)
    requires forall j :: k <= j < k + len ==> full[j] == Entry(scale, value)
    requires k + len < |full| ==> full[k + len] == Entry(scale, value + 1)
    requires Runs(full, scale, k + len, value + 1).Ok?
    ensures Runs(full, scale, k, value) == Ok([len] + Runs(full, scale, k + len, value + 1).value)
    ensures Entry(scale, value) <= INT32_LIMIT
  {
    hide Entry, EntryTooWide, EntryOverflows;
    GuardsAgree(scale, value);
    EntrySteps(scale, value);
    RunLengthIs(full, k, len, Entry(scale, value));
  }

  lemma {:induction false} ParsedRuns(d: Decoder, scale: int, half: seq<int>, value: nat)
    requires |half| <= HALF_ENTRIES && 0 < scale
    requires ParseRuns(d, scale, half, value).Ok?
    ensures var (full, count, _) := ParseRuns(d, scale, half, value).value;
            && Runs(full, scale, |half|, value).Ok?
            && count == value + |Runs(full, scale, |half|, value).value|
            && (forall j :: |half| <= j < HALF_ENTRIES ==> full[j] <= INT32_LIMIT)
    decreases HALF_ENTRIES - |half|
  {
    hide RangeScript.ReadSymbol, RunLength, Entry, EntryTooWide, EntryOverflows;
    if |half| < HALF_ENTRIES {
      var (lenMinusOne, d') := ReadUnsigned(d).value;
      var len := Min(lenMinusOne + 1, HALF_ENTRIES - |half|);
      var run := Repeat(Entry(scale, value), len);
      var longer := half + run;
      assert ParseRuns(d, scale, half, value) == ParseRuns(d', scale, longer, value + 1);
      ParsedRuns(d', scale, longer, value + 1);
      var (full, _, _) := ParseRuns(d', scale, longer, value + 1).value;
      forall j | |half| <= j < |half| + len
        ensures full[j] == Entry(scale, value)
      {
        assert full[j] == longer[j] == run[j - |half|];
      }
      RunParsed(full, scale, |half|, len, value);
    }
  }

  lemma {:induction false} RunLengthIs(half: seq<int>, k: nat, len: nat, expected: int)
    requires k + len <= |half|
    requires forall j :: k <= j < k + len ==> half[j] == expected
    requires k + len < |half| ==> half[k + len] != expected
    ensures RunLength(half, k, expected) == len
    decreases len
  {
    if len > 0 {
      RunLengthIs(half, k + 1, len - 1, expected);
    }
  }

  predicate Fits32(table: seq<int>) {
    forall j :: 0 <= j < |table| ==> -INT32_LIMIT - 1 <= table[j] <= INT32_LIMIT
  }

  lemma MirrorFits(half: seq<int>)
    requires |half| == HALF_ENTRIES && forall j :: 0 <= j < |half| ==> 0 <= half[j] <= INT32_LIMIT
    ensures Fits32(Mirror(half))
  {
  }

  lemma ParsedTable(d: Decoder, scale: int)
    requires 0 < scale <= MAX_SCALE
    requires ParseTable(d, scale).Ok?
    ensures var (half, count, _) := ParseTable(d, scale).value;
            && Runs(half, scale, 0, 0).Ok? && count == |Runs(half, scale, 0, 0).value| && 1 <= count <= 128
            && Fits32(Mirror(half))
            && 0 < Widened(scale, count) <= MAX_SCALE && !ScaleOverflows(scale, count)
  {
    hide Read, ParseRuns, Runs, Entry, Widened, ScaleOverflows;
    EntrySteps(scale, 0);
    var (_, inner) := Read(d, BeginRequest(1)).value;
    var (half, count, _) := ParseTable(d, scale).value;
    ParsedRuns(inner, scale, [], 0);
    RunsBound(half, scale, 0, 0);
    MirrorFits(half);
    NextScale(scale, count);
  }

  /** Whatever the parser accepts is a set that can be stored and that the writer accepts as well;
      the overflow check is never what makes it fail. */
  lemma {:induction false} ParsedSet(d: Decoder, scale: int, tables: seq<seq<int>>)
    requires |tables| <= CONTEXT_INPUTS && 0 < scale <= MAX_SCALE
    requires forall i :: 0 <= i < |tables| ==> |tables[i]| == TABLE_ENTRIES && Fits32(tables[i])
    requires ParseSet(d, scale, tables).Ok?
    ensures var (t, _) := ParseSet(d, scale, tables).value;
            && IsStored(t) && tables <= t.tables && 1 <= t.contextCount <= MAX_CONTEXT_COUNT
            && SetOps(t, |tables|, scale).Ok?
    decreases CONTEXT_INPUTS - |tables|
  {
    hide ParseTable, Runs, Widened, ScaleOverflows, Mirror;
    if |tables| == CONTEXT_INPUTS {
      var t := ParseSet(d, scale, tables).value.0;
      assert forall i :: 0 <= i < |t.tables| ==> Fits32(t.tables[i]);
    } else {
      var (half, count, d') := ParseTable(d, scale).value;
      ParsedTable(d, scale);
      ParsedSet(d', Widened(scale, count), tables + [Mirror(half)]);
      var t := ParseSet(d, scale, tables).value.0;
      assert t.tables[|tables|] == (tables + [Mirror(half)])[|tables|];
      MirrorKeepsHalf(half);
    }
  }

  lemma {:induction false} MirroredBound(half: seq<int>, bound: int, j: nat)
    requires |half| == HALF_ENTRIES && j < TABLE_ENTRIES
    requires forall k :: 0 <= k < |half| ==> 0 <= half[k] <= bound
    ensures -bound <= Mirror(half)[j] <= bound
  {
  }

  lemma FoldedStep(t: QuantTableSet, g: seq<int>, i: nat)
    requires IsTableSet(t) && |g| == CONTEXT_INPUTS && i < CONTEXT_INPUTS
    ensures Folded(t, g, i + 1) == Folded(t, g, i) + t.tables[i][g[i] % 256]
  {
  }

  /** No entry of the i-th table exceeds its last step, and the steps telescope. */
  lemma DigitBound(t: QuantTableSet, i: nat, scale: int, j: nat) returns (next: int)
    requires IsStored(t) && i < CONTEXT_INPUTS && 0 < scale <= MAX_SCALE && j < TABLE_ENTRIES
    requires SetOps(t, i, scale).Ok?
    ensures 0 < next <= MAX_SCALE && SetOps(t, i + 1, next).Ok?
    ensures 2 * Abs(t.tables[i][j]) <= next - scale
  {
    hide Runs, TableOps, Mirror, Entry, Widened, ScaleOverflows;
    var half := HalfOf(t, i);
    ScaleStaysSmall(t, i, scale);
    RunsBound(half, scale, 0, 0);
    var n := |Runs(half, scale, 0, 0).value|;
    next := Widened(scale, n);
    WidenedBy(scale, n);
    EntrySteps(scale, 0);
    MirroredBound(half, Entry(scale, n - 1), j);
  }

  /** The tables are digits of a balanced mixed-radix number: the sum of the first i entries
      stays below half the scale. */
  lemma {:induction false} FoldedBound(t: QuantTableSet, g: seq<int>, i: nat, scale: int)
    requires IsStored(t) && |g| == CONTEXT_INPUTS && i <= CONTEXT_INPUTS && 0 < scale <= MAX_SCALE
    requires SetOps(t, i, scale).Ok?
    requires 2 * Abs(Folded(t, g, i)) <= scale - 1
    ensures Abs(Folded(t, g, CONTEXT_INPUTS)) < t.contextCount
    decreases CONTEXT_INPUTS - i
  {
    hide Runs, TableOps, Mirror, Folded, Widened, ScaleOverflows;
    if i < CONTEXT_INPUTS {
      var next := DigitBound(t, i, scale, g[i] % 256);
      hide SetOps;
      FoldedStep(t, g, i);
      FoldedBound(t, g, i + 1, next);
    }
  }

  /** A table set that can be written covers every neighbourhood: no sample, however extreme,
      derives a context outside the set. */
  lemma ContextsCovered(t: QuantTableSet, n: Neighbors)
    requires IsStored(t) && SetOps(t, 0, 1).Ok?
    ensures DeriveContext(t, n).Ok?
  {
    hide SetOps;
    FoldedBound(t, Gradients(n), 0, 1);
  }
}
