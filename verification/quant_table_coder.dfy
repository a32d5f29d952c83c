// The loops that write and parse quantization tables.

module QuantTableCoding {
  import opened Basics
  import opened SampleModel
  import opened RangeInterval
  import opened RangeSymbols
  import opened RangeContexts
  import opened RangeScript
  import opened RangeEncoding
  import opened RangeDecoding
  import opened QuantTables

  /** Compares the second half of a table with the mirror image of its first half. */
  method ValidateMirror(table: seq<int>) returns (valid: bool)
    requires |table| == TABLE_ENTRIES
    ensures valid <==> table == Mirror(table[..HALF_ENTRIES])
  {
    ghost var image := Mirror(table[..HALF_ENTRIES]);
    for mirror := 1 to 128
      invariant forall k :: 1 <= k < mirror ==> table[256 - k] == -table[k]
    {
      if table[256 - mirror] != -table[mirror] {
        assert image[256 - mirror] == -table[mirror];
        return false;
      }
    }
    if table[128] != -table[127] {
      assert image[128] == -table[127];
      return false;
    }
    assert forall k :: 128 < k < 256 ==> table[k] == -table[256 - k];
    assert table == image;
    valid := true;
  }

  function OpsOf(lens: Result<seq<nat>>): Result<seq<Operation>> {
    match lens
    case Err(error) => Err(error)
    case Ok(list) => Ok(RunOps(list))
  }

  /** How many steps the table will have had, if its runs are accepted. */
  function Steps(half: seq<int>, scale: int, k: nat, value: nat): Option<nat>
    requires k <= |half|
  {
    match Runs(half, scale, k, value)
    case Err(_) => None
    case Ok(lens) => Some(value + |lens|)
  }

  lemma OpsOfFirst(half: seq<int>, scale: int, k: nat, value: nat) returns (len: nat)
    requires k < |half| && half[k] == Entry(scale, value) && !EntryOverflows(scale, value)
    ensures len == RunLength(half, k, Entry(scale, value)) && 1 <= len && k + len <= |half|
    ensures OpsOf(Runs(half, scale, k, value)) == Then([LengthOp(len)], OpsOf(Runs(half, scale, k + len, value + 1)))
    ensures Steps(half, scale, k, value) == Steps(half, scale, k + len, value + 1)
  {
    hide Entry, EntryOverflows, LengthOp;
    len := RunLength(half, k, Entry(scale, value));
    var more := Runs(half, scale, k + len, value + 1);
    if more.Ok? {
      assert ([len] + more.value)[1..] == more.value;
    }
  }

  method MeasureRun(half: seq<int>, k: nat, expected: int) returns (len: nat)
    requires k <= |half|
    ensures len == RunLength(half, k, expected)
  {
    len := 0;
    while k + len < |half| && half[k + len] == expected
      invariant k + len <= |half|
      invariant len + RunLength(half, k + len, expected) == RunLength(half, k, expected)
    {
      len := len + 1;
    }
  }

  /** Writes the length of the run at entry k. */
  method WriteLength(writer: RangeEncoder, half: seq<int>, scale: int, k: nat, value: nat) returns (r: Result<nat>)
    requires writer.Valid() && writer.Writable()
    requires k < |half| && half[k] == Entry(scale, value) && !EntryOverflows(scale, value)
    modifies writer
    ensures writer.Valid() && writer.Writable()
    ensures r.Err? ==> Attempt(old(writer.Value()), OpsOf(Runs(half, scale, k, value))) == None
    ensures r.Ok? ==> 1 <= r.value && k + r.value <= |half|
    ensures r.Ok? ==> Steps(half, scale, k + r.value, value + 1) == Steps(half, scale, k, value)
    ensures r.Ok? ==>
              Attempt(writer.Value(), OpsOf(Runs(half, scale, k + r.value, value + 1)))
              == Attempt(old(writer.Value()), OpsOf(Runs(half, scale, k, value)))
  {
    hide Entry, EntryOverflows, RangeScript.WriteSymbol, RunLength, Runs, OpsOf, Steps;
    ghost var first := OpsOfFirst(half, scale, k, value);
    var len := MeasureRun(half, k, Entry(scale, value));
    AttemptThen(writer.Value(), [LengthOp(len)], OpsOf(Runs(half, scale, k + len, value + 1)));
    WriteOne(writer.Value(), LengthOp(len));
    var status := writer.WriteUnsigned(0, 0, len - 1);
    r := if status.Ok? then Ok(len) else Err(status.error);
  }

  lemma RunsRefused(e: Encoder, half: seq<int>, scale: int, k: nat, value: nat)
    requires k < |half| && (EntryOverflows(scale, value) || half[k] != Entry(scale, value))
    ensures Attempt(e, OpsOf(Runs(half, scale, k, value))) == None
  {
    hide Entry, EntryOverflows;
  }

  lemma RunsComplete(e: Encoder, half: seq<int>, scale: int, value: nat)
    ensures Attempt(e, OpsOf(Runs(half, scale, |half|, value))) == Some(e)
    ensures Steps(half, scale, |half|, value) == Some(value)
  {
  }

  /** Writes the run lengths of a half table; hands back how many steps it has. */
  method WriteRuns(writer: RangeEncoder, half: seq<int>, scale: int) returns (r: Result<nat>)
    requires writer.Valid() && writer.Writable()
    modifies writer
    ensures writer.Valid() && writer.Writable()
    ensures r.Ok? <==> Attempt(old(writer.Value()), OpsOf(Runs(half, scale, 0, 0))).Some?
    ensures r.Ok? ==> Attempt(old(writer.Value()), OpsOf(Runs(half, scale, 0, 0))) == Some(writer.Value())
    ensures r.Ok? ==> Steps(half, scale, 0, 0) == Some(r.value)
  {
    hide Entry, EntryOverflows, Runs, OpsOf, Steps, Attempt;
    var k: nat := 0;
    var value: nat := 0;
    ghost var goal := Attempt(writer.Value(), OpsOf(Runs(half, scale, 0, 0)));
    while k < |half|
      invariant k <= |half| && writer.Valid() && writer.Writable()
      invariant Attempt(writer.Value(), OpsOf(Runs(half, scale, k, value))) == goal
      invariant Steps(half, scale, k, value) == Steps(half, scale, 0, 0)
      decreases |half| - k
    {
      if EntryOverflows(scale, value) {
        RunsRefused(writer.Value(), half, scale, k, value);
        return Err(InvalidState);
      }
      if half[k] != Entry(scale, value) {
        RunsRefused(writer.Value(), half, scale, k, value);
        return Err(InvalidState);
      }
      var len := WriteLength(writer, half, scale, k, value);
      if len.Err? {
        return Err(len.error);
      }
      k, value := k + len.value, value + 1;
    }
    RunsComplete(writer.Value(), half, scale, value);
    r := Ok(value);
  }

  /** One table, in a scope of its own; the scope is closed even after a failure. */
  method WriteTable(writer: RangeEncoder, t: QuantTableSet, i: nat, scale: int) returns (r: Result<nat>)
    requires writer.Valid() && writer.Writable()
    requires IsTableSet(t) && i < CONTEXT_INPUTS
    modifies writer
    ensures writer.Valid() && writer.Writable()
    ensures r.Ok? <==>
              && t.tables[i] == Mirror(HalfOf(t, i)) && Runs(HalfOf(t, i), scale, 0, 0).Ok?
              && WriteAll(old(writer.Value()), TableOps(Runs(HalfOf(t, i), scale, 0, 0).value)).Ok?
    ensures r.Ok? ==>
              && r.value == |Runs(HalfOf(t, i), scale, 0, 0).value|
              && WriteAll(old(writer.Value()), TableOps(Runs(HalfOf(t, i), scale, 0, 0).value)) == Ok(writer.Value())
  {
    hide Runs, Mirror, RunOps;
    ghost var lens := Runs(HalfOf(t, i), scale, 0, 0);
    ghost var start := writer.Value();
    if lens.Ok? {
      ScopeInSteps(start, RunOps(lens.value));
    }
    var status := writer.BeginIndependentScalarContexts(1);
    if status.Err? {
      return Err(status.error);
    }
    var mirrored := ValidateMirror(t.tables[i]);
    var count: Result<nat> := Err(InvalidState);
    if mirrored {
      count := WriteRuns(writer, HalfOf(t, i), scale);
    }
    status := writer.EndIndependentScalarContexts();
    if count.Err? {
      return count;
    }
    if status.Err? {
      return Err(status.error);
    }
    r := count;
  }

  /** The five tables; the number of contexts must come out as stored. */
  method WriteTableSet(writer: RangeEncoder, t: QuantTableSet) returns (status: Status)
    requires writer.Valid() && writer.Writable()
    requires IsTableSet(t)
    modifies writer
    ensures writer.Valid() && writer.Writable()
    ensures status.Ok? <==> Attempt(old(writer.Value()), SetOps(t, 0, 1)).Some?
    ensures status.Ok? ==> Attempt(old(writer.Value()), SetOps(t, 0, 1)) == Some(writer.Value())
  {
    hide Runs, Mirror, TableOps, Widened, ScaleOverflows;
    var scale: int := 1;
    ghost var goal := Attempt(writer.Value(), SetOps(t, 0, 1));
    for i := 0 to CONTEXT_INPUTS
      invariant writer.Valid() && writer.Writable()
      invariant Attempt(writer.Value(), SetOps(t, i, scale)) == goal
    {
      ghost var lens := Runs(HalfOf(t, i), scale, 0, 0);
      if lens.Ok? {
        AttemptThen(writer.Value(), TableOps(lens.value), SetOps(t, i + 1, Widened(scale, |lens.value|)));
      }
      var count := WriteTable(writer, t, i, scale);
      if count.Err? {
        return Err(count.error);
      }
      if ScaleOverflows(scale, count.value) {
        return Err(InvalidState);
      }
      scale := Widened(scale, count.value);
    }
    if t.contextCount != (scale + 1) / 2 % 0x1_0000_0000 {
      return Err(InvalidState);
    }
    status := Ok(());
  }

  /** Fills a half table from run lengths; hands back how many steps it has. */
  method ReadRuns(reader: RangeCoder, scale: int) returns (r: Result<nat>, half: seq<int>)
    requires reader.Valid() && reader.initialized
    modifies reader
    ensures reader.Valid() && reader.initialized
    ensures match ParseRuns(old(reader.Value()), scale, [], 0)
            case Err(error) => r == Err(error)
            case Ok((table, count, d)) => r == Ok(count) && half == table && reader.Value() == d
  {
    hide RangeScript.ReadUnsigned, Entry, EntryTooWide;
    half := [];
    var value: nat := 0;
    ghost var goal := ParseRuns(reader.Value(), scale, [], 0);
    while |half| < HALF_ENTRIES
      invariant |half| <= HALF_ENTRIES && reader.Valid() && reader.initialized
      invariant ParseRuns(reader.Value(), scale, half, value) == goal
      decreases HALF_ENTRIES - |half|
    {
      var lenMinusOne := reader.ReadUnsigned();
      if lenMinusOne.Err? {
        return Err(lenMinusOne.error), half;
      }
      var remaining := HALF_ENTRIES - |half|;
      if lenMinusOne.value >= remaining && |half| == 0 {
        return Err(SyntaxError), half;
      }
      if EntryTooWide(scale, value) {
        return Err(SyntaxError), half;
      }
      half := half + Repeat(Entry(scale, value), Min(lenMinusOne.value + 1, remaining));
      value := value + 1;
    }
    r := Ok(value);
  }

  method ReadTable(reader: RangeCoder, scale: int) returns (r: Result<nat>, half: seq<int>)
    requires reader.Valid() && reader.initialized
    modifies reader
    ensures reader.Valid() && reader.initialized
    ensures match ParseTable(old(reader.Value()), scale)
            case Err(_) => r.Err?
            case Ok((table, count, d)) => r == Ok(count) && half == table && reader.Value() == d
  {
    hide ParseRuns;
    half := [];
    var status := reader.BeginIndependentScalarContexts(1);
    if status.Err? {
      return Err(status.error), half;
    }
    r, half := ReadRuns(reader, scale);
    status := reader.EndIndependentScalarContexts();
    if r.Ok? && status.Err? {
      r := Err(status.error);
    }
  }

  method ReadTableSet(reader: RangeCoder) returns (r: Result<QuantTableSet>)
    requires reader.Valid() && reader.initialized
    modifies reader
    ensures reader.Valid() && reader.initialized
    ensures match ParseSet(old(reader.Value()), 1, [])
            case Err(_) => r.Err?
            case Ok((t, d)) => r == Ok(t) && reader.Value() == d
  {
    hide ParseTable, Mirror, Widened, ScaleOverflows;
    var scale: int := 1;
    var tables: seq<seq<int>> := [];
    ghost var goal := ParseSet(reader.Value(), 1, []);
    for i := 0 to CONTEXT_INPUTS
      invariant |tables| == i && reader.Valid() && reader.initialized
      invariant goal.Ok? ==> ParseSet(reader.Value(), scale, tables) == goal
      invariant goal.Err? ==> ParseSet(reader.Value(), scale, tables).Err?
    {
      var count, half := ReadTable(reader, scale);
      if count.Err? {
        return Err(count.error);
      }
      if ScaleOverflows(scale, count.value) {
        return Err(SyntaxError);
      }
      scale := Widened(scale, count.value);
      tables := tables + [Mirror(half)];
    }
    var contextCount := (scale + 1) / 2;
    if contextCount <= 0 || contextCount > MAX_CONTEXT_COUNT {
      return Err(SyntaxError);
    }
    r := Ok(QuantTableSet(tables, contextCount));
  }
}
