// A configuration record that can be written but not parsed: a table set with too many contexts.

module WideTables {
  import opened Basics
  import opened RangeInterval
  import opened RangeSymbols
  import opened RangeContexts
  import opened RangeScript
  import opened StateTransition
  import opened SteadyCoding
  import opened SampleModel
  import opened StreamModel
  import opened QuantTables
  import opened Configuration
  import opened ConfigurationRoundTrip
  import opened ConfigurationRecord
  import opened Crc
  import opened CodableSlice
  import opened EncoderProfile

  /** Half a table with a step at every entry. */
  function Stairs(scale: int): (half: seq<int>)
    ensures |half| == HALF_ENTRIES
  {
    seq(HALF_ENTRIES, k requires 0 <= k < HALF_ENTRIES => Entry(scale, k))
  }

  /** Half a table with one step behind the first entry. */
  function Threshold(scale: int): (half: seq<int>)
    ensures |half| == HALF_ENTRIES
  {
    seq(HALF_ENTRIES, k => if k == 0 then 0 else scale)
  }

  function Flat(): (half: seq<int>)
    ensures |half| == HALF_ENTRIES
  {
    seq(HALF_ENTRIES, _ => 0)
  }

  /** Two tables of 255 steps and one of three: 97538 contexts. */
  function WideSet(): (t: QuantTableSet)
    ensures IsTableSet(t)
  {
    QuantTableSet([Mirror(Stairs(1)), Mirror(Stairs(255)), Mirror(Threshold(65025)), Mirror(Flat()), Mirror(Flat())], 97538)
  }

  function WideStream(): StreamParameters {
    StreamParameters(3, 4, RangeMode, 2, 1, 8, 0, false, false, 0, 0, 1, 1, [WideSet()], [], DefaultTransition(), false, false)
  }

  /** Stairs are runs of one. */
  lemma {:induction false} StairRuns(scale: int, k: nat)
    requires scale == 1 || scale == 255
    requires k <= HALF_ENTRIES
    ensures Runs(Stairs(scale), scale, k, k).Ok? && |Runs(Stairs(scale), scale, k, k).value| == HALF_ENTRIES - k
    decreases HALF_ENTRIES - k
  {
    hide Runs, RunLength, Entry, EntryOverflows;
    if k < HALF_ENTRIES {
      StairEntries(scale, k);
      RunLengthIs(Stairs(scale), k, 1, Entry(scale, k));
      StairRuns(scale, k + 1);
      NextRunOfOne(Stairs(scale), scale, k);
    } else {
      NoMoreRuns(Stairs(scale), scale, k);
    }
  }

  lemma NoMoreRuns(half: seq<int>, scale: int, value: nat)
    ensures Runs(half, scale, |half|, value) == Ok([])
  {
  }

  lemma StairEntries(scale: int, k: nat)
    requires (scale == 1 || scale == 255) && k < HALF_ENTRIES
    ensures Entry(scale, k) < Entry(scale, k + 1) && !EntryOverflows(scale, k)
  {
  }

  lemma NextRunOfOne(half: seq<int>, scale: int, k: nat)
    requires k < |half| && half[k] == Entry(scale, k) && !EntryOverflows(scale, k) && RunLength(half, k, Entry(scale, k)) == 1
    requires Runs(half, scale, k + 1, k + 1).Ok?
    ensures Runs(half, scale, k, k) == Ok([1] + Runs(half, scale, k + 1, k + 1).value)
  {
    hide Entry, EntryOverflows, RunLength;
  }

  lemma ThresholdRuns()
    ensures Runs(Threshold(65025), 65025, 0, 0) == Ok([1, HALF_ENTRIES - 1])
  {
    var half := Threshold(65025);
    RunLengthIs(half, 0, 1, 0);
    RunLengthIs(half, 1, HALF_ENTRIES - 1, 65025);
    assert Runs(half, 65025, HALF_ENTRIES, 2) == Ok([]);
    assert Runs(half, 65025, 1, 1) == Ok([HALF_ENTRIES - 1] + []);
    assert [1] + [HALF_ENTRIES - 1] == [1, HALF_ENTRIES - 1] && [HALF_ENTRIES - 1] + [] == [HALF_ENTRIES - 1];
  }

  lemma FlatRuns(scale: int)
    ensures Runs(Flat(), scale, 0, 0) == Ok([HALF_ENTRIES])
  {
    RunLengthIs(Flat(), 0, HALF_ENTRIES, 0);
    assert Runs(Flat(), scale, HALF_ENTRIES, 1) == Ok([]);
    assert [HALF_ENTRIES] + [] == [HALF_ENTRIES];
  }

  lemma HalfMirrored(half: seq<int>, i: nat)
    requires i < CONTEXT_INPUTS && |half| == HALF_ENTRIES && WideSet().tables[i] == Mirror(half)
    ensures HalfOf(WideSet(), i) == half
  {
    MirrorKeepsHalf(half);
  }

  /** One table is written, and the next ones are. */
  lemma TableCodes(i: nat, half: seq<int>, scale: int, lens: seq<nat>)
    requires i < CONTEXT_INPUTS && |half| == HALF_ENTRIES && WideSet().tables[i] == Mirror(half)
    requires Runs(half, scale, 0, 0) == Ok(lens) && !ScaleOverflows(scale, |lens|)
    requires SetOps(WideSet(), i + 1, Widened(scale, |lens|)).Ok?
    ensures SetOps(WideSet(), i, scale).Ok?
  {
    hide WideSet, Mirror, Runs, Widened, ScaleOverflows, TableOps;
    HalfMirrored(half, i);
  }

  /** The writer takes the set. */
  lemma WideCodes()
    ensures SetOps(WideSet(), 0, 1).Ok?
  {
    hide SetOps, Runs, Mirror, Stairs, Threshold, Flat;
    WideEnd();
    FlatRuns(195075);
    TableCodes(4, Flat(), 195075, [HALF_ENTRIES]);
    TableCodes(3, Flat(), 195075, [HALF_ENTRIES]);
    ThresholdRuns();
    TableCodes(2, Threshold(65025), 65025, [1, HALF_ENTRIES - 1]);
    StairRuns(255, 0);
    TableCodes(1, Stairs(255), 255, Runs(Stairs(255), 255, 0, 0).value);
    StairRuns(1, 0);
    TableCodes(0, Stairs(1), 1, Runs(Stairs(1), 1, 0, 0).value);
  }

  lemma WideEnd()
    ensures SetOps(WideSet(), CONTEXT_INPUTS, 195075).Ok?
  {
    hide Mirror, Stairs, Threshold, Flat;
  }

  lemma WideStored()
    ensures IsStored(WideSet()) && WideSet().contextCount > MAX_CONTEXT_COUNT
  {
  }

  /** A record of this stream is written, and refused when it is parsed. */
  lemma WideRecordRefused() returns (body: seq<byte>, record: seq<byte>)
    ensures IsStoredStream(WideStream()) && IsRecord(WideStream(), body, record)
    ensures ParseRecord(record) == Err(SyntaxError)
  {
    hide WideSet, DefaultTransition, IsStored, SetOps, HeadOps, FormatOps, GridOps, StatesOps, EndingOps, WriteAll, ParseRecord, Remainder, BigEndian;
    WideStored();
    WideCodes();
    var s := WideStream();
    assert s.quantTableSets == [WideSet()];
    assert SetsOps(s.quantTableSets, 1) == Ok([]);
    assert ProfileError(s).None?;
    ParametersWrite(s);
    RecordStartSteady();
    var final := WriteAll(RecordStart(), ParameterOps(s).value).value;
    body := PlainExists(final.interval);
    record := body + BigEndian(Remainder(ZERO, body));
    RecordReadsBack(s, body, record);
    assert !IsParsable(s.quantTableSets, 0);
  }
}
