// What the run lengths of a quantization table say about its entries.

module TableLayout {
  import opened Basics
  import opened RangeSymbols
  import opened RangeScript
  import opened SampleModel
  import opened QuantTables

  /** Where run j begins. */
  function Start(lens: seq<nat>, j: nat): nat
    requires j <= |lens|
  {
    if j == 0 then 0 else Start(lens, j - 1) + lens[j - 1]
  }

  lemma {:induction false} StartAfterFirst(len: nat, lens: seq<nat>, j: nat)
    requires j <= |lens|
    ensures Start([len] + lens, j + 1) == len + Start(lens, j)
  {
    if j > 0 {
      StartAfterFirst(len, lens, j - 1);
    } else {
      assert Start([len] + lens, 0) == 0;
    }
  }

  /** From entry k on, the runs fill half a table: run j holds the multiple value + j of the scale. */
  predicate AreRuns(half: seq<int>, scale: int, k: nat, value: nat, lens: seq<nat>) {
    && k + Start(lens, |lens|) == |half|
    && (forall j :: 0 <= j < |lens| ==> 1 <= lens[j])
    && forall j :: 0 <= j < |lens| ==> IsRunOf(half, k + Start(lens, j), lens[j], Multiple(scale, value + j))
  }

  function Multiple(scale: int, n: nat): int {
    scale * n
  }

  predicate IsRunOf(half: seq<int>, at: nat, len: nat, entry: int) {
    at + len <= |half| && forall x :: at <= x < at + len ==> half[x] == entry
  }

  lemma StartsAtZero(lens: seq<nat>)
    ensures Start(lens, 0) == 0
  {
  }

  lemma RunBeforeAt(half: seq<int>, scale: int, k: nat, value: nat, len: nat, lens: seq<nat>, j: nat)
    requires 1 <= len && IsRunOf(half, k, len, Multiple(scale, value)) && j <= |lens|
    requires AreRuns(half, scale, k + len, value + 1, lens)
    ensures var all := [len] + lens; 1 <= all[j] && IsRunOf(half, k + Start(all, j), all[j], Multiple(scale, value + j))
  {
    hide IsRunOf, Multiple, Start;
    var all := [len] + lens;
    if j > 0 {
      StartAfterFirst(len, lens, j - 1);
      assert all[j] == lens[j - 1];
      assert IsRunOf(half, k + len + Start(lens, j - 1), lens[j - 1], Multiple(scale, value + 1 + (j - 1)));
    } else {
      StartsAtZero(all);
    }
  }

  lemma RunBefore(half: seq<int>, scale: int, k: nat, value: nat, len: nat, lens: seq<nat>)
    requires 1 <= len && IsRunOf(half, k, len, Multiple(scale, value))
    requires AreRuns(half, scale, k + len, value + 1, lens)
    ensures AreRuns(half, scale, k, value, [len] + lens)
  {
    hide IsRunOf, Multiple, Start;
    var all := [len] + lens;
    StartAfterFirst(len, lens, |lens|);
    forall j: nat | j < |all|
      ensures 1 <= all[j] && IsRunOf(half, k + Start(all, j), all[j], Multiple(scale, value + j))
    {
      RunBeforeAt(half, scale, k, value, len, lens, j);
    }
  }

  /** A half table that is written consists of its runs, in order. */
  lemma {:induction false} RunsPlaced(half: seq<int>, scale: int, k: nat, value: nat)
    requires k <= |half| && Runs(half, scale, k, value).Ok?
    ensures AreRuns(half, scale, k, value, Runs(half, scale, k, value).value)
    decreases |half| - k
  {
    hide AreRuns, RunLength, EntryOverflows;
    if k < |half| {
      var len := RunLength(half, k, Entry(scale, value));
      RunNonEmpty(half, k, Entry(scale, value));
      RunsPlaced(half, scale, k + len, value + 1);
      RunBefore(half, scale, k, value, len, Runs(half, scale, k + len, value + 1).value);
    } else {
      NoRuns(half, scale, k, value);
    }
  }

  lemma RunNonEmpty(half: seq<int>, k: nat, expected: int)
    requires k < |half| && half[k] == expected
    ensures 1 <= RunLength(half, k, expected)
  {
  }

  lemma NoRuns(half: seq<int>, scale: int, k: nat, value: nat)
    requires k == |half|
    ensures AreRuns(half, scale, k, value, [])
  {
  }

  /** Each run is written as its length less one, in a context of the table's own. */
  lemma {:induction false} LengthsPlaced(lens: seq<nat>, j: nat)
    requires j < |lens|
    ensures RunOps(lens)[j] == Operation(SymbolRequest(0, 0, false), lens[j] as int - 1)
    decreases |lens|
  {
    if j > 0 {
      LengthsPlaced(lens[1..], j - 1);
    }
  }

  lemma TablePlaced(lens: seq<nat>)
    ensures |TableOps(lens)| == |lens| + 2
    ensures TableOps(lens)[0] == Operation(BeginRequest(1), 0) && TableOps(lens)[|lens| + 1] == Operation(EndRequest, 0)
    ensures forall j :: 0 <= j < |lens| ==> TableOps(lens)[j + 1] == Operation(SymbolRequest(0, 0, false), lens[j] as int - 1)
  {
    hide RunOps;
    forall j | 0 <= j < |lens|
      ensures TableOps(lens)[j + 1] == Operation(SymbolRequest(0, 0, false), lens[j] as int - 1)
    {
      LengthsPlaced(lens, j);
    }
  }

  /** The second half of a table is the first one mirrored, with the opposite sign; its middle is the
      opposite of the last entry. */
  predicate IsOdd(table: seq<int>) {
    && |table| == TABLE_ENTRIES && table[128] == -table[127]
    && forall i :: 1 <= i < 128 ==> table[256 - i] == -table[i]
  }

  lemma MirrorIsOdd(half: seq<int>)
    requires |half| == HALF_ENTRIES
    ensures IsOdd(Mirror(half)) && Mirror(half)[..HALF_ENTRIES] == half
  {
    MirrorKeepsHalf(half);
  }

  /** A written set: every table odd, its first half the runs that are written, its entries multiples of
      the scale that the tables before it left; a table with n runs multiplies the scale by 2n - 1, and
      half of the last scale, rounded up, is the number of contexts. */
  lemma SetPlaced(t: QuantTableSet, i: nat, scale: int) returns (lens: seq<nat>)
    requires IsTableSet(t) && i < CONTEXT_INPUTS && SetOps(t, i, scale).Ok?
    ensures IsOdd(t.tables[i]) && AreRuns(t.tables[i][..HALF_ENTRIES], scale, 0, 0, lens)
    ensures SetOps(t, i + 1, scale * (2 * |lens| - 1)).Ok?
    ensures SetOps(t, i, scale).value == TableOps(lens) + SetOps(t, i + 1, scale * (2 * |lens| - 1)).value
  {
    hide Runs, AreRuns, TableOps, ScaleOverflows, Mirror;
    lens := Runs(HalfOf(t, i), scale, 0, 0).value;
    RunsPlaced(HalfOf(t, i), scale, 0, 0);
    MirrorIsOdd(HalfOf(t, i));
  }

  lemma SetCounted(t: QuantTableSet, scale: int)
    requires IsStored(t) && SetOps(t, CONTEXT_INPUTS, scale).Ok? && 0 < scale <= MAX_SCALE
    ensures SetOps(t, CONTEXT_INPUTS, scale).value == []
    ensures 2 * t.contextCount == scale || 2 * t.contextCount == scale + 1
  {
  }
}
