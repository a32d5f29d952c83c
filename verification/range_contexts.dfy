// Banks of scalar contexts, shared by the range encoder and the range decoder.
// The banks are laid out one after the other in a single vector.

module RangeContexts {
  import opened Basics
  import opened RangeSymbols

  const MAX_SCALAR_CONTEXTS: nat := 32768
  const MAX_BANKS: nat := 4
  const DEFAULT_STATE: byte := 128

  datatype Contexts = Contexts(offsets: seq<nat>, sizes: seq<nat>, states: seq<ScalarStates>)

  function Sum(s: seq<nat>): nat {
    if s == [] then 0 else Sum(s[..|s| - 1]) + s[|s| - 1]
  }

  /** Every bank lies inside the vector, right after the banks before it. */
  ghost predicate WellFormed(c: Contexts) {
    && 1 <= |c.sizes| <= MAX_BANKS
    && |c.offsets| == |c.sizes|
    && (forall b :: 0 <= b < |c.sizes| ==> 1 <= c.sizes[b] <= MAX_SCALAR_CONTEXTS)
    && (forall b :: 0 <= b < |c.sizes| ==> c.offsets[b] == Sum(c.sizes[..b]))
    && |c.states| == Sum(c.sizes)
  }

  /** Which initial states a bank starts from: the given ones, or the uniform state. */
  function InitialBank(count: nat, given: seq<ScalarStates>, state: byte): (s: seq<ScalarStates>)
    ensures given == [] || |given| == count ==> |s| == count
  {
    if given != [] then given
    else
      var uniform: ScalarStates := seq(32, _ => state);
      seq(count, _ => uniform)
  }

  function GivenBank(banks: seq<seq<ScalarStates>>, b: nat): seq<ScalarStates> {
    if b < |banks| then banks[b] else []
  }

  function BankError(counts: seq<nat>, banks: seq<seq<ScalarStates>>, b: nat): Option<ErrorCode>
    requires b < |counts|
  {
    if counts[b] == 0 then Some(InvalidArgument)
    else if MAX_SCALAR_CONTEXTS < counts[b] then Some(ResourceExhausted)
    else if GivenBank(banks, b) != [] && |GivenBank(banks, b)| != counts[b] then Some(InvalidArgument)
    else None
  }

  /** The first bank in error decides. */
  function FirstBankError(counts: seq<nat>, banks: seq<seq<ScalarStates>>, b: nat): Option<ErrorCode>
    requires b <= |counts|
    decreases |counts| - b
  {
    if b == |counts| then None
    else if BankError(counts, banks, b).Some? then BankError(counts, banks, b)
    else FirstBankError(counts, banks, b + 1)
  }

  function Concat(counts: seq<nat>, banks: seq<seq<ScalarStates>>, state: byte, n: nat): seq<ScalarStates>
    requires n <= |counts|
  {
    if n == 0 then []
    else Concat(counts, banks, state, n - 1) + InitialBank(counts[n - 1], GivenBank(banks, n - 1), state)
  }

  function Build(counts: seq<nat>, banks: seq<seq<ScalarStates>>, state: byte): Result<Contexts> {
    if counts == [] then Err(InvalidArgument)
    else if MAX_BANKS < |counts| then Err(ResourceExhausted)
    else if banks != [] && |banks| != |counts| then Err(InvalidArgument)
    else if FirstBankError(counts, banks, 0).Some? then Err(FirstBankError(counts, banks, 0).value)
    else Ok(Contexts(seq(|counts|, b requires 0 <= b < |counts| => Sum(counts[..b])),
                     counts, Concat(counts, banks, state, |counts|)))
  }

  lemma {:induction false} NoBankError(counts: seq<nat>, banks: seq<seq<ScalarStates>>, b: nat)
    requires b <= |counts|
    requires FirstBankError(counts, banks, b) == None
    ensures forall k :: b <= k < |counts| ==> BankError(counts, banks, k) == None
    decreases |counts| - b
  {
    if b < |counts| {
      NoBankError(counts, banks, b + 1);
    }
  }

  lemma {:induction false} ConcatLength(counts: seq<nat>, banks: seq<seq<ScalarStates>>, state: byte, n: nat)
    requires n <= |counts|
    requires forall k :: 0 <= k < n ==> BankError(counts, banks, k) == None
    ensures |Concat(counts, banks, state, n)| == Sum(counts[..n])
  {
    if n > 0 {
      ConcatLength(counts, banks, state, n - 1);
      assert counts[..n][..n - 1] == counts[..n - 1];
      assert BankError(counts, banks, n - 1) == None;
    }
  }

  /** Whatever is accepted is laid out without gaps or overlaps. */
  lemma BuildWellFormed(counts: seq<nat>, banks: seq<seq<ScalarStates>>, state: byte)
    ensures Build(counts, banks, state).Ok? ==> WellFormed(Build(counts, banks, state).value)
  {
    if Build(counts, banks, state).Ok? {
      NoBankError(counts, banks, 0);
      assert counts[..|counts|] == counts;
      ConcatLength(counts, banks, state, |counts|);
      forall b | 0 <= b < |counts|
        ensures 1 <= counts[b] <= MAX_SCALAR_CONTEXTS
      {
        assert BankError(counts, banks, b) == None;
      }
    }
  }

  /** Where context `context` of bank `bank` lives, if it exists. */
  function Locate(c: Contexts, bank: nat, context: nat): Result<nat>
  {
    if |c.sizes| <= bank || |c.offsets| <= bank || c.sizes[bank] <= context then Err(InvalidArgument)
    else Ok(c.offsets[bank] + context)
  }

  lemma {:induction false} SumPrefix(s: seq<nat>, b: nat)
    requires b < |s|
    ensures Sum(s[..b]) + s[b] <= Sum(s)
    decreases |s|
  {
    if b < |s| - 1 {
      SumPrefix(s[..|s| - 1], b);
      assert s[..|s| - 1][..b] == s[..b];
    }
  }

  lemma LocateInside(c: Contexts, bank: nat, context: nat)
    requires WellFormed(c)
    requires Locate(c, bank, context).Ok?
    ensures Locate(c, bank, context).value < |c.states|
  {
    SumPrefix(c.sizes, bank);
  }

  lemma FirstContextExists(c: Contexts)
    requires WellFormed(c)
    ensures Locate(c, 0, 0) == Ok(0) && 0 < |c.states|
  {
    assert c.sizes[..0] == [];
    LocateInside(c, 0, 0);
  }

  /** The banks as separate vectors, as the next frame of a slice resumes from them. */
  function Split(c: Contexts): (banks: seq<seq<ScalarStates>>)
    requires WellFormed(c)
    ensures |banks| == |c.sizes|
  {
    SplitFrom(c, 0)
  }

  function SplitFrom(c: Contexts, b: nat): (banks: seq<seq<ScalarStates>>)
    requires WellFormed(c)
    requires b <= |c.sizes|
    ensures |banks| == |c.sizes| - b
    decreases |c.sizes| - b
  {
    if b == |c.sizes| then []
    else
      SumPrefix(c.sizes, b);
      [c.states[c.offsets[b]..c.offsets[b] + c.sizes[b]]] + SplitFrom(c, b + 1)
  }

  lemma {:induction false} SplitAt(c: Contexts, b: nat, k: nat)
    requires WellFormed(c) && b <= k < |c.sizes|
    ensures c.offsets[k] + c.sizes[k] <= |c.states|
    ensures SplitFrom(c, b)[k - b] == c.states[c.offsets[k]..c.offsets[k] + c.sizes[k]]
    decreases k - b
  {
    SumPrefix(c.sizes, k);
    if b < k {
      SplitAt(c, b + 1, k);
    }
  }

  lemma {:induction false} ConcatOfSplit(c: Contexts, state: byte, n: nat)
    requires WellFormed(c) && n <= |c.sizes|
    ensures Sum(c.sizes[..n]) <= |c.states|
    ensures Concat(c.sizes, Split(c), state, n) == c.states[..Sum(c.sizes[..n])]
    decreases n
  {
    hide SplitFrom;
    if n > 0 {
      ConcatOfSplit(c, state, n - 1);
      SplitAt(c, 0, n - 1);
      var bank := Split(c)[n - 1];
      assert c.sizes[..n][..n - 1] == c.sizes[..n - 1];
      assert bank != [] && GivenBank(Split(c), n - 1) == bank;
      assert c.states[..Sum(c.sizes[..n - 1])] + bank == c.states[..Sum(c.sizes[..n])];
    }
  }

  lemma {:induction false} SplitFits(c: Contexts, b: nat)
    requires WellFormed(c) && b <= |c.sizes|
    ensures FirstBankError(c.sizes, Split(c), b) == None
    decreases |c.sizes| - b
  {
    hide SplitFrom;
    if b < |c.sizes| {
      SplitAt(c, 0, b);
      assert GivenBank(Split(c), b) == Split(c)[b] && |Split(c)[b]| == c.sizes[b];
      SplitFits(c, b + 1);
    }
  }

  /** Contexts rebuilt from their own banks are the same contexts: a frame resumes exactly
      where the frame before it stopped. */
  lemma BuildOfSplit(c: Contexts, state: byte)
    requires WellFormed(c)
    ensures Build(c.sizes, Split(c), state) == Ok(c)
  {
    hide SplitFrom, Concat;
    SplitFits(c, 0);
    ConcatOfSplit(c, state, |c.sizes|);
    assert c.sizes[..|c.sizes|] == c.sizes;
    assert c.states[..|c.states|] == c.states;
    assert Concat(c.sizes, Split(c), state, |c.sizes|) == c.states;
    assert Build(c.sizes, Split(c), state).Ok?;
    var rebuilt := Build(c.sizes, Split(c), state).value;
    forall b | 0 <= b < |c.sizes|
      ensures rebuilt.offsets[b] == c.offsets[b]
    {
    }
    assert rebuilt.offsets == c.offsets;
  }
}
