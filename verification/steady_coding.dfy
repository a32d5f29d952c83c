// With the default transition table the coder never meets an empty interval: every state stays
// away from 0 and 255, so every operation that names an existing context succeeds.

module SteadyCoding {
  import opened Basics
  import opened RangeInterval
  import opened RangeSymbols
  import opened RangeContexts
  import opened RangeScript
  import opened StateTransition

  ghost predicate SteadyStates(s: ScalarStates) {
    forall i :: 0 <= i < 32 ==> Steady(s[i])
  }

  ghost predicate SteadyContexts(c: Contexts) {
    forall i :: 0 <= i < |c.states| ==> SteadyStates(c.states[i])
  }

  /** An encoder all of whose states, current and saved, are steady under the default table. */
  ghost predicate SteadyEncoder(e: Encoder) {
    && e.table == DefaultTransition()
    && SoundEncoder(e)
    && SteadyContexts(e.contexts)
    && forall i :: 0 <= i < |e.saved| ==> SteadyContexts(e.saved[i])
  }

  /** Decisions from steady states always find room, and leave the states steady. */
  lemma {:induction false} EncodeSteady(iv: Interval, s: ScalarStates, ds: Decisions)
    requires Sound(iv) && SteadyStates(s)
    ensures Encode(DefaultTransition(), iv, s, ds).Some?
    ensures SteadyStates(Encode(DefaultTransition(), iv, s, ds).value.1)
    decreases |ds|
  {
    hide DefaultTransition, Narrow, NextState;
    if ds != [] {
      var d := ds[0];
      NarrowKeepsSound(iv, s[d.index], d.bit);
      NextSteady(s[d.index], d.bit);
      EncodeSteady(Narrow(iv, s[d.index], d.bit).value,
                   s[d.index := NextState(DefaultTransition(), s[d.index], d.bit)], ds[1..]);
    }
  }

  lemma StoreSteady(c: Contexts, at: nat, s: ScalarStates)
    requires SteadyContexts(c) && SteadyStates(s)
    ensures SteadyContexts(Store(c, at, s))
  {
    hide SteadyStates;
  }

  /** A flag, or a number in one of the contexts of the given sizes. */
  predicate IsInside(op: Operation, sizes: seq<nat>) {
    match op.request
    case BoolRequest => 0 <= op.value <= 1
    case SymbolRequest(bank, context, isSigned) =>
      bank < |sizes| && context < sizes[bank] && Abs(op.value) <= INT64_MAX && (isSigned || 0 <= op.value)
    case _ => false
  }

  /** Such an operation succeeds and changes neither the layout nor what is saved. */
  lemma InsideWrites(e: Encoder, op: Operation)
    requires SteadyEncoder(e) && IsInside(op, e.contexts.sizes)
    ensures Representable(op)
    ensures Write(e, op).Ok?
    ensures SteadyEncoder(Write(e, op).value)
    ensures Write(e, op).value.contexts.sizes == e.contexts.sizes && Write(e, op).value.contexts.offsets == e.contexts.offsets
    ensures Write(e, op).value.saved == e.saved
  {
    hide DefaultTransition, Encode, SteadyStates, SymbolDecisions;
    WriteKeepsSound(e, op);
    match op.request
    case BoolRequest =>
      FirstContextExists(e.contexts);
      EncodeSteady(e.interval, e.contexts.states[0], [Decision(0, op.value != 0)]);
      StoreSteady(e.contexts, 0, Encode(e.table, e.interval, e.contexts.states[0], [Decision(0, op.value != 0)]).value.1);
    case SymbolRequest(bank, context, isSigned) =>
      LocateInside(e.contexts, bank, context);
      var at := Locate(e.contexts, bank, context).value;
      var ds := SymbolDecisions(isSigned, Abs(op.value), op.value < 0);
      EncodeSteady(e.interval, e.contexts.states[at], ds);
      StoreSteady(e.contexts, at, Encode(e.table, e.interval, e.contexts.states[at], ds).value.1);
  }

  ghost predicate AllInside(ops: seq<Operation>, sizes: seq<nat>) {
    forall i :: 0 <= i < |ops| ==> IsInside(ops[i], sizes)
  }

  lemma AllInsideConcat(a: seq<Operation>, b: seq<Operation>, sizes: seq<nat>)
    requires AllInside(a, sizes) && AllInside(b, sizes)
    ensures AllInside(a + b, sizes)
  {
    hide IsInside;
  }

  /** Any number of them. */
  lemma {:induction false} AllInsideWrite(e: Encoder, ops: seq<Operation>)
    requires SteadyEncoder(e) && AllInside(ops, e.contexts.sizes)
    ensures AllRepresentable(ops)
    ensures WriteAll(e, ops).Ok?
    ensures SteadyEncoder(WriteAll(e, ops).value)
    ensures WriteAll(e, ops).value.contexts.sizes == e.contexts.sizes
    ensures WriteAll(e, ops).value.contexts.offsets == e.contexts.offsets
    ensures WriteAll(e, ops).value.saved == e.saved
    decreases |ops|
  {
    hide IsInside, Write, SteadyEncoder, Representable;
    if ops != [] {
      InsideWrites(e, ops[0]);
      AllInsideWrite(Write(e, ops[0]).value, ops[1..]);
      assert ops == [ops[0]] + ops[1..];
    }
  }

  lemma {:induction false} ConcatSteady(counts: seq<nat>, banks: seq<seq<ScalarStates>>, n: nat)
    requires n <= |counts|
    requires forall b :: 0 <= b < |banks| ==> forall i :: 0 <= i < |banks[b]| ==> SteadyStates(banks[b][i])
    ensures forall i :: 0 <= i < |Concat(counts, banks, DEFAULT_STATE, n)| ==> SteadyStates(Concat(counts, banks, DEFAULT_STATE, n)[i])
  {
    if n > 0 {
      ConcatSteady(counts, banks, n - 1);
      var bank := InitialBank(counts[n - 1], GivenBank(banks, n - 1), DEFAULT_STATE);
      forall i | 0 <= i < |bank|
        ensures SteadyStates(bank[i])
      {
      }
    }
  }

  /** Contexts built from steady banks, or from nothing, are steady. */
  lemma BuildSteady(counts: seq<nat>, banks: seq<seq<ScalarStates>>)
    requires Build(counts, banks, DEFAULT_STATE).Ok?
    requires forall b :: 0 <= b < |banks| ==> forall i :: 0 <= i < |banks[b]| ==> SteadyStates(banks[b][i])
    ensures SteadyContexts(Build(counts, banks, DEFAULT_STATE).value)
    ensures WellFormed(Build(counts, banks, DEFAULT_STATE).value)
  {
    hide SteadyStates;
    BuildWellFormed(counts, banks, DEFAULT_STATE);
    ConcatSteady(counts, banks, |counts|);
  }

  lemma OneBankBuilds(count: nat)
    requires 1 <= count <= MAX_SCALAR_CONTEXTS
    ensures Build([count], [], DEFAULT_STATE).Ok?
    ensures Build([count], [], DEFAULT_STATE).value.sizes == [count]
  {
    assert BankError([count], [], 0) == None;
    assert FirstBankError([count], [], 1) == None;
  }

  /** A scope of its own, written in and left again, succeeds and restores the contexts. */
  lemma ScopeWrites(e: Encoder, ops: seq<Operation>)
    requires SteadyEncoder(e) && AllInside(ops, [1])
    ensures var scoped := [BEGIN_SCOPE] + (ops + [END_SCOPE]);
            && AllRepresentable(scoped)
            && WriteAll(e, scoped).Ok? && SteadyEncoder(WriteAll(e, scoped).value)
            && WriteAll(e, scoped).value.contexts == e.contexts && WriteAll(e, scoped).value.saved == e.saved
  {
    hide SteadyContexts, IsInside;
    OneBankBuilds(1);
    BuildSteady([1], []);
    var inner := Write(e, BEGIN_SCOPE).value;
    WriteKeepsSound(e, BEGIN_SCOPE);
    AllInsideWrite(inner, ops);
    var written := WriteAll(inner, ops).value;
    WriteKeepsSound(written, END_SCOPE);
    ScopeInSteps(e, ops);
    assert written.saved[|written.saved| - 1] == e.contexts && written.saved[..|written.saved| - 1] == e.saved;
  }

  /** Entry 0 of the transition table is never used by an encoder that succeeds. */
  lemma {:induction false} EntryZeroUnused(t: Table, v: byte, iv: Interval, s: ScalarStates, ds: Decisions)
    requires Sound(iv)
    ensures Encode(t[0 := v], iv, s, ds) == Encode(t, iv, s, ds)
    decreases |ds|
  {
    hide Narrow;
    if ds != [] {
      var d := ds[0];
      NarrowKeepsSound(iv, s[d.index], d.bit);
      if Narrow(iv, s[d.index], d.bit).Some? {
        assert NextState(t[0 := v], s[d.index], d.bit) == NextState(t, s[d.index], d.bit);
        EntryZeroUnused(t, v, Narrow(iv, s[d.index], d.bit).value,
                        s[d.index := NextState(t, s[d.index], d.bit)], ds[1..]);
      }
    }
  }
}
