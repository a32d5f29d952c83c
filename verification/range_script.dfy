// Whole runs of the range coder: what the encoder is asked to write is what the
// decoder reads when it makes the matching requests, whatever the transition table,
// the context banks and the nesting of independent scopes.

module RangeScript {
  import opened Basics
  import opened RangeInterval
  import opened RangeSymbols
  import opened RangeContexts

  /** Encoder state between two operations. */
  datatype Encoder = Encoder(interval: Interval, contexts: Contexts, saved: seq<Contexts>, table: Table)

  /** Decoder state between two operations. */
  datatype Decoder = Decoder(payload: seq<byte>, cursor: Cursor, contexts: Contexts, saved: seq<Contexts>, table: Table)

  /** The operations both coders offer; a value travels only with the first three. */
  datatype Request =
    | BoolRequest
    | SymbolRequest(bank: nat, context: nat, isSigned: bool)
    | SentinelRequest
    | ReconfigureRequest(counts: seq<nat>, banks: seq<seq<ScalarStates>>)
    | BeginRequest(count: nat)
    | EndRequest

  datatype Operation = Operation(request: Request, value: int)

  /** The values the C++ parameter types can hold. */
  predicate Representable(op: Operation) {
    match op.request
    case BoolRequest => 0 <= op.value <= 1
    case SymbolRequest(_, _, isSigned) =>
      if isSigned then INT64_MIN <= op.value <= INT64_MAX else 0 <= op.value <= 2 * INT64_MAX + 1
    case _ => op.value == 0
  }

  ghost predicate AllRepresentable(ops: seq<Operation>) {
    forall op <- ops :: Representable(op)
  }

  const SENTINEL_STATE: byte := 129

  function Store(c: Contexts, at: nat, s: ScalarStates): Contexts {
    if at < |c.states| then c.(states := c.states[at := s]) else c
  }

  function StatesAt(c: Contexts, at: nat): Result<ScalarStates> {
    if at < |c.states| then Ok(c.states[at]) else Err(InvalidState)
  }

  function WriteBool(e: Encoder, bit: bool): Result<Encoder> {
    var s :- StatesAt(e.contexts, 0);
    match Encode(e.table, e.interval, s, [Decision(0, bit)])
    case None => Err(InvalidArgument)
    case Some((iv, s')) => Ok(e.(interval := iv, contexts := Store(e.contexts, 0, s')))
  }

  function WriteSymbol(e: Encoder, bank: nat, context: nat, isSigned: bool, value: int): Result<Encoder> {
    if value < -INT64_MAX || INT64_MAX < value then Err(InvalidArgument)
    else
      var at :- Locate(e.contexts, bank, context);
      var s :- StatesAt(e.contexts, at);
      match Encode(e.table, e.interval, s, SymbolDecisions(isSigned, Abs(value), value < 0))
      case None => Err(InvalidArgument)
      case Some((iv, s')) => Ok(e.(interval := iv, contexts := Store(e.contexts, at, s')))
  }

  function WriteSentinel(e: Encoder): Result<Encoder> {
    match Narrow(e.interval, SENTINEL_STATE, false)
    case None => Err(InvalidArgument)
    case Some(iv) => Ok(e.(interval := iv))
  }

  function Write(e: Encoder, op: Operation): Result<Encoder> {
    match op.request
    case BoolRequest => WriteBool(e, op.value != 0)
    case SymbolRequest(bank, context, isSigned) => WriteSymbol(e, bank, context, isSigned, op.value)
    case SentinelRequest => WriteSentinel(e)
    case ReconfigureRequest(counts, banks) =>
      var c :- Build(counts, banks, DEFAULT_STATE);
      Ok(e.(contexts := c))
    case BeginRequest(count) =>
      var c :- Build([count], [], DEFAULT_STATE);
      Ok(e.(contexts := c, saved := e.saved + [e.contexts]))
    case EndRequest =>
      if e.saved == [] then Err(InvalidState)
      else Ok(e.(contexts := e.saved[|e.saved| - 1], saved := e.saved[..|e.saved| - 1]))
  }

  function WriteAll(e: Encoder, ops: seq<Operation>): Result<Encoder>
    decreases |ops|
  {
    if ops == [] then Ok(e)
    else
      var e' :- Write(e, ops[0]);
      WriteAll(e', ops[1..])
  }

  lemma {:induction false} WriteAllConcat(e: Encoder, a: seq<Operation>, b: seq<Operation>)
    ensures WriteAll(e, a + b) == match WriteAll(e, a) case Err(error) => Err(error) case Ok(e') => WriteAll(e', b)
    decreases |a|
  {
    hide Write;
    if a == [] {
      assert a + b == b;
    } else {
      assert (a + b)[1..] == a[1..] + b;
      if Write(e, a[0]).Ok? {
        WriteAllConcat(Write(e, a[0]).value, a[1..], b);
      }
    }
  }

  function Then(first: seq<Operation>, rest: Result<seq<Operation>>): Result<seq<Operation>> {
    match rest
    case Err(error) => Err(error)
    case Ok(ops) => Ok(first + ops)
  }

  /** Where the encoder ends up if all the operations exist and are accepted. */
  function Attempt(e: Encoder, ops: Result<seq<Operation>>): Option<Encoder> {
    match ops
    case Err(_) => None
    case Ok(list) => match WriteAll(e, list) case Err(_) => None case Ok(e') => Some(e')
  }

  lemma AttemptThen(e: Encoder, first: seq<Operation>, rest: Result<seq<Operation>>)
    ensures Attempt(e, Then(first, rest)) == match WriteAll(e, first) case Err(_) => None case Ok(e') => Attempt(e', rest)
  {
    if rest.Ok? {
      WriteAllConcat(e, first, rest.value);
    }
  }

  lemma WriteOne(e: Encoder, op: Operation)
    ensures WriteAll(e, [op]) == Write(e, op)
  {
    hide Write;
    if Write(e, op).Ok? {
      assert [op][1..] == [];
      assert WriteAll(Write(e, op).value, []) == Ok(Write(e, op).value);
    }
  }

  const BEGIN_SCOPE := Operation(BeginRequest(1), 0)
  const END_SCOPE := Operation(EndRequest, 0)

  function AndThen(r: Result<Encoder>, ops: seq<Operation>): Result<Encoder> {
    match r
    case Err(error) => Err(error)
    case Ok(e) => WriteAll(e, ops)
  }

  function AndThenOne(r: Result<Encoder>, op: Operation): Result<Encoder> {
    match r
    case Err(error) => Err(error)
    case Ok(e) => Write(e, op)
  }

  /** Opening a scope, writing in it, closing it. */
  lemma ScopeInSteps(e: Encoder, ops: seq<Operation>)
    ensures WriteAll(e, [BEGIN_SCOPE] + (ops + [END_SCOPE])) == AndThenOne(AndThen(Write(e, BEGIN_SCOPE), ops), END_SCOPE)
  {
    hide Write;
    WriteAllConcat(e, [BEGIN_SCOPE], ops + [END_SCOPE]);
    WriteOne(e, BEGIN_SCOPE);
    if Write(e, BEGIN_SCOPE).Ok? {
      var inner := Write(e, BEGIN_SCOPE).value;
      WriteAllConcat(inner, ops, [END_SCOPE]);
      if WriteAll(inner, ops).Ok? {
        WriteOne(WriteAll(inner, ops).value, END_SCOPE);
      }
    }
  }

  function ReadBool(d: Decoder): Result<(bool, Decoder)> {
    var s :- StatesAt(d.contexts, 0);
    var (r, bit) := ReadBit(d.payload, d.table, Reading(d.cursor, s), 0);
    Ok((bit, d.(cursor := r.cursor, contexts := Store(d.contexts, 0, r.states))))
  }

  function ReadSymbol(d: Decoder, bank: nat, context: nat, isSigned: bool): (v: Result<(int, Decoder)>)
    ensures v.Ok? ==> Abs(v.value.0) <= INT64_MAX && (!isSigned ==> 0 <= v.value.0)
  {
    var at :- Locate(d.contexts, bank, context);
    var s :- StatesAt(d.contexts, at);
    var (v, r) :- ReadScalar(d.payload, d.table, Reading(d.cursor, s), isSigned);
    Ok((v, d.(cursor := r.cursor, contexts := Store(d.contexts, at, r.states))))
  }

  /** A number in the first context of the first bank. */
  function ReadUnsigned(d: Decoder): Result<(nat, Decoder)> {
    var (v, d') :- ReadSymbol(d, 0, 0, false);
    Ok((v, d'))
  }

  function Read(d: Decoder, request: Request): Result<(int, Decoder)> {
    match request
    case BoolRequest =>
      var (bit, d') :- ReadBool(d);
      Ok((if bit then 1 else 0, d'))
    case SymbolRequest(bank, context, isSigned) => ReadSymbol(d, bank, context, isSigned)
    case SentinelRequest => Ok((0, d.(cursor := ReadDecision(d.payload, d.cursor, SENTINEL_STATE).0)))
    case ReconfigureRequest(counts, banks) =>
      var c :- Build(counts, banks, DEFAULT_STATE);
      Ok((0, d.(contexts := c)))
    case BeginRequest(count) =>
      var c :- Build([count], [], DEFAULT_STATE);
      Ok((0, d.(contexts := c, saved := d.saved + [d.contexts])))
    case EndRequest =>
      if d.saved == [] then Err(InvalidState)
      else Ok((0, d.(contexts := d.saved[|d.saved| - 1], saved := d.saved[..|d.saved| - 1])))
  }

  function ReadAll(d: Decoder, requests: seq<Request>): Result<(seq<int>, Decoder)>
    decreases |requests|
  {
    if requests == [] then Ok(([], d))
    else
      var (v, d1) :- Read(d, requests[0]);
      var (vs, d2) :- ReadAll(d1, requests[1..]);
      Ok(([v] + vs, d2))
  }

  function Requests(ops: seq<Operation>): (rs: seq<Request>)
    ensures |rs| == |ops|
  {
    seq(|ops|, i requires 0 <= i < |ops| => ops[i].request)
  }

  function Values(ops: seq<Operation>): (vs: seq<int>)
    ensures |vs| == |ops|
  {
    seq(|ops|, i requires 0 <= i < |ops| => ops[i].value)
  }

  /** Decoder and encoder agree on everything but the direction of the data. */
  ghost predicate Matches(d: Decoder, e: Encoder) {
    && Tracks(d.payload, d.cursor, e.interval)
    && d.contexts == e.contexts
    && d.saved == e.saved
    && d.table == e.table
  }

  /** What is left to read are exactly `ops`, after which the encoder stood at `final`. */
  ghost predicate Scripted(d: Decoder, ops: seq<Operation>, final: Encoder) {
    && AllRepresentable(ops)
    && Admits(d.payload, final.interval)
    && exists e: Encoder :: Matches(d, e) && WriteAll(e, ops) == Ok(final)
  }

  ghost predicate SoundEncoder(e: Encoder) {
    && Sound(e.interval)
    && WellFormed(e.contexts)
    && forall c <- e.saved :: WellFormed(c)
  }

  lemma WriteKeepsSound(e: Encoder, op: Operation)
    requires SoundEncoder(e)
    ensures Write(e, op).Ok? ==> SoundEncoder(Write(e, op).value)
    ensures Write(e, op).Ok? ==> e.interval.count <= Write(e, op).value.interval.count
  {
    match op.request
    case BoolRequest =>
      FirstContextExists(e.contexts);
      if Write(e, op).Ok? {
        EncodeKeepsSound(e.table, e.interval, e.contexts.states[0], [Decision(0, op.value != 0)]);
      }
    case SymbolRequest(bank, context, isSigned) =>
      if Write(e, op).Ok? {
        var at := Locate(e.contexts, bank, context).value;
        EncodeKeepsSound(e.table, e.interval, e.contexts.states[at], SymbolDecisions(isSigned, Abs(op.value), op.value < 0));
      }
    case SentinelRequest =>
      NarrowKeepsSound(e.interval, SENTINEL_STATE, false);
    case ReconfigureRequest(counts, banks) =>
      BuildWellFormed(counts, banks, DEFAULT_STATE);
    case BeginRequest(count) =>
      BuildWellFormed([count], [], DEFAULT_STATE);
    case EndRequest =>
  }

  /** Over every run the width stays renormalised and no carry can leave the first byte. */
  lemma {:induction false} WriteAllKeepsSound(e: Encoder, ops: seq<Operation>)
    requires SoundEncoder(e)
    requires WriteAll(e, ops).Ok?
    ensures SoundEncoder(WriteAll(e, ops).value)
    ensures e.interval.count <= WriteAll(e, ops).value.interval.count
    decreases |ops|
  {
    if ops != [] {
      WriteKeepsSound(e, ops[0]);
      WriteAllKeepsSound(Write(e, ops[0]).value, ops[1..]);
    }
  }

  lemma WriteNests(p: seq<byte>, e: Encoder, op: Operation)
    requires Write(e, op).Ok?
    requires Admits(p, Write(e, op).value.interval)
    ensures Admits(p, e.interval)
  {
    match op.request
    case BoolRequest =>
      EncodeNests(p, e.table, e.interval, e.contexts.states[0], [Decision(0, op.value != 0)]);
    case SymbolRequest(bank, context, isSigned) =>
      var at := Locate(e.contexts, bank, context).value;
      EncodeNests(p, e.table, e.interval, e.contexts.states[at], SymbolDecisions(isSigned, Abs(op.value), op.value < 0));
    case SentinelRequest =>
      NarrowNests(p, e.interval, SENTINEL_STATE, false);
    case _ =>
  }

  /** A payload inside the final interval lies inside every earlier one. */
  lemma {:induction false} WriteAllNests(p: seq<byte>, e: Encoder, ops: seq<Operation>)
    requires WriteAll(e, ops).Ok?
    requires Admits(p, WriteAll(e, ops).value.interval)
    ensures Admits(p, e.interval)
    decreases |ops|
  {
    if ops != [] {
      WriteAllNests(p, Write(e, ops[0]).value, ops[1..]);
      WriteNests(p, e, ops[0]);
    }
  }

  lemma RequestFollows(d: Decoder, e: Encoder, op: Operation)
    requires Matches(d, e)
    requires Representable(op)
    requires Write(e, op).Ok?
    requires Admits(d.payload, Write(e, op).value.interval)
    ensures Read(d, op.request).Ok?
    ensures Read(d, op.request).value.0 == op.value
    ensures Matches(Read(d, op.request).value.1, Write(e, op).value)
    ensures Read(d, op.request).value.1.payload == d.payload
  {
    match op.request
    case BoolRequest =>
      BitFollows(d.payload, d.table, Reading(d.cursor, d.contexts.states[0]), e.interval, Decision(0, op.value != 0));
    case SymbolRequest(bank, context, isSigned) =>
      var at := Locate(e.contexts, bank, context).value;
      ScalarFollows(d.payload, d.table, Reading(d.cursor, d.contexts.states[at]), e.interval,
                    isSigned, Abs(op.value), op.value < 0);
    case SentinelRequest =>
      DecisionFollows(d.payload, d.cursor, e.interval, SENTINEL_STATE, false);
    case _ =>
  }

  /** The decoder's next request is answered with the script's next value. */
  lemma NextOperation(d: Decoder, ops: seq<Operation>, final: Encoder)
    requires Scripted(d, ops, final)
    requires ops != []
    ensures Read(d, ops[0].request).Ok?
    ensures Read(d, ops[0].request).value.0 == ops[0].value
    ensures Scripted(Read(d, ops[0].request).value.1, ops[1..], final)
    ensures Read(d, ops[0].request).value.1.payload == d.payload
  {
    var e: Encoder :| Matches(d, e) && WriteAll(e, ops) == Ok(final);
    var e' := Write(e, ops[0]).value;
    WriteAllNests(d.payload, e', ops[1..]);
    assert Representable(ops[0]);
    RequestFollows(d, e, ops[0]);
    var d' := Read(d, ops[0].request).value.1;
    assert Matches(d', e') && WriteAll(e', ops[1..]) == Ok(final);
  }

  lemma ScriptEnds(d: Decoder, final: Encoder)
    requires Scripted(d, [], final)
    ensures Matches(d, final)
  {
  }

  /** Every accepted run of operations reads back: same values, same context states,
      and the same byte position as far as the payload reaches. */
  lemma {:induction false} RunReadsBack(d: Decoder, ops: seq<Operation>, final: Encoder)
    requires Scripted(d, ops, final)
    ensures ReadAll(d, Requests(ops)).Ok?
    ensures ReadAll(d, Requests(ops)).value.0 == Values(ops)
    ensures Matches(ReadAll(d, Requests(ops)).value.1, final)
    ensures ReadAll(d, Requests(ops)).value.1.payload == d.payload
    decreases |ops|
  {
    if ops == [] {
      ScriptEnds(d, final);
    } else {
      NextOperation(d, ops, final);
      assert Requests(ops)[1..] == Requests(ops[1..]);
      var d' := Read(d, ops[0].request).value.1;
      RunReadsBack(d', ops[1..], final);
      assert [ops[0].value] + Values(ops[1..]) == Values(ops);
    }
  }

  function FreshEncoder(contexts: Contexts, table: Table): Encoder {
    Encoder(INITIAL_INTERVAL, contexts, [], table)
  }

  function FreshDecoder(payload: seq<byte>, contexts: Contexts, table: Table): Decoder
    requires 2 <= |payload|
  {
    Decoder(payload, InitialCursor(payload), contexts, [], table)
  }

  /** A decoder freshly reset on any payload inside the final interval starts on script. */
  lemma StartsScripted(payload: seq<byte>, contexts: Contexts, table: Table, ops: seq<Operation>, final: Encoder)
    requires 2 <= |payload|
    requires AllRepresentable(ops)
    requires WriteAll(FreshEncoder(contexts, table), ops) == Ok(final)
    requires Admits(payload, final.interval)
    ensures Scripted(FreshDecoder(payload, contexts, table), ops, final)
  {
    WriteAllNests(payload, FreshEncoder(contexts, table), ops);
    InitialTracks(payload);
    assert Matches(FreshDecoder(payload, contexts, table), FreshEncoder(contexts, table));
  }

  /** Where a Golomb-Rice slice takes its content to begin after the header was read. */
  function ContentBytePosition(c: Cursor): nat {
    if c.position != 0 && c.low % 256 != 0 then c.position - 1 else c.position
  }

  /** A header closed by plain finalization and followed by any bytes leaves the decoder's
      low at zero, so the content boundary is the header's length. */
  lemma HeaderBoundary(d: Decoder, header: seq<byte>, content: seq<byte>, final: Encoder)
    requires Matches(d, final)
    requires d.payload == header + content
    requires |header| == final.interval.count
    requires Prefix(header, |header|) == final.interval.low
    ensures d.cursor.low == 0
    ensures d.cursor.position == |header|
    ensures ContentBytePosition(d.cursor) == |header|
  {
    assert d.payload[..|header|] == header == header[..|header|];
    PrefixAgrees(d.payload, header, |header|);
  }

  /** Plainly finalized bytes stay inside the encoder's interval whatever follows them. */
  lemma FinalizedAdmits(e: Encoder, bytes: seq<byte>, after: seq<byte>)
    requires SoundEncoder(e)
    requires |bytes| == e.interval.count && Prefix(bytes, |bytes|) == e.interval.low
    ensures Admits(bytes + after, e.interval) && 2 <= |bytes|
  {
    assert (bytes + after)[..|bytes|] == bytes == bytes[..|bytes|];
    PrefixAgrees(bytes + after, bytes, |bytes|);
  }

  lemma WriteShort(e: Encoder, op: Operation)
    requires SoundEncoder(e) && Write(e, op).Ok?
    ensures Write(e, op).value.interval.count <= e.interval.count + 127
  {
    hide SymbolDecisions, Build;
    match op.request
    case BoolRequest =>
      EncodeShort(e.table, e.interval, e.contexts.states[0], [Decision(0, op.value != 0)]);
    case SymbolRequest(bank, context, isSigned) =>
      var at := Locate(e.contexts, bank, context).value;
      SymbolLength(isSigned, Abs(op.value), op.value < 0);
      EncodeShort(e.table, e.interval, e.contexts.states[at], SymbolDecisions(isSigned, Abs(op.value), op.value < 0));
    case _ =>
  }

  /** How far a run can get is known before it is made. */
  lemma {:induction false} WriteAllShort(e: Encoder, ops: seq<Operation>)
    requires SoundEncoder(e) && WriteAll(e, ops).Ok?
    ensures WriteAll(e, ops).value.interval.count <= e.interval.count + 127 * |ops|
    decreases |ops|
  {
    hide Write, SoundEncoder;
    if ops != [] {
      WriteKeepsSound(e, ops[0]);
      WriteShort(e, ops[0]);
      WriteAllShort(Write(e, ops[0]).value, ops[1..]);
    }
  }
}
