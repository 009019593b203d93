/**
  The in-memory idempotency store
  (apps/backend/src/modules/gateway/application/gateway.idempotency.ts:64-163).

  `execute` decides synchronously; what happens to a started operation comes later, in
  callbacks that other calls may come between: `then` writes the record, `finally`
  clears the in-flight entry, and only then do the waiting callers get their answer.
 */
module Idempotency {
  type Key = string
  type Fingerprint = string
  type OpId = nat
  type CallId = nat
  type Value = string

  /** What a record keeps: the result, or only a marker where the result is a credential. */
  datatype Stored = Result(value: Value) | CredentialIssued

  datatype Record = Record(fingerprint: Fingerprint, result: Stored)

  datatype Flight = Flight(fingerprint: Fingerprint, op: OpId)

  datatype Decision = Replay(result: Stored) | Reused | Join(op: OpId) | Start

  function Decide(records: map<Key, Record>, inFlight: map<Key, Flight>, key: Key, fingerprint: Fingerprint): Decision {
    if key in records then
      if records[key].fingerprint != fingerprint then Reused else Replay(records[key].result)
    else if key in inFlight then
      if inFlight[key].fingerprint != fingerprint then Reused else Join(inFlight[key].op)
    else Start
  }

  /** What the record of a successful operation holds. */
  function ToStore(sensitive: bool, value: Value): Stored {
    if sensitive then CredentialIssued else Result(value)
  }

  // ---- Any number of callers and operations ----

  datatype Phase = Running | Recorded(value: Value) | Refused(error: string) | Done(value: Value) | Failed(error: string)

  /** `starter` is the call that started the operation. */
  datatype Op = Op(key: Key, fingerprint: Fingerprint, sensitive: bool, starter: CallId, phase: Phase)

  /** What a call was told at once; `Await` callers get what the operation's promise settles to. */
  datatype Reply = Conflict | Ready(result: Stored) | Replayed | Await(op: OpId)

  datatype Caller = Caller(key: Key, fingerprint: Fingerprint, sensitive: bool, reply: Reply)

  /** `winner` is bookkeeping: the operation that wrote the key's record. */
  datatype State = State(
    records: map<Key, Record>,
    inFlight: map<Key, Flight>,
    ops: seq<Op>,
    callers: seq<Caller>,
    winner: map<Key, OpId>)

  const INITIAL: State := State(map[], map[], [], [], map[])

  datatype Step =
    | Call(key: Key, fingerprint: Fingerprint, sensitive: bool)
    | Fulfil(op: OpId, value: Value)
    | Reject(op: OpId, error: string)
    | Finally(op: OpId)

  function ReplyTo(d: Decision, sensitive: bool, next: OpId): Reply {
    match d
    case Reused => Conflict
    case Replay(result) => if sensitive then Replayed else Ready(result)
    case Join(op) => if sensitive then Replayed else Await(op)
    case Start => Await(next)
  }

  function WithPhase(st: State, i: OpId, phase: Phase): seq<Op>
    requires i < |st.ops|
  {
    st.ops[i := st.ops[i].(phase := phase)]
  }

  /** One synchronous call or one callback; a step that is not possible changes nothing. */
  function Next(st: State, step: Step): State {
    match step
    case Call(key, fingerprint, sensitive) =>
      var d := Decide(st.records, st.inFlight, key, fingerprint);
      var callers := st.callers + [Caller(key, fingerprint, sensitive, ReplyTo(d, sensitive, |st.ops|))];
      if d != Start then st.(callers := callers)
      else st.(inFlight := st.inFlight[key := Flight(fingerprint, |st.ops|)],
               ops := st.ops + [Op(key, fingerprint, sensitive, |st.callers|, Running)], callers := callers)
    case Fulfil(i, value) =>
      if i >= |st.ops| || st.ops[i].phase != Running then st
      else
        var op := st.ops[i];
        st.(records := st.records[op.key := Record(op.fingerprint, ToStore(op.sensitive, value))],
            ops := WithPhase(st, i, Recorded(value)), winner := st.winner[op.key := i])
    case Reject(i, error) =>
      if i >= |st.ops| || st.ops[i].phase != Running then st
      else st.(ops := WithPhase(st, i, Refused(error)))
    case Finally(i) =>
      if i >= |st.ops| then st
      else if st.ops[i].phase.Recorded? then
        st.(inFlight := st.inFlight - {st.ops[i].key}, ops := WithPhase(st, i, Done(st.ops[i].phase.value)))
      else if st.ops[i].phase.Refused? then
        st.(inFlight := st.inFlight - {st.ops[i].key}, ops := WithPhase(st, i, Failed(st.ops[i].phase.error)))
      else st
  }

  function Exec(st: State, steps: seq<Step>): State {
    if steps == [] then st else Next(Exec(st, steps[..|steps| - 1]), steps[|steps| - 1])
  }

  /** What a caller ends up with; None while it waits. */
  datatype Answer = Nothing | KeyReused | Got(result: Stored) | AlreadyReplayed | Raised(error: string)

  function AnswerTo(st: State, c: Caller): Answer {
    match c.reply
    case Conflict => KeyReused
    case Ready(result) => Got(result)
    case Replayed => AlreadyReplayed
    case Await(i) =>
      if i >= |st.ops| then Nothing
      else match st.ops[i].phase
        case Done(value) => Got(Result(value))
        case Failed(error) => Raised(error)
        case _ => Nothing
  }

  // ---- The invariant ----

  predicate Succeeded(op: Op) {
    op.phase.Recorded? || op.phase.Done?
  }

  predicate Unsettled(op: Op) {
    op.phase.Running? || op.phase.Recorded? || op.phase.Refused?
  }

  /** An operation holds its key's in-flight entry until it settles, and owns its record once it succeeds. */
  ghost predicate OpSound(st: State, i: OpId)
    requires i < |st.ops|
  {
    var op := st.ops[i];
    && (Unsettled(op) ==> op.key in st.inFlight && st.inFlight[op.key] == Flight(op.fingerprint, i))
    && (op.phase.Running? || op.phase.Refused? ==> op.key !in st.records)
    && (Succeeded(op) ==> op.key in st.winner && st.winner[op.key] == i
                          && op.key in st.records
                          && st.records[op.key] == Record(op.fingerprint, ToStore(op.sensitive, op.phase.value)))
    && op.starter < |st.callers|
    && st.callers[op.starter] == Caller(op.key, op.fingerprint, op.sensitive, Await(i))
  }

  ghost predicate FlightSound(st: State, key: Key)
    requires key in st.inFlight
  {
    var i := st.inFlight[key].op;
    i < |st.ops| && Unsettled(st.ops[i]) && st.ops[i].key == key && st.ops[i].fingerprint == st.inFlight[key].fingerprint
  }

  ghost predicate RecordSound(st: State, key: Key) {
    && (key in st.winner ==> key in st.records)
    && (key in st.records ==> key in st.winner && st.winner[key] < |st.ops| && st.ops[st.winner[key]].key == key
                              && Succeeded(st.ops[st.winner[key]]))
  }

  ghost predicate OtherRequest(st: State, key: Key, fingerprint: Fingerprint, i: OpId) {
    i < |st.ops| && st.ops[i].key == key && st.ops[i].fingerprint != fingerprint
  }

  ghost predicate CallerSound(st: State, n: CallId)
    requires n < |st.callers|
  {
    var c := st.callers[n];
    match c.reply
    case Conflict => exists i :: OtherRequest(st, c.key, c.fingerprint, i)
    case Ready(result) => !c.sensitive && c.key in st.records && st.records[c.key] == Record(c.fingerprint, result)
    case Replayed => c.sensitive
    case Await(i) => i < |st.ops| && st.ops[i].key == c.key && st.ops[i].fingerprint == c.fingerprint
                     && (c.sensitive ==> st.ops[i].starter == n)
  }

  ghost predicate Inv(st: State) {
    && (forall i :: 0 <= i < |st.ops| ==> OpSound(st, i))
    && (forall key :: key in st.inFlight ==> FlightSound(st, key))
    && (forall key :: RecordSound(st, key))
    && (forall n :: 0 <= n < |st.callers| ==> CallerSound(st, n))
  }

  /** Nothing a caller was told goes out of date while operations and records only grow. */
  lemma CallerStaysSound(st: State, st': State, n: CallId)
    requires n < |st.callers| && CallerSound(st, n)
    requires |st.ops| <= |st'.ops| && |st.callers| <= |st'.callers| && st'.callers[n] == st.callers[n]
    requires forall i :: 0 <= i < |st.ops| ==> st'.ops[i].(phase := st.ops[i].phase) == st.ops[i]
    requires forall key :: key in st.records ==> key in st'.records && st'.records[key] == st.records[key]
    ensures CallerSound(st', n)
  {
    var c := st.callers[n];
    if c.reply.Conflict? {
      var i :| OtherRequest(st, c.key, c.fingerprint, i);
      assert OtherRequest(st', c.key, c.fingerprint, i);
    }
  }

  lemma AnsweredCallKeeps(st: State, key: Key, fingerprint: Fingerprint, sensitive: bool)
    requires Inv(st) && Decide(st.records, st.inFlight, key, fingerprint) != Start
    ensures Inv(Next(st, Call(key, fingerprint, sensitive)))
  {
    var st' := Next(st, Call(key, fingerprint, sensitive));
    forall i | 0 <= i < |st'.ops|
      ensures OpSound(st', i)
    {
      assert OpSound(st, i);
    }
    forall k | k in st'.inFlight
      ensures FlightSound(st', k)
    {
      assert FlightSound(st, k);
    }
    forall k
      ensures RecordSound(st', k)
    {
      assert RecordSound(st, k);
    }
    forall n | 0 <= n < |st.callers|
      ensures CallerSound(st', n)
    {
      CallerStaysSound(st, st', n);
    }
    NewCallerSound(st, key, fingerprint, sensitive);
  }

  lemma NewCallerSound(st: State, key: Key, fingerprint: Fingerprint, sensitive: bool)
    requires Inv(st) && Decide(st.records, st.inFlight, key, fingerprint) != Start
    ensures CallerSound(Next(st, Call(key, fingerprint, sensitive)), |st.callers|)
  {
    var st' := Next(st, Call(key, fingerprint, sensitive));
    if key in st.records {
      assert RecordSound(st, key) && OpSound(st, st.winner[key]);
      if st.records[key].fingerprint != fingerprint {
        assert OtherRequest(st', key, fingerprint, st.winner[key]);
      }
    } else {
      assert FlightSound(st, key);
      if st.inFlight[key].fingerprint != fingerprint {
        assert OtherRequest(st', key, fingerprint, st.inFlight[key].op);
      }
    }
  }

  lemma StartKeeps(st: State, key: Key, fingerprint: Fingerprint, sensitive: bool)
    requires Inv(st) && Decide(st.records, st.inFlight, key, fingerprint) == Start
    ensures Inv(Next(st, Call(key, fingerprint, sensitive)))
  {
    var st' := Next(st, Call(key, fingerprint, sensitive));
    forall i | 0 <= i < |st.ops|
      ensures OpSound(st', i)
    {
      assert OpSound(st, i);
    }
    forall k | k in st'.inFlight
      ensures FlightSound(st', k)
    {
      if k != key {
        assert FlightSound(st, k);
      }
    }
    forall k
      ensures RecordSound(st', k)
    {
      assert RecordSound(st, k);
    }
    forall n | 0 <= n < |st.callers|
      ensures CallerSound(st', n)
    {
      CallerStaysSound(st, st', n);
    }
  }

  /** What a callback of operation i may do: move its phase, with the record written on success. */
  ghost predicate Callback(st: State, i: OpId, st': State)
    requires i < |st.ops|
  {
    var key := st.ops[i].key;
    && st'.callers == st.callers && |st'.ops| == |st.ops| && st'.ops == WithPhase(st, i, st'.ops[i].phase)
    && st'.inFlight == (if Unsettled(st'.ops[i]) then st.inFlight else st.inFlight - {key})
    && ((st'.records == st.records && st'.winner == st.winner)
        || (key !in st.records && key in st'.records && Succeeded(st'.ops[i])
            && st'.records == st.records[key := st'.records[key]] && st'.winner == st.winner[key := i]))
    && (Succeeded(st.ops[i]) ==> Succeeded(st'.ops[i]))
  }

  lemma CallbackKeeps(st: State, i: OpId, st': State)
    requires Inv(st) && i < |st.ops| && Unsettled(st.ops[i]) && Callback(st, i, st') && OpSound(st', i)
    ensures Inv(st')
  {
    assert OpSound(st, i);
    forall j | 0 <= j < |st'.ops|
      ensures OpSound(st', j)
    {
      assert OpSound(st, j);
    }
    forall k | k in st'.inFlight
      ensures FlightSound(st', k)
    {
      assert FlightSound(st, k);
    }
    forall k
      ensures RecordSound(st', k)
    {
      assert RecordSound(st, k);
    }
    forall n | 0 <= n < |st'.callers|
      ensures CallerSound(st', n)
    {
      CallerStaysSound(st, st', n);
    }
  }

  lemma CallbackStep(st: State, step: Step)
    requires Inv(st) && !step.Call? && step.op < |st.ops| && Next(st, step) != st
    ensures Unsettled(st.ops[step.op]) && Callback(st, step.op, Next(st, step)) && OpSound(Next(st, step), step.op)
  {
    assert OpSound(st, step.op);
  }

  lemma NextKeeps(st: State, step: Step)
    requires Inv(st)
    ensures Inv(Next(st, step))
  {
    match step
    case Call(key, fingerprint, sensitive) =>
      if Decide(st.records, st.inFlight, key, fingerprint) == Start {
        StartKeeps(st, key, fingerprint, sensitive);
      } else {
        AnsweredCallKeeps(st, key, fingerprint, sensitive);
      }
    case _ =>
      if step.op < |st.ops| && Next(st, step) != st {
        CallbackStep(st, step);
        CallbackKeeps(st, step.op, Next(st, step));
      }
  }

  lemma {:induction false} ExecKeeps(steps: seq<Step>)
    ensures Inv(Exec(INITIAL, steps))
  {
    if steps != [] {
      ExecKeeps(steps[..|steps| - 1]);
      NextKeeps(Exec(INITIAL, steps[..|steps| - 1]), steps[|steps| - 1]);
    }
  }

  // ---- What callers may rely on ----

  /** In every run no two operations of one key are under way at once, and at most one ever succeeds. */
  lemma AtMostOneEffect(steps: seq<Step>, i: OpId, j: OpId)
    requires var st := Exec(INITIAL, steps); i < |st.ops| && j < |st.ops| && i != j && st.ops[i].key == st.ops[j].key
    ensures var st := Exec(INITIAL, steps);
            && !(Unsettled(st.ops[i]) && Unsettled(st.ops[j]))
            && !(Succeeded(st.ops[i]) && Succeeded(st.ops[j]))
            && !(Succeeded(st.ops[i]) && st.ops[j].phase.Running?)
  {
    ExecKeeps(steps);
    var st := Exec(INITIAL, steps);
    assert OpSound(st, i) && OpSound(st, j);
  }

  lemma StartsIffAllSettledFailed(st: State, key: Key, fingerprint: Fingerprint)
    requires Inv(st)
    ensures Decide(st.records, st.inFlight, key, fingerprint) == Start
            <==> forall i :: 0 <= i < |st.ops| && st.ops[i].key == key ==> st.ops[i].phase.Failed?
  {
    if key in st.records {
      assert RecordSound(st, key);
    }
    if key in st.inFlight {
      assert FlightSound(st, key);
    }
    forall i | 0 <= i < |st.ops| && st.ops[i].key == key && !st.ops[i].phase.Failed?
      ensures key in st.records || key in st.inFlight
    {
      assert OpSound(st, i);
    }
  }

  /** A call starts an operation exactly if every earlier operation of the key failed: failure leaves the key free. */
  lemma StartsIffAllFailed(steps: seq<Step>, key: Key, fingerprint: Fingerprint)
    ensures var st := Exec(INITIAL, steps);
            Decide(st.records, st.inFlight, key, fingerprint) == Start
            <==> forall i :: 0 <= i < |st.ops| && st.ops[i].key == key ==> st.ops[i].phase.Failed?
  {
    ExecKeeps(steps);
    StartsIffAllSettledFailed(Exec(INITIAL, steps), key, fingerprint);
  }

  /** Whoever gets a result gets that of the key's one successful operation, which ran the very same request. */
  lemma ResultsComeFromTheOneSuccess(steps: seq<Step>, n: CallId)
    requires var st := Exec(INITIAL, steps); n < |st.callers| && AnswerTo(st, st.callers[n]).Got?
    ensures var st := Exec(INITIAL, steps); var c := st.callers[n];
            && c.key in st.winner && st.winner[c.key] < |st.ops|
            && var op := st.ops[st.winner[c.key]];
            && Succeeded(op) && op.key == c.key && op.fingerprint == c.fingerprint
            && AnswerTo(st, c).result in {Result(op.phase.value), ToStore(op.sensitive, op.phase.value)}
  {
    ExecKeeps(steps);
    var st := Exec(INITIAL, steps);
    var c := st.callers[n];
    assert CallerSound(st, n);
    if c.reply.Ready? {
      assert RecordSound(st, c.key) && OpSound(st, st.winner[c.key]);
    } else {
      assert OpSound(st, c.reply.op);
    }
  }

  /**
    All callers of a key that get a result made the same request, and get the same
    result, but for one case: of a success started by executeSensitive the starter and
    whoever joined it get the value, and later plain callers the marker.
   */
  lemma OneResultPerKey(steps: seq<Step>, a: CallId, b: CallId)
    requires var st := Exec(INITIAL, steps);
             && a < |st.callers| && b < |st.callers| && st.callers[a].key == st.callers[b].key
             && AnswerTo(st, st.callers[a]).Got? && AnswerTo(st, st.callers[b]).Got?
    ensures var st := Exec(INITIAL, steps);
            && st.callers[a].fingerprint == st.callers[b].fingerprint
            && st.callers[a].key in st.winner && st.winner[st.callers[a].key] < |st.ops|
            && (AnswerTo(st, st.callers[a]) == AnswerTo(st, st.callers[b])
                <==> st.ops[st.winner[st.callers[a].key]].sensitive ==> st.callers[a].reply.Await? == st.callers[b].reply.Await?)
  {
    ResultsComeFromTheOneSuccess(steps, a);
    ResultsComeFromTheOneSuccess(steps, b);
    ExecKeeps(steps);
    var st := Exec(INITIAL, steps);
    assert CallerSound(st, a) && CallerSound(st, b) && OpSound(st, st.winner[st.callers[a].key]);
    AwaitGivesTheValue(st, a);
    AwaitGivesTheValue(st, b);
  }

  lemma AwaitGivesTheValue(st: State, n: CallId)
    requires Inv(st) && n < |st.callers| && AnswerTo(st, st.callers[n]).Got?
    ensures var c := st.callers[n];
            && c.key in st.winner && st.winner[c.key] < |st.ops| && Succeeded(st.ops[st.winner[c.key]])
            && var op := st.ops[st.winner[c.key]];
               AnswerTo(st, c).result == if c.reply.Await? then Result(op.phase.value) else ToStore(op.sensitive, op.phase.value)
  {
    var c := st.callers[n];
    assert CallerSound(st, n);
    if c.reply.Await? {
      assert OpSound(st, c.reply.op);
    } else {
      assert RecordSound(st, c.key) && OpSound(st, st.winner[c.key]);
    }
  }

  /** A caller is refused only if another request really used the key. */
  lemma RefusedOnlyForAnotherRequest(steps: seq<Step>, n: CallId)
    requires var st := Exec(INITIAL, steps); n < |st.callers| && AnswerTo(st, st.callers[n]) == KeyReused
    ensures var st := Exec(INITIAL, steps);
            exists m: CallId :: m < |st.callers| && st.callers[m].key == st.callers[n].key
                        && st.callers[m].fingerprint != st.callers[n].fingerprint
  {
    ExecKeeps(steps);
    var st := Exec(INITIAL, steps);
    assert CallerSound(st, n);
    var i: OpId :| OtherRequest(st, st.callers[n].key, st.callers[n].fingerprint, i);
    assert OpSound(st, i);
    assert st.callers[st.ops[i].starter].key == st.callers[n].key;
  }

  /** Of the executeSensitive callers of one key at most one, the starter, ever gets the value. */
  lemma OneCallerGetsTheCredential(steps: seq<Step>, a: CallId, b: CallId)
    requires var st := Exec(INITIAL, steps);
             && a < |st.callers| && b < |st.callers| && st.callers[a].key == st.callers[b].key
             && st.callers[a].sensitive && st.callers[b].sensitive
             && AnswerTo(st, st.callers[a]).Got? && AnswerTo(st, st.callers[b]).Got?
    ensures a == b
  {
    ExecKeeps(steps);
    var st := Exec(INITIAL, steps);
    assert CallerSound(st, a) && CallerSound(st, b);
    assert OpSound(st, st.callers[a].reply.op) && OpSound(st, st.callers[b].reply.op);
  }

  lemma NextKeepsRecords(st: State, step: Step, key: Key)
    requires Inv(st) && key in st.records
    ensures key in Next(st, step).records && Next(st, step).records[key] == st.records[key]
  {
    if step.Fulfil? && step.op < |st.ops| {
      assert OpSound(st, step.op);
    }
  }

  lemma ExecLast(before: seq<Step>, later: seq<Step>)
    requires later != []
    ensures Exec(INITIAL, before + later) == Next(Exec(INITIAL, before + later[..|later| - 1]), later[|later| - 1])
  {
    assert (before + later)[..|before + later| - 1] == before + later[..|later| - 1];
  }

  /** A success is never taken back: later calls of the key are replays or conflicts for ever. */
  lemma {:induction false} RecordsAreForever(before: seq<Step>, later: seq<Step>, key: Key)
    requires key in Exec(INITIAL, before).records
    ensures key in Exec(INITIAL, before + later).records
            && Exec(INITIAL, before + later).records[key] == Exec(INITIAL, before).records[key]
  {
    if later == [] {
      assert before + later == before;
    } else {
      var init, last := later[..|later| - 1], later[|later| - 1];
      RecordsAreForever(before, init, key);
      ExecLast(before, later);
      ExecKeeps(before + init);
      NextKeepsRecords(Exec(INITIAL, before + init), last, key);
    }
  }

  // ---- The store itself ----

  /** The maps of the source, in step with the callers and operations around them. */
  class IdempotencyStore {
    var records: map<Key, Record>
    var inFlight: map<Key, Flight>
    ghost var system: State

    ghost predicate Valid()
      reads this
    {
      records == system.records && inFlight == system.inFlight && Inv(system)
    }

    constructor ()
      ensures Valid() && system == INITIAL
    {
      records, inFlight := map[], map[];
      system := INITIAL;
    }

    /**
      The synchronous part of execute and executeSensitive; `op` is the promise that a
      started operation gives. It starts one exactly if every earlier one of the key failed.
     */
    method Execute(key: Key, fingerprint: Fingerprint, sensitive: bool, op: OpId) returns (d: Decision)
      requires Valid() && op == |system.ops|
      modifies this
      ensures Valid() && system == Next(old(system), Call(key, fingerprint, sensitive))
      ensures d == Start <==> forall i :: 0 <= i < |old(system).ops| && old(system).ops[i].key == key ==> old(system).ops[i].phase.Failed?
      ensures system.callers == old(system).callers + [Caller(key, fingerprint, sensitive, ReplyTo(d, sensitive, op))]
    {
      StartsIffAllSettledFailed(system, key, fingerprint);
      NextKeeps(system, Call(key, fingerprint, sensitive));
      system := Next(system, Call(key, fingerprint, sensitive));
      if key in records {
        if records[key].fingerprint != fingerprint {
          return Reused;
        }
        return Replay(records[key].result);
      }
      if key in inFlight {
        if inFlight[key].fingerprint != fingerprint {
          return Reused;
        }
        return Join(inFlight[key].op);
      }
      inFlight := inFlight[key := Flight(fingerprint, op)];
      d := Start;
    }

    /** The `then` callback of a running operation: it never replaces a record. */
    method OnFulfilled(op: OpId, key: Key, fingerprint: Fingerprint, sensitive: bool, value: Value)
      requires Valid() && op < |system.ops|
      requires system.ops[op].(starter := 0) == Op(key, fingerprint, sensitive, 0, Running)
      modifies this
      ensures Valid() && system == Next(old(system), Fulfil(op, value))
      ensures key !in old(records) && key in inFlight && inFlight[key].op == op
    {
      assert OpSound(system, op);
      NextKeeps(system, Fulfil(op, value));
      system := Next(system, Fulfil(op, value));
      records := records[key := Record(fingerprint, if sensitive then CredentialIssued else Result(value))];
    }

    /** A rejected operation leaves both maps alone until its `finally`. */
    ghost method OnRejected(op: OpId, error: string)
      requires Valid() && op < |system.ops| && system.ops[op].phase.Running?
      modifies `system
      ensures Valid() && system == Next(old(system), Reject(op, error))
    {
      NextKeeps(system, Reject(op, error));
      system := Next(system, Reject(op, error));
    }

    /** The `finally` callback: the entry it deletes is always its own. */
    method OnFinally(op: OpId, key: Key)
      requires Valid() && op < |system.ops| && system.ops[op].key == key
      requires system.ops[op].phase.Recorded? || system.ops[op].phase.Refused?
      modifies this
      ensures Valid() && system == Next(old(system), Finally(op))
      ensures key in old(inFlight) && old(inFlight)[key].op == op
      ensures key in records <==> old(system).ops[op].phase.Recorded?
    {
      assert OpSound(system, op);
      NextKeeps(system, Finally(op));
      system := Next(system, Finally(op));
      inFlight := inFlight - {key};
    }
  }

  // ---- Limits of executeSensitive ----

  function AnswerNumber(st: State, n: CallId): Answer {
    if n < |st.callers| then AnswerTo(st, st.callers[n]) else Nothing
  }

  lemma FourSteps(a: Step, b: Step, c: Step, d: Step)
    ensures Exec(INITIAL, [a, b, c, d]) == Next(Next(Next(Next(INITIAL, a), b), c), d)
  {
    var one, two, three := [a], [a, b], [a, b, c];
    assert one[..0] == [] && two[..1] == one && three[..2] == two && [a, b, c, d][..3] == three;
    assert Exec(INITIAL, one) == Next(INITIAL, a);
    assert Exec(INITIAL, two) == Next(Exec(INITIAL, one), b);
    assert Exec(INITIAL, three) == Next(Exec(INITIAL, two), c);
  }

  predicate ToldReplayed(st: State, key: Key, fingerprint: Fingerprint) {
    ReplyTo(Decide(st.records, st.inFlight, key, fingerprint), true, |st.ops|) == Replayed
  }

  /** The operation a sensitive duplicate is told of: the one recorded, or else the one in flight. */
  function ToldOf(st: State, key: Key): OpId
    requires key in st.winner || key in st.inFlight
  {
    if key in st.winner then st.winner[key] else st.inFlight[key].op
  }

  lemma ToldOfSound(st: State, key: Key, fingerprint: Fingerprint)
    requires Inv(st) && ToldReplayed(st, key, fingerprint)
    ensures key in st.winner || key in st.inFlight
    ensures var i := ToldOf(st, key);
            && i < |st.ops| && st.ops[i].key == key && st.ops[i].fingerprint == fingerprint
            && (key in st.records <==> Succeeded(st.ops[i]))
            && (key !in st.records ==> key in st.inFlight && st.inFlight[key].op == i
                                       && (st.ops[i].phase.Running? || st.ops[i].phase.Refused?))
  {
    if key in st.records {
      assert RecordSound(st, key) && OpSound(st, st.winner[key]);
    } else {
      assert FlightSound(st, key) && OpSound(st, st.inFlight[key].op);
      assert RecordSound(st, key);
    }
  }

  lemma NextKeepsOps(st: State, step: Step, i: OpId)
    requires i < |st.ops|
    ensures i < |Next(st, step).ops| && Next(st, step).ops[i].(phase := st.ops[i].phase) == st.ops[i]
  {
  }

  lemma {:induction false} OpsKeepTheirRequest(before: seq<Step>, later: seq<Step>, i: OpId)
    requires i < |Exec(INITIAL, before).ops|
    ensures var st, st' := Exec(INITIAL, before), Exec(INITIAL, before + later);
            i < |st'.ops| && st'.ops[i].(phase := st.ops[i].phase) == st.ops[i]
  {
    hide Next;
    if later == [] {
      assert before + later == before;
    } else {
      OpsKeepTheirRequest(before, later[..|later| - 1], i);
      ExecLast(before, later);
      NextKeepsOps(Exec(INITIAL, before + later[..|later| - 1]), later[|later| - 1], i);
    }
  }

  /**
    When `replayed` is right. The key of a call so answered is recorded at every later
    time if and only if it is recorded already; if it is not, the answer came from an
    operation of the same request that still runs or was refused.
   */
  lemma ReplayedIsSafeIffRecorded(before: seq<Step>, key: Key, fingerprint: Fingerprint)
    requires ToldReplayed(Exec(INITIAL, before), key, fingerprint)
    ensures var st := Exec(INITIAL, before);
            && ((forall later :: key in Exec(INITIAL, before + [Call(key, fingerprint, true)] + later).records)
                <==> key in st.records)
            && (key !in st.records ==>
                  key in st.inFlight && st.inFlight[key].fingerprint == fingerprint && st.inFlight[key].op < |st.ops|
                  && (st.ops[st.inFlight[key].op].phase.Running? || st.ops[st.inFlight[key].op].phase.Refused?))
  {
    var st, call := Exec(INITIAL, before), Call(key, fingerprint, true);
    ExecKeeps(before);
    ToldOfSound(st, key, fingerprint);
    if key in st.records {
      forall later
        ensures key in Exec(INITIAL, before + [call] + later).records
      {
        assert before + [call] + later == before + ([call] + later);
        RecordsAreForever(before, [call] + later, key);
      }
    } else {
      assert FlightSound(st, key);
      assert before + [call] + [] == before + [call];
      ExecLast(before, [call]);
      assert before + [call][..0] == before;
    }
  }

  /**
    And what becomes of it: at every later time the key carries the record of the
    operation the call was told of if and only if that operation has succeeded. Once it
    has settled, that is, exactly if it ended Done.
   */
  lemma ReplayedOperationDecides(before: seq<Step>, key: Key, fingerprint: Fingerprint, later: seq<Step>)
    requires ToldReplayed(Exec(INITIAL, before), key, fingerprint)
    ensures key in Exec(INITIAL, before).winner || key in Exec(INITIAL, before).inFlight
    ensures var i, st := ToldOf(Exec(INITIAL, before), key), Exec(INITIAL, before + later);
            && i < |st.ops| && st.ops[i].key == key && st.ops[i].fingerprint == fingerprint
            && (key in st.winner && st.winner[key] == i && key in st.records <==> Succeeded(st.ops[i]))
            && (!Unsettled(st.ops[i]) ==> (key in st.winner && st.winner[key] == i <==> st.ops[i].phase.Done?))
  {
    ExecKeeps(before);
    ToldOfSound(Exec(INITIAL, before), key, fingerprint);
    var i := ToldOf(Exec(INITIAL, before), key);
    OpsKeepTheirRequest(before, later, i);
    ExecKeeps(before + later);
    var st := Exec(INITIAL, before + later);
    assert OpSound(st, i);
    assert RecordSound(st, key);
  }

  /** A duplicate is told `replayed` while the operation still runs, even if that operation then fails. */
  lemma ReplayedBeforeFailure(key: Key, fingerprint: Fingerprint, error: string)
    ensures var st := Exec(INITIAL, [Call(key, fingerprint, true), Call(key, fingerprint, true), Reject(0, error), Finally(0)]);
            && AnswerNumber(st, 0) == Raised(error) && AnswerNumber(st, 1) == AlreadyReplayed && key !in st.records
  {
    FourSteps(Call(key, fingerprint, true), Call(key, fingerprint, true), Reject(0, error), Finally(0));
  }

  /** A plain execute that joins a running executeSensitive gets the value itself, not the marker. */
  lemma PlainCallerJoinsTheCredential(key: Key, fingerprint: Fingerprint, value: Value)
    ensures var st := Exec(INITIAL, [Call(key, fingerprint, true), Call(key, fingerprint, false), Fulfil(0, value), Finally(0)]);
            && AnswerNumber(st, 0) == Got(Result(value)) && AnswerNumber(st, 1) == Got(Result(value))
            && key in st.records && st.records[key] == Record(fingerprint, CredentialIssued)
  {
    FourSteps(Call(key, fingerprint, true), Call(key, fingerprint, false), Fulfil(0, value), Finally(0));
  }
}
