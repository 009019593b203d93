/**
  The PostgreSQL idempotency store as a transaction protocol
  (apps/backend/src/modules/gateway/infrastructure/postgres-idempotency.store.ts:51-141 inside
  apps/backend/src/infrastructure/postgres/postgres-transaction.ts:43-68).

  Any number of calls, on any number of replicas, run their statements in any order. An
  INSERT of a key that another open transaction has inserted waits for that transaction.
  A statement may fail, a connection may break, a process may die, an acknowledgement of
  COMMIT may be lost; what is not committed is rolled back by the server.
 */
module PostgresIdempotency {
  type Key = string
  type Hash = string
  type Value = string
  type CallId = nat

  datatype Stored = Result(value: Value) | CredentialIssued

  datatype Status = Pending | Applied(result: Stored)

  datatype Row = Row(hash: Hash, status: Status)

  datatype Error = KeyReused | OperationPending | Business(name: string) | Database(code: string)

  /** `isRetryable` */
  predicate Retryable(e: Error) {
    e.Database? && e.code in {"40001", "40P01", "55P03"}
  }

  /** What a call returns: the fresh value, the stored result of an earlier call, or word of a replay. */
  datatype Reply = Fresh(value: Value) | Stale(result: Stored) | Replayed

  datatype Phase =
    | Beginning               // before BEGIN and INSERT
    | Selecting               // INSERT found the row; before SELECT
    | Operating               // INSERT made the row; the operation runs
    | Updating(value: Value)  // before UPDATE
    | Committing(reply: Reply)
    | Handed(value: Value)     // returned to an enclosing transaction, which has not ended
    | Withdrawn(value: Value)  // that transaction was rolled back
    | Failing(error: Error)   // before ROLLBACK
    | Returned(reply: Reply)
    | Raised(error: Error)
    | Crashed
    | Refused(error: Error, source: CallId)  // inside the open transaction of another call with the key
    | Echoed(reply: Reply, source: CallId)   // likewise, after that call handed over its result

  datatype Call = Call(key: Key, hash: Hash, sensitive: bool, attempt: nat, phase: Phase)

  /** A committed business effect. */
  datatype Effect = Effect(key: Key, hash: Hash, caller: CallId, sensitive: bool, value: Value)

  /**
    `holders` are the keys inserted by open transactions. `writer` is bookkeeping: which
    effect committed together with the key's row.
   */
  datatype State = State(
    table: map<Key, Row>,
    holders: map<Key, CallId>,
    calls: seq<Call>,
    effects: seq<Effect>,
    writer: map<Key, nat>)

  const INITIAL: State := State(map[], map[], [], [], map[])

  datatype Step =
    | Start(key: Key, hash: Hash, sensitive: bool)
    | Refuse(c: CallId, code: string)      // the pool gives no connection, which is not retried
    | Insert(c: CallId)
    | Select(c: CallId)
    | Operate(c: CallId, value: Value)
    | Update(c: CallId)
    | Commit(c: CallId)
    | LoseCommit(c: CallId, code: string)  // committed, but the acknowledgement is lost
    | Hand(c: CallId)                      // inside an enclosing transaction: return without COMMIT
    | Withdraw(c: CallId)                  // that transaction rolls back
    | Fail(c: CallId, error: Error)        // a statement, COMMIT included, or the operation throws
    | Rollback(c: CallId)
    | Crash(c: CallId)
    | Reenter(c: CallId, hash: Hash, sensitive: bool)  // another call of the key, made inside the transaction of c
    | Swallow(c: CallId)                   // an enclosing transaction catches the error and commits

  predicate Open(p: Phase) {
    p.Selecting? || p.Operating? || p.Updating? || p.Committing?
  }

  function ToStore(sensitive: bool, value: Value): Stored {
    if sensitive then CredentialIssued else Result(value)
  }

  function WithPhase(st: State, c: CallId, p: Phase): seq<Call>
    requires c < |st.calls|
  {
    st.calls[c := st.calls[c].(phase := p)]
  }

  function Goto(st: State, c: CallId, p: Phase): State
    requires c < |st.calls|
  {
    st.(calls := WithPhase(st, c, p))
  }

  /** The open transaction of c ends without committing. */
  function Released(st: State, c: CallId): map<Key, CallId>
    requires c < |st.calls|
  {
    var key := st.calls[c].key;
    if key in st.holders && st.holders[key] == c then st.holders - {key} else st.holders
  }

  /** COMMIT of a transaction that inserted its row: row and effect become visible together. */
  function Committed(st: State, c: CallId, value: Value, p: Phase): State
    requires c < |st.calls|
  {
    var call := st.calls[c];
    State(st.table[call.key := Row(call.hash, Applied(ToStore(call.sensitive, value)))],
          Released(st, c),
          WithPhase(st, c, p),
          st.effects + [Effect(call.key, call.hash, c, call.sensitive, value)],
          st.writer[call.key := |st.effects|])
  }

  /** What a call is told of the row another call of its transaction has just made. */
  function Echo(source: Call, sensitive: bool, value: Value): Reply {
    if sensitive then Replayed else Stale(ToStore(source.sensitive, value))
  }

  function Next(st: State, maxAttempts: nat, step: Step): State {
    if step.Start? then
      if maxAttempts == 0 then st
      else st.(calls := st.calls + [Call(step.key, step.hash, step.sensitive, 1, Beginning)])
    else if step.c >= |st.calls| then st
    else
      var c := step.c;
      var call := st.calls[c];
      match step
      case Refuse(_, code) =>
        if call.phase.Beginning? then Goto(st, c, Raised(Database(code))) else st
      case Insert(_) =>
        if !call.phase.Beginning? then st
        else if call.key in st.table then Goto(st, c, Selecting)
        else if call.key in st.holders then st
        else Goto(st, c, Operating).(holders := st.holders[call.key := c])
      case Select(_) =>
        if !call.phase.Selecting? then st
        else if call.key !in st.table || st.table[call.key].hash != call.hash then Goto(st, c, Failing(KeyReused))
        else if st.table[call.key].status.Pending? then Goto(st, c, Failing(OperationPending))
        else Goto(st, c, Committing(if call.sensitive then Replayed else Stale(st.table[call.key].status.result)))
      case Operate(_, value) =>
        if call.phase.Operating? then Goto(st, c, Updating(value)) else st
      case Update(_) =>
        if call.phase.Updating? then Goto(st, c, Committing(Fresh(call.phase.value))) else st
      case Hand(_) =>
        if call.phase.Committing? && call.phase.reply.Fresh? then Goto(st, c, Handed(call.phase.reply.value)) else st
      case Withdraw(_) =>
        if call.phase.Handed? then Goto(st, c, Withdrawn(call.phase.value)).(holders := Released(st, c)) else st
      case Commit(_) =>
        if call.phase.Handed? then Committed(st, c, call.phase.value, Returned(Fresh(call.phase.value)))
        else if !call.phase.Committing? then st
        else if call.phase.reply.Fresh? then Committed(st, c, call.phase.reply.value, Returned(call.phase.reply))
        else Goto(st, c, Returned(call.phase.reply))
      case LoseCommit(_, code) =>
        // Whatever the code: under a retried one the call comes back and finds its own row.
        // A result handed to an enclosing transaction was told before; the loss is that transaction's.
        if call.phase.Handed? then Committed(st, c, call.phase.value, Returned(Fresh(call.phase.value)))
        else if !call.phase.Committing? then st
        else if call.phase.reply.Fresh? then Committed(st, c, call.phase.reply.value, Failing(Database(code)))
        else Goto(st, c, Failing(Database(code)))
      case Fail(_, error) =>
        // The operation may throw anything; elsewhere it is the database that fails.
        if (Open(call.phase) && error.Database?) || (call.phase.Operating? && error.Business?) then Goto(st, c, Failing(error))
        else if call.phase.Beginning? && error.Database? then Goto(st, c, Failing(error))
        else st
      case Rollback(_) =>
        if !call.phase.Failing? then st
        else if !Retryable(call.phase.error) || call.attempt == maxAttempts then
          Goto(st, c, Raised(call.phase.error)).(holders := Released(st, c))
        else
          st.(calls := st.calls[c := call.(attempt := call.attempt + 1, phase := Beginning)], holders := Released(st, c))
      case Crash(_) =>
        if call.phase.Returned? || call.phase.Raised? || call.phase.Withdrawn? || call.phase.Refused? || call.phase.Echoed? then st
        else Goto(st, c, Crashed).(holders := Released(st, c))
      case Reenter(_, hash, sensitive) =>
        // The INSERT finds the transaction's own uncommitted row, PENDING or already APPLIED.
        if call.phase.Operating? || call.phase.Updating? then
          st.(calls := st.calls + [Call(call.key, hash, sensitive, 1,
                                        Refused(if hash == call.hash then OperationPending else KeyReused, c))])
        else if call.phase.Handed? then
          st.(calls := st.calls + [Call(call.key, hash, sensitive, 1,
                                        if hash != call.hash then Refused(KeyReused, c)
                                        else Echoed(Echo(call, sensitive, call.phase.value), c))])
        else st
      case Swallow(_) =>
        // Only an error that did not come from the database leaves the transaction able to commit.
        if !call.phase.Failing? || !call.phase.error.Business? then st
        else if Released(st, c) == st.holders then Goto(st, c, Raised(call.phase.error))
        else Goto(st, c, Raised(call.phase.error)).(holders := Released(st, c), table := st.table[call.key := Row(call.hash, Pending)])
  }

  function Exec(maxAttempts: nat, steps: seq<Step>): State {
    if steps == [] then INITIAL
    else Next(Exec(maxAttempts, steps[..|steps| - 1]), maxAttempts, steps[|steps| - 1])
  }

  /** The step commits a PENDING row of the key: the enclosing transaction swallowed the error of a call that held it. */
  predicate SwallowsKey(st: State, step: Step, key: Key) {
    step.Swallow? && step.c < |st.calls| && st.calls[step.c].key == key
    && st.calls[step.c].phase.Failing? && st.calls[step.c].phase.error.Business?
    && key in st.holders && st.holders[key] == step.c
  }

  /** Somewhere in the run an error of a call with the key was swallowed. */
  predicate Swallowed(maxAttempts: nat, steps: seq<Step>, key: Key) {
    steps != [] && (Swallowed(maxAttempts, steps[..|steps| - 1], key)
                    || SwallowsKey(Exec(maxAttempts, steps[..|steps| - 1]), steps[|steps| - 1], key))
  }

  // ---- The invariant ----

  ghost predicate RowOf(st: State, call: Call, result: Stored) {
    call.key in st.table && st.table[call.key] == Row(call.hash, Applied(result))
  }

  ghost predicate ReplySound(st: State, c: CallId, call: Call, reply: Reply) {
    match reply
    case Fresh(value) => call.key in st.writer && st.writer[call.key] < |st.effects|
                         && st.effects[st.writer[call.key]] == Effect(call.key, call.hash, c, call.sensitive, value)
    case Stale(result) => RowOf(st, call, result) && !call.sensitive
    case Replayed => call.key in st.table && st.table[call.key].hash == call.hash && call.sensitive
                     && st.table[call.key].status.Applied?
  }

  ghost predicate ErrorSound(st: State, call: Call, e: Error) {
    && (e.OperationPending? ==> call.key in st.table && st.table[call.key] == Row(call.hash, Pending))
    && (e.KeyReused? ==> call.key in st.table && st.table[call.key].hash != call.hash)
  }

  predicate Inserted(p: Phase) {
    p.Operating? || p.Updating? || p.Handed? || (p.Committing? && p.reply.Fresh?)
  }

  /** A reply given inside the transaction of a call agrees with what that call then had to tell. */
  ghost predicate Agrees(host: Call, sensitive: bool, reply: Reply) {
    match host.phase
    case Handed(value) => reply == Echo(host, sensitive, value)
    case Withdrawn(value) => reply == Echo(host, sensitive, value)
    case Returned(own) => own.Fresh? && reply == Echo(host, sensitive, own.value)
    case Crashed => true
    case _ => false
  }

  /** A call refused or echoed inside the transaction of another still agrees with it. */
  ghost predicate SourceSound(st: State, call: Call) {
    && (call.phase.Refused? ==>
          && call.phase.source < |st.calls|
          && var host := st.calls[call.phase.source];
             host.key == call.key && call.phase.error == (if call.hash == host.hash then OperationPending else KeyReused))
    && (call.phase.Echoed? ==>
          && call.phase.source < |st.calls|
          && var host := st.calls[call.phase.source];
             host.key == call.key && host.hash == call.hash && Agrees(host, call.sensitive, call.phase.reply))
  }

  /** What a call asks never changes, and a result once handed over is kept, withdrawn, or lost in a crash. */
  ghost predicate Evolves(a: Call, b: Call) {
    && a.key == b.key && a.hash == b.hash && a.sensitive == b.sensitive
    && (a.phase.Handed? ==>
          b.phase in {a.phase, Withdrawn(a.phase.value), Returned(Fresh(a.phase.value)), Crashed})
    && (a.phase.Withdrawn? || a.phase.Returned? || a.phase.Crashed? ==> b.phase == a.phase)
  }

  ghost predicate NoEffectBy(st: State, c: CallId) {
    forall i :: 0 <= i < |st.effects| ==> st.effects[i].caller != c
  }

  ghost predicate CallSound(st: State, c: CallId)
    requires c < |st.calls|
  {
    var call := st.calls[c];
    && (Inserted(call.phase) ==> call.key in st.holders && st.holders[call.key] == c)
    && (call.phase.Selecting? ==> call.key in st.table)
    && (call.phase.Committing? && !call.phase.reply.Fresh? ==> ReplySound(st, c, call, call.phase.reply))
    && (call.phase.Returned? ==> ReplySound(st, c, call, call.phase.reply))
    && (call.phase.Failing? || call.phase.Raised? ==> ErrorSound(st, call, call.phase.error))
    && (call.phase.Withdrawn? ==> NoEffectBy(st, c))
    && SourceSound(st, call)
  }

  ghost predicate HolderSound(st: State, key: Key) {
    key in st.holders ==>
      var c := st.holders[key];
      c < |st.calls| && st.calls[c].key == key && key !in st.table
      && (Inserted(st.calls[c].phase) || st.calls[c].phase.Failing?)
  }

  /** A key has a writer exactly if its row is applied, and then the row is the writer's. */
  ghost predicate RowSound(st: State, key: Key) {
    && (key in st.writer <==> key in st.table && st.table[key].status.Applied?)
    && (key in st.writer ==>
          && st.writer[key] < |st.effects|
          && var e := st.effects[st.writer[key]];
             e.key == key && st.table[key] == Row(e.hash, Applied(ToStore(e.sensitive, e.value))))
  }

  ghost predicate EffectSound(st: State, i: nat)
    requires i < |st.effects|
  {
    var key := st.effects[i].key;
    && key in st.table && key in st.writer && st.writer[key] == i
    && st.effects[i].caller < |st.calls| && st.calls[st.effects[i].caller].key == key
  }

  ghost predicate Inv(st: State) {
    && (forall c :: 0 <= c < |st.calls| ==> CallSound(st, c))
    && (forall key :: HolderSound(st, key))
    && (forall key :: RowSound(st, key))
    && (forall i :: 0 <= i < |st.effects| ==> EffectSound(st, i))
  }

  /** What was committed, and who holds which uncommitted key, may only grow away from a call. */
  lemma OtherCallStaysSound(st: State, st': State, d: CallId)
    requires d < |st.calls| && CallSound(st, d)
    requires d < |st'.calls| && st'.calls[d] == st.calls[d]
    requires forall key :: key in st.table ==> key in st'.table && st'.table[key] == st.table[key]
    requires forall key :: key in st.writer && st.writer[key] < |st.effects| ==> key in st'.writer && st'.writer[key] == st.writer[key]
    requires |st.effects| <= |st'.effects| && forall i :: 0 <= i < |st.effects| ==> st'.effects[i] == st.effects[i]
    requires forall i :: |st.effects| <= i < |st'.effects| ==> st'.effects[i].caller != d
    requires |st.calls| <= |st'.calls| && forall e :: 0 <= e < |st.calls| ==> Evolves(st.calls[e], st'.calls[e])
    requires forall key :: key in st.holders && st.holders[key] == d ==> key in st'.holders && st'.holders[key] == d
    ensures CallSound(st', d)
  {
  }

  /** A step of one call that commits nothing. */
  ghost predicate Private(st: State, c: CallId, st': State)
    requires c < |st.calls|
  {
    var call := st.calls[c];
    && st'.table == st.table && st'.effects == st.effects && st'.writer == st.writer
    && |st'.calls| == |st.calls| && st'.calls == st.calls[c := st'.calls[c]] && Evolves(call, st'.calls[c])
    && ((st'.holders == st.holders
         && (call.key in st.holders && st.holders[call.key] == c ==> Inserted(st'.calls[c].phase) || st'.calls[c].phase.Failing?))
        || st'.holders == Released(st, c)
        || (call.key !in st.holders && call.key !in st.table && Inserted(st'.calls[c].phase)
            && st'.holders == st.holders[call.key := c]))
  }

  lemma PrivateKeeps(st: State, c: CallId, st': State)
    requires Inv(st) && c < |st.calls| && Private(st, c, st') && CallSound(st', c)
    ensures Inv(st')
  {
    forall d | 0 <= d < |st'.calls|
      ensures CallSound(st', d)
    {
      if d != c {
        OtherCallStaysSound(st, st', d);
      }
    }
    forall key
      ensures HolderSound(st', key)
    {
      assert HolderSound(st, key);
    }
    forall key
      ensures RowSound(st', key)
    {
      assert RowSound(st, key);
    }
    forall i | 0 <= i < |st'.effects|
      ensures EffectSound(st', i)
    {
      assert EffectSound(st, i);
    }
  }

  lemma CommitKeeps(st: State, c: CallId, value: Value, p: Phase)
    requires Inv(st) && c < |st.calls| && st.calls[c].phase in {Committing(Fresh(value)), Handed(value)}
    requires p == Returned(Fresh(value)) || (p.Failing? && p.error.Database? && st.calls[c].phase.Committing?)
    ensures Inv(Committed(st, c, value, p))
  {
    var st' := Committed(st, c, value, p);
    var key := st.calls[c].key;
    assert CallSound(st, c) && HolderSound(st, key);
    forall d | 0 <= d < |st'.calls|
      ensures CallSound(st', d)
    {
      if d != c {
        OtherUnaffectedByCommit(st, c, value, p, d);
      }
    }
    forall k
      ensures HolderSound(st', k)
    {
      assert HolderSound(st, k);
    }
    forall k
      ensures RowSound(st', k)
    {
      assert RowSound(st, k);
    }
    forall i | 0 <= i < |st'.effects|
      ensures EffectSound(st', i)
    {
      if i < |st.effects| {
        assert EffectSound(st, i);
      }
    }
  }

  lemma OtherUnaffectedByCommit(st: State, c: CallId, value: Value, p: Phase, d: CallId)
    requires Inv(st) && c < |st.calls| && st.calls[c].phase in {Committing(Fresh(value)), Handed(value)}
    requires d < |st.calls| && d != c
    requires Evolves(st.calls[c], st.calls[c].(phase := p))
    ensures CallSound(Committed(st, c, value, p), d)
  {
    var key := st.calls[c].key;
    assert CallSound(st, c) && HolderSound(st, key) && CallSound(st, d);
    UncommittedKeyHasNoEffect(st, key);
  }

  lemma UncommittedKeyHasNoEffect(st: State, key: Key)
    requires Inv(st) && key !in st.table
    ensures forall i :: 0 <= i < |st.effects| ==> st.effects[i].key != key
  {
    forall i | 0 <= i < |st.effects|
      ensures st.effects[i].key != key
    {
      assert EffectSound(st, i);
    }
  }

  /** A new call, be it one that has begun or one answered at once inside an open transaction. */
  lemma AppendKeeps(st: State, call: Call)
    requires Inv(st) && (call.phase.Beginning? || call.phase.Refused? || call.phase.Echoed?)
    requires SourceSound(st, call)
    ensures Inv(st.(calls := st.calls + [call]))
  {
    var st' := st.(calls := st.calls + [call]);
    forall c | 0 <= c < |st'.calls|
      ensures CallSound(st', c)
    {
      if c < |st.calls| {
        OtherCallStaysSound(st, st', c);
      }
    }
    forall key
      ensures HolderSound(st', key)
    {
      assert HolderSound(st, key);
    }
    forall key
      ensures RowSound(st', key)
    {
      assert RowSound(st, key);
    }
    forall i | 0 <= i < |st'.effects|
      ensures EffectSound(st', i)
    {
      assert EffectSound(st, i);
    }
  }

  lemma SelectIsPrivate(st: State, maxAttempts: nat, step: Step)
    requires Inv(st) && step.Select? && step.c < |st.calls| && Next(st, maxAttempts, step) != st
    ensures Private(st, step.c, Next(st, maxAttempts, step)) && CallSound(Next(st, maxAttempts, step), step.c)
  {
    var key := st.calls[step.c].key;
    assert CallSound(st, step.c) && HolderSound(st, key) && RowSound(st, key);
  }

  lemma WithdrawIsPrivate(st: State, maxAttempts: nat, step: Step)
    requires Inv(st) && step.Withdraw? && step.c < |st.calls| && Next(st, maxAttempts, step) != st
    ensures Private(st, step.c, Next(st, maxAttempts, step)) && CallSound(Next(st, maxAttempts, step), step.c)
  {
    assert CallSound(st, step.c);
    HolderHasNoEffect(st, step.c);
    hide HolderSound, RowSound, EffectSound, RowOf, ReplySound;
  }

  lemma EndIsPrivate(st: State, maxAttempts: nat, step: Step)
    requires Inv(st) && (step.Rollback? || step.Crash?) && step.c < |st.calls| && Next(st, maxAttempts, step) != st
    ensures Private(st, step.c, Next(st, maxAttempts, step)) && CallSound(Next(st, maxAttempts, step), step.c)
  {
    assert CallSound(st, step.c);
    hide HolderSound, RowSound, EffectSound, RowOf, ReplySound;
  }

  lemma InsertIsPrivate(st: State, maxAttempts: nat, step: Step)
    requires Inv(st) && step.Insert? && step.c < |st.calls| && Next(st, maxAttempts, step) != st
    ensures Private(st, step.c, Next(st, maxAttempts, step)) && CallSound(Next(st, maxAttempts, step), step.c)
  {
    assert CallSound(st, step.c) && HolderSound(st, st.calls[step.c].key);
    hide RowSound, EffectSound, RowOf, ReplySound;
  }

  lemma HolderHasNoEffect(st: State, c: CallId)
    requires Inv(st) && c < |st.calls| && Inserted(st.calls[c].phase)
    ensures NoEffectBy(st, c)
  {
    assert CallSound(st, c) && HolderSound(st, st.calls[c].key);
    UncommittedKeyHasNoEffect(st, st.calls[c].key);
    forall i | 0 <= i < |st.effects|
      ensures st.effects[i].caller != c
    {
      assert EffectSound(st, i);
    }
  }

  predicate CommitsEffect(st: State, step: Step)
    requires !step.Start? && step.c < |st.calls|
  {
    ((step.Commit? || step.LoseCommit?) && st.calls[step.c].phase.Handed?)
    || ((step.Commit? || step.LoseCommit?) && st.calls[step.c].phase.Committing? && st.calls[step.c].phase.reply.Fresh?)
  }

  lemma StepIsPrivate(st: State, maxAttempts: nat, step: Step)
    requires Inv(st) && !step.Start? && step.c < |st.calls| && Next(st, maxAttempts, step) != st
    requires !CommitsEffect(st, step) && !SwallowsKey(st, step, st.calls[step.c].key) && !step.Reenter?
    ensures Private(st, step.c, Next(st, maxAttempts, step)) && CallSound(Next(st, maxAttempts, step), step.c)
  {
    if step.Select? {
      SelectIsPrivate(st, maxAttempts, step);
    } else if step.Withdraw? {
      WithdrawIsPrivate(st, maxAttempts, step);
    } else if step.Rollback? || step.Crash? {
      EndIsPrivate(st, maxAttempts, step);
    } else if step.Insert? {
      InsertIsPrivate(st, maxAttempts, step);
    } else {
      assert CallSound(st, step.c) && HolderSound(st, st.calls[step.c].key);
    }
  }

  /** A swallowed error commits the row the call had inserted, and nothing else. */
  lemma SwallowKeeps(st: State, maxAttempts: nat, step: Step, key: Key)
    requires Inv(st) && SwallowsKey(st, step, key)
    ensures key !in st.table && Inv(Next(st, maxAttempts, step))
  {
    var st' := Next(st, maxAttempts, step);
    assert HolderSound(st, key) && CallSound(st, step.c);
    forall d | 0 <= d < |st'.calls|
      ensures CallSound(st', d)
    {
      if d != step.c {
        OtherCallStaysSound(st, st', d);
      }
    }
    forall k
      ensures HolderSound(st', k)
    {
      assert HolderSound(st, k);
    }
    forall k
      ensures RowSound(st', k)
    {
      assert RowSound(st, k);
    }
    forall i | 0 <= i < |st'.effects|
      ensures EffectSound(st', i)
    {
      assert EffectSound(st, i);
    }
  }

  lemma NextKeeps(st: State, maxAttempts: nat, step: Step)
    requires Inv(st)
    ensures Inv(Next(st, maxAttempts, step))
  {
    if step.Start? {
      AppendKeeps(st, Call(step.key, step.hash, step.sensitive, 1, Beginning));
    } else if step.c < |st.calls| && Next(st, maxAttempts, step) != st {
      if step.Reenter? {
        AppendKeeps(st, Next(st, maxAttempts, step).calls[|st.calls|]);
      } else if CommitsEffect(st, step) {
        var p := st.calls[step.c].phase;
        var value := if p.Handed? then p.value else p.reply.value;
        CommitKeeps(st, step.c, value, if step.Commit? || p.Handed? then Returned(Fresh(value)) else Failing(Database(step.code)));
      } else if SwallowsKey(st, step, st.calls[step.c].key) {
        SwallowKeeps(st, maxAttempts, step, st.calls[step.c].key);
      } else {
        StepIsPrivate(st, maxAttempts, step);
        PrivateKeeps(st, step.c, Next(st, maxAttempts, step));
      }
    }
  }

  lemma {:induction false} ExecKeeps(maxAttempts: nat, steps: seq<Step>)
    ensures Inv(Exec(maxAttempts, steps))
  {
    if steps != [] {
      ExecKeeps(maxAttempts, steps[..|steps| - 1]);
      NextKeeps(Exec(maxAttempts, steps[..|steps| - 1]), maxAttempts, steps[|steps| - 1]);
    }
  }

  // ---- When a row is PENDING ----

  predicate PendingRow(st: State, key: Key) {
    key in st.table && st.table[key].status.Pending?
  }

  /** One step makes a key's row PENDING exactly by swallowing an error of a call that holds the key. */
  lemma PendingMoves(st: State, maxAttempts: nat, step: Step, key: Key)
    requires Inv(st)
    ensures PendingRow(Next(st, maxAttempts, step), key) <==> PendingRow(st, key) || SwallowsKey(st, step, key)
  {
    if !step.Start? && step.c < |st.calls| && Next(st, maxAttempts, step) != st {
      var own := st.calls[step.c].key;
      assert CallSound(st, step.c) && HolderSound(st, own);
      hide CallSound, HolderSound, RowSound, EffectSound;
      if !CommitsEffect(st, step) && !SwallowsKey(st, step, own) && !step.Reenter? {
        StepIsPrivate(st, maxAttempts, step);
        hide Next, Evolves;
      }
    }
  }

  /**
    In every run a key's row is PENDING exactly if, somewhere in the run, an enclosing
    transaction swallowed the error of a call that held the key.
   */
  lemma {:induction false} PendingIffSwallowed(maxAttempts: nat, steps: seq<Step>, key: Key)
    ensures PendingRow(Exec(maxAttempts, steps), key) <==> Swallowed(maxAttempts, steps, key)
  {
    if steps != [] {
      var init := steps[..|steps| - 1];
      PendingIffSwallowed(maxAttempts, init, key);
      ExecKeeps(maxAttempts, init);
      PendingMoves(Exec(maxAttempts, init), maxAttempts, steps[|steps| - 1], key);
    }
  }

  /**
    Once that has happened the key is lost: whatever comes later, no call with the key,
    earlier or later, is ever answered, and the row stays PENDING.
   */
  lemma {:induction false} SwallowedErrorBlocksTheKey(maxAttempts: nat, steps: seq<Step>, later: seq<Step>, key: Key)
    requires Swallowed(maxAttempts, steps, key)
    ensures var st := Exec(maxAttempts, steps + later);
            && PendingRow(st, key)
            && forall c :: 0 <= c < |st.calls| && st.calls[c].key == key ==> !st.calls[c].phase.Returned?
  {
    SwallowedForEver(maxAttempts, steps, later, key);
    PendingIffSwallowed(maxAttempts, steps + later, key);
    ExecKeeps(maxAttempts, steps + later);
    var st := Exec(maxAttempts, steps + later);
    forall c | 0 <= c < |st.calls| && st.calls[c].key == key
      ensures !st.calls[c].phase.Returned?
    {
      assert CallSound(st, c) && RowSound(st, key);
    }
  }

  lemma {:induction false} SwallowedForEver(maxAttempts: nat, steps: seq<Step>, later: seq<Step>, key: Key)
    requires Swallowed(maxAttempts, steps, key)
    ensures Swallowed(maxAttempts, steps + later, key)
  {
    if later == [] {
      assert steps + later == steps;
    } else {
      SwallowedForEver(maxAttempts, steps, later[..|later| - 1], key);
      assert (steps + later)[..|steps + later| - 1] == steps + later[..|later| - 1];
    }
  }

  /** Such a run exists: the first call's operation throws, and the enclosing transaction commits. */
  lemma SwallowingRun(maxAttempts: nat, key: Key, hash: Hash, name: string)
    requires maxAttempts > 0
    ensures Swallowed(maxAttempts, [Start(key, hash, false), Insert(0), Fail(0, Business(name)), Swallow(0)], key)
  {
    var all := [Start(key, hash, false), Insert(0), Fail(0, Business(name)), Swallow(0)];
    var one, two, three := all[..1], all[..2], all[..3];
    assert one[..0] == [] && two[..1] == one && three[..2] == two && all[..3] == three;
    var call := Call(key, hash, false, 1, Beginning);
    assert Exec(maxAttempts, one) == INITIAL.(calls := [call]);
    assert Exec(maxAttempts, two) == INITIAL.(calls := [call.(phase := Operating)], holders := map[key := 0]);
    assert Exec(maxAttempts, three) == INITIAL.(calls := [call.(phase := Failing(Business(name)))], holders := map[key := 0]);
  }

  // ---- What callers may rely on ----

  /**
    In every run, whatever fails, breaks, loses its acknowledgement or is retried, and
    for every key none of whose errors was swallowed: the key has exactly one committed
    effect if it has a row, and none otherwise, and the row holds that effect's hash and
    result. No key ever has two.
   */
  lemma OneEffectPerRow(maxAttempts: nat, steps: seq<Step>, key: Key)
    ensures var st := Exec(maxAttempts, steps);
            && (forall i, j :: 0 <= i < j < |st.effects| ==> st.effects[i].key != st.effects[j].key)
            && ((exists i :: 0 <= i < |st.effects| && st.effects[i].key == key)
                <==> key in st.table && !Swallowed(maxAttempts, steps, key))
            && (forall i :: 0 <= i < |st.effects| && st.effects[i].key == key ==>
                  var e := st.effects[i]; key in st.table && st.table[key] == Row(e.hash, Applied(ToStore(e.sensitive, e.value))))
  {
    ExecKeeps(maxAttempts, steps);
    PendingIffSwallowed(maxAttempts, steps, key);
    var st := Exec(maxAttempts, steps);
    EffectsAreDistinct(st);
    assert RowSound(st, key);
    if key in st.writer {
      assert st.effects[st.writer[key]].key == key;
    }
    forall i | 0 <= i < |st.effects| && st.effects[i].key == key
      ensures key in st.writer && st.writer[key] == i
    {
      assert EffectSound(st, i);
    }
  }

  lemma EffectsAreDistinct(st: State)
    requires Inv(st)
    ensures forall i, j :: 0 <= i < j < |st.effects| ==> st.effects[i].key != st.effects[j].key
  {
    forall i, j | 0 <= i < j < |st.effects|
      ensures st.effects[i].key != st.effects[j].key
    {
      assert EffectSound(st, i) && EffectSound(st, j);
    }
  }

  /** A call that returns was answered with the key's one committed effect, which ran the very same request. */
  lemma ReturnsTheCommittedResult(maxAttempts: nat, steps: seq<Step>, c: CallId)
    requires var st := Exec(maxAttempts, steps); c < |st.calls| && st.calls[c].phase.Returned?
    ensures var st := Exec(maxAttempts, steps); var call := st.calls[c];
            exists i :: 0 <= i < |st.effects| && Explains(st.effects[i], call, c)
  {
    ExecKeeps(maxAttempts, steps);
    var st := Exec(maxAttempts, steps);
    var key := st.calls[c].key;
    assert CallSound(st, c) && RowSound(st, key);
    assert Explains(st.effects[st.writer[key]], st.calls[c], c);
  }

  /**
    A result handed to an enclosing transaction that was rolled back left nothing: the
    call has no committed effect, and its key may have been used again since.
   */
  lemma WithdrawnLeavesNothing(maxAttempts: nat, steps: seq<Step>, c: CallId)
    requires var st := Exec(maxAttempts, steps); c < |st.calls| && st.calls[c].phase.Withdrawn?
    ensures NoEffectBy(Exec(maxAttempts, steps), c)
  {
    ExecKeeps(maxAttempts, steps);
    assert CallSound(Exec(maxAttempts, steps), c);
  }

  /** The reply a call returned follows from the effect: fresh to the call that ran it, a replay to all others. */
  predicate Explains(e: Effect, call: Call, c: CallId)
  {
    && e.key == call.key && e.hash == call.hash && call.phase.Returned?
    && match call.phase.reply
       case Fresh(value) => e.caller == c && e.value == value
       case Stale(result) => !call.sensitive && result == ToStore(e.sensitive, e.value)
       case Replayed => call.sensitive
  }

  /**
    Two branches are taken for a row that is still PENDING: for a key one of whose
    errors was swallowed, and for a call made inside the transaction of another call
    with the key and hash. A key conflict is with another committed hash, or with that
    of the call whose transaction it is made in.
   */
  lemma RaisedForAReason(maxAttempts: nat, steps: seq<Step>, c: CallId)
    requires var st := Exec(maxAttempts, steps);
             c < |st.calls| && (st.calls[c].phase.Failing? || st.calls[c].phase.Raised? || st.calls[c].phase.Refused?)
    ensures var st := Exec(maxAttempts, steps); var call := st.calls[c];
            && (!call.phase.Refused? ==>
                  && (call.phase.error == OperationPending ==> Swallowed(maxAttempts, steps, call.key))
                  && (call.phase.error == KeyReused ==> call.key in st.table && st.table[call.key].hash != call.hash))
            && (call.phase.Refused? ==>
                  && call.phase.source < |st.calls| && st.calls[call.phase.source].key == call.key
                  && call.phase.error == if st.calls[call.phase.source].hash == call.hash then OperationPending else KeyReused)
  {
    ExecKeeps(maxAttempts, steps);
    var st := Exec(maxAttempts, steps);
    assert CallSound(st, c);
    PendingIffSwallowed(maxAttempts, steps, st.calls[c].key);
  }

  /**
    A call answered inside the transaction of another was told that call's result, for
    the same request; where that transaction commits, it is the key's one committed effect.
   */
  lemma EchoIsOfItsTransaction(maxAttempts: nat, steps: seq<Step>, c: CallId)
    requires var st := Exec(maxAttempts, steps); c < |st.calls| && st.calls[c].phase.Echoed?
    ensures var st := Exec(maxAttempts, steps); var call := st.calls[c];
            && call.phase.source < |st.calls|
            && var host := st.calls[call.phase.source];
               && host.key == call.key && host.hash == call.hash
               && (host.phase.Returned? ==>
                     exists i :: 0 <= i < |st.effects| && Explains(st.effects[i], host, call.phase.source)
                                 && call.phase.reply == Echo(host, call.sensitive, st.effects[i].value))
  {
    ExecKeeps(maxAttempts, steps);
    var st := Exec(maxAttempts, steps);
    assert CallSound(st, c);
    var source := st.calls[c].phase.source;
    if st.calls[source].phase.Returned? {
      ReturnsTheCommittedResult(maxAttempts, steps, source);
    }
  }

  /** While one call has a key inserted and uncommitted, an INSERT of the same key waits. */
  lemma SecondInsertWaits(maxAttempts: nat, steps: seq<Step>, c: CallId, d: CallId)
    requires var st := Exec(maxAttempts, steps);
             c < |st.calls| && d < |st.calls| && c != d && st.calls[c].key == st.calls[d].key && Inserted(st.calls[c].phase)
    ensures var st := Exec(maxAttempts, steps);
            !Inserted(st.calls[d].phase) && (st.calls[d].phase.Beginning? ==> Next(st, maxAttempts, Insert(d)) == st)
  {
    ExecKeeps(maxAttempts, steps);
    var st := Exec(maxAttempts, steps);
    assert CallSound(st, c) && CallSound(st, d) && HolderSound(st, st.calls[c].key);
  }

  /** A call that begins on an applied row of its own request is answered from the row, with no new effect. */
  lemma AppliedRowAnswers(maxAttempts: nat, st: State, c: CallId, stored: Stored)
    requires c < |st.calls| && st.calls[c].phase.Beginning? && RowOf(st, st.calls[c], stored)
    ensures var answered := Next(Next(Next(st, maxAttempts, Insert(c)), maxAttempts, Select(c)), maxAttempts, Commit(c));
            && answered.effects == st.effects && |answered.calls| == |st.calls|
            && answered.calls[c].phase == Returned(if st.calls[c].sensitive then Replayed else Stale(stored))
  {
    assert Next(st, maxAttempts, Insert(c)) == Goto(st, c, Selecting);
  }

  /**
    A call whose own COMMIT took effect but whose acknowledgement was lost under a
    retried code comes back, finds its row, and is given its own result as a replay.
   */
  lemma RetryFindsItsOwnRow(maxAttempts: nat, st: State, c: CallId, value: Value, code: string)
    requires c < |st.calls| && st.calls[c].phase == Committing(Fresh(value)) && st.calls[c].attempt < maxAttempts
    requires Retryable(Database(code))
    ensures var lost := Next(st, maxAttempts, LoseCommit(c, code));
            var back := Next(lost, maxAttempts, Rollback(c));
            var answered := Next(Next(Next(back, maxAttempts, Insert(c)), maxAttempts, Select(c)), maxAttempts, Commit(c));
            && |answered.calls| == |st.calls| && answered.effects == lost.effects && |lost.effects| == |st.effects| + 1
            && answered.calls[c].phase == Returned(if st.calls[c].sensitive then Replayed else Stale(Result(value)))
  {
    var lost := Next(st, maxAttempts, LoseCommit(c, code));
    var back := Next(lost, maxAttempts, Rollback(c));
    var stored := ToStore(st.calls[c].sensitive, value);
    assert back.calls[c].phase.Beginning? && RowOf(back, back.calls[c], stored);
    AppliedRowAnswers(maxAttempts, back, c, stored);
  }
}
