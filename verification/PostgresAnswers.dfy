/**
  What a call of the PostgreSQL idempotency store answers and leaves behind, step by
  step and for every state of the protocol
  (apps/backend/src/modules/gateway/infrastructure/postgres-idempotency.store.ts:51-141,
  apps/backend/src/infrastructure/postgres/postgres-transaction.ts:43-68).
 */
module PostgresAnswers {
  import opened PostgresIdempotency

  /** Only this call's own progress, apart from what is said of the rest. */
  ghost predicate OnlyCall(st: State, st': State, c: CallId) {
    |st'.calls| == |st.calls| && forall d :: 0 <= d < |st.calls| && d != c ==> st'.calls[d] == st.calls[d]
  }

  ghost predicate OnlyKey<V>(before: map<Key, V>, after: map<Key, V>, key: Key) {
    forall k :: k != key ==> (k in after <==> k in before) && (k in before ==> after[k] == before[k])
  }

  /**
    A call with a key that has no row and that no open transaction holds: it inserts and
    holds the key, runs its operation, and COMMIT makes row and effect visible together.
    The row holds the result, or only a marker where the result is a credential.
   */
  lemma NewKeyIsApplied(st: State, maxAttempts: nat, c: CallId, value: Value)
    requires c < |st.calls| && st.calls[c].phase.Beginning?
    requires st.calls[c].key !in st.table && st.calls[c].key !in st.holders
    ensures var call := st.calls[c];
            var inserted := Next(st, maxAttempts, Insert(c));
            var updated := Next(Next(inserted, maxAttempts, Operate(c, value)), maxAttempts, Update(c));
            var done := Next(updated, maxAttempts, Commit(c));
            && inserted.holders == st.holders[call.key := c] && inserted.table == st.table
            && updated.table == st.table && updated.effects == st.effects && updated.holders == inserted.holders
            && OnlyCall(st, done, c)
            && done.calls[c] == call.(phase := Returned(Fresh(value)))
            && done.effects == st.effects + [Effect(call.key, call.hash, c, call.sensitive, value)]
            && OnlyKey(st.table, done.table, call.key)
            && call.key in done.table
            && done.table[call.key].hash == call.hash
            && done.table[call.key].status == Applied(if call.sensitive then CredentialIssued else Result(value))
            && done.holders == st.holders
  {
    hide Released;
    var call := st.calls[c];
    var inserted := Next(st, maxAttempts, Insert(c));
    assert inserted.calls[c] == call.(phase := Operating) && inserted.holders == st.holders[call.key := c];
    var operated := Next(inserted, maxAttempts, Operate(c, value));
    assert operated.calls[c] == call.(phase := Updating(value)) && operated.holders == inserted.holders;
    var updated := Next(operated, maxAttempts, Update(c));
    assert updated.calls[c] == call.(phase := Committing(Fresh(value))) && updated.holders == inserted.holders;
    ReleasedAgain(st, updated, c);
  }

  lemma ReleasedAgain(st: State, st': State, c: CallId)
    requires c < |st.calls| && |st'.calls| == |st.calls| && st'.calls[c].key == st.calls[c].key
    requires st.calls[c].key !in st.holders && st'.holders == st.holders[st.calls[c].key := c]
    ensures Released(st', c) == st.holders
  {
    assert st'.holders - {st.calls[c].key} == st.holders;
  }

  /**
    A call with a key that has a row: another hash is a conflict, a row still PENDING is
    an error, and otherwise it is answered from the row, or told of a replay if it asks
    for a credential; nothing is written.
   */
  lemma RowIsAnswered(st: State, maxAttempts: nat, c: CallId)
    requires c < |st.calls| && st.calls[c].phase.Beginning? && st.calls[c].key in st.table
    ensures var call, row := st.calls[c], st.table[st.calls[c].key];
            var selected := Next(Next(st, maxAttempts, Insert(c)), maxAttempts, Select(c));
            var done := Next(selected, maxAttempts, Commit(c));
            && done.table == st.table && done.effects == st.effects && done.holders == st.holders && OnlyCall(st, done, c)
            && (row.hash != call.hash ==> selected.calls[c].phase == Failing(KeyReused))
            && (row.hash == call.hash && row.status.Pending? ==> selected.calls[c].phase == Failing(OperationPending))
            && (row.hash == call.hash && row.status.Applied? && call.sensitive ==>
                  done.calls[c] == call.(phase := Returned(Replayed)))
            && (row.hash == call.hash && row.status.Applied? && !call.sensitive ==>
                  done.calls[c] == call.(phase := Returned(Stale(row.status.result))))
  {
    hide Committed, Released;
    var inserted := Next(st, maxAttempts, Insert(c));
    assert inserted.calls[c] == st.calls[c].(phase := Selecting) && inserted.table == st.table;
  }

  /** An INSERT waits exactly while another open transaction holds the key and has not committed it. */
  lemma InsertWaitsExactly(st: State, maxAttempts: nat, c: CallId)
    requires c < |st.calls| && st.calls[c].phase.Beginning?
    ensures Next(st, maxAttempts, Insert(c)) == st <==> st.calls[c].key !in st.table && st.calls[c].key in st.holders
  {
    assert Next(st, maxAttempts, Insert(c)) != st ==> !Next(st, maxAttempts, Insert(c)).calls[c].phase.Beginning?;
  }

  /** The transaction of a call that failed is rolled back: nothing is written, the key is free again if it held it. */
  lemma RollbackExactly(st: State, maxAttempts: nat, c: CallId)
    requires c < |st.calls| && st.calls[c].phase.Failing?
    ensures var call, st' := st.calls[c], Next(st, maxAttempts, Rollback(c));
            var e := call.phase.error;
            var again := e.Database? && (e.code == "40001" || e.code == "40P01" || e.code == "55P03") && call.attempt != maxAttempts;
            && st'.table == st.table && st'.effects == st.effects && OnlyCall(st, st', c)
            && (again ==> st'.calls[c] == call.(attempt := call.attempt + 1, phase := Beginning))
            && (!again ==> st'.calls[c] == call.(phase := Raised(e)))
            && OnlyKey(st.holders, st'.holders, call.key)
            && (call.key in st'.holders <==> call.key in st.holders && st.holders[call.key] != c)
  {
  }

  /** Inside an enclosing transaction a call hands its result over and keeps the key until that one ends. */
  lemma HandedExactly(st: State, maxAttempts: nat, c: CallId, value: Value)
    requires c < |st.calls| && st.calls[c].phase == Committing(Fresh(value))
    requires st.calls[c].key in st.holders && st.holders[st.calls[c].key] == c
    ensures var call, handed := st.calls[c], Next(st, maxAttempts, Hand(c));
            && handed == st.(calls := st.calls[c := call.(phase := Handed(value))])
            && Next(handed, maxAttempts, Withdraw(c))
               == st.(calls := st.calls[c := call.(phase := Withdrawn(value))], holders := st.holders - {call.key})
            && var done := Next(handed, maxAttempts, Commit(c));
               && done.calls == st.calls[c := call.(phase := Returned(Fresh(value)))]
               && done.effects == st.effects + [Effect(call.key, call.hash, c, call.sensitive, value)]
               && done.table == st.table[call.key :=
                    Row(call.hash, Applied(if call.sensitive then CredentialIssued else Result(value)))]
               && done.holders == st.holders - {call.key}
  {
    var call := st.calls[c];
    var handed := Next(st, maxAttempts, Hand(c));
    assert handed.calls[c := call.(phase := Withdrawn(value))] == st.calls[c := call.(phase := Withdrawn(value))];
    assert handed.calls[c := call.(phase := Returned(Fresh(value)))] == st.calls[c := call.(phase := Returned(Fresh(value)))];
  }

  /**
    A second call of the key inside the open transaction of the first: PENDING while that
    one's operation runs, its result once it has handed it over, and a conflict for another request.
   */
  lemma ReenteringIsAnswered(st: State, maxAttempts: nat, c: CallId, hash: Hash, sensitive: bool)
    requires c < |st.calls| && (st.calls[c].phase.Operating? || st.calls[c].phase.Updating? || st.calls[c].phase.Handed?)
    ensures var host, st' := st.calls[c], Next(st, maxAttempts, Reenter(c, hash, sensitive));
            var n := |st.calls|;
            && |st'.calls| == n + 1 && st'.calls[..n] == st.calls && st' == st.(calls := st'.calls)
            && st'.calls[n].key == host.key && st'.calls[n].hash == hash && st'.calls[n].sensitive == sensitive
            && (hash != host.hash ==> st'.calls[n].phase == Refused(KeyReused, c))
            && (hash == host.hash && !host.phase.Handed? ==> st'.calls[n].phase == Refused(OperationPending, c))
            && (hash == host.hash && host.phase.Handed? && sensitive ==> st'.calls[n].phase == Echoed(Replayed, c))
            && (hash == host.hash && host.phase.Handed? && !sensitive ==>
                  st'.calls[n].phase == Echoed(Stale(if host.sensitive then CredentialIssued else Result(host.phase.value)), c))
  {
  }

  /**
    A refused connection, a failing statement, a throwing operation and a crash write
    nothing; a crash leaves the key the call held free, as the server rolls back.
   */
  lemma InterruptionsWriteNothing(st: State, maxAttempts: nat, c: CallId, code: string, error: Error)
    requires c < |st.calls|
    ensures var call := st.calls[c];
            var refused, failed, crashed := Next(st, maxAttempts, Refuse(c, code)), Next(st, maxAttempts, Fail(c, error)),
                                            Next(st, maxAttempts, Crash(c));
            && refused == st.(calls := refused.calls) && OnlyCall(st, refused, c)
            && failed == st.(calls := failed.calls) && OnlyCall(st, failed, c)
            && crashed == st.(calls := crashed.calls, holders := crashed.holders) && OnlyCall(st, crashed, c)
            && (call.phase.Beginning? ==> refused.calls[c] == call.(phase := Raised(Database(code))))
            && (call.phase.Operating? && error.Business? ==> failed.calls[c] == call.(phase := Failing(error)))
            && ((Open(call.phase) || call.phase.Beginning?) && error.Database? ==> failed.calls[c] == call.(phase := Failing(error)))
            && (Open(call.phase) || call.phase.Handed? ==>
                  crashed.calls[c] == call.(phase := Crashed)
                  && (call.key in crashed.holders <==> call.key in st.holders && st.holders[call.key] != c))
            && OnlyKey(st.holders, crashed.holders, call.key)
  {
    hide Committed;
  }

  // ---- Over whole runs ----

  /** In every run the row of a credential never holds it, and any other row holds the result of its effect. */
  lemma CredentialsAreNeverStored(maxAttempts: nat, steps: seq<Step>, i: nat)
    requires i < |Exec(maxAttempts, steps).effects|
    ensures var st := Exec(maxAttempts, steps);
            var e := st.effects[i];
            && e.key in st.table
            && (e.sensitive ==> st.table[e.key].status == Applied(CredentialIssued))
            && (!e.sensitive ==> st.table[e.key].status == Applied(Result(e.value)))
  {
    OneEffectPerRow(maxAttempts, steps, Exec(maxAttempts, steps).effects[i].key);
    hide Exec;
  }

  /** Every call has made between one and the allowed number of attempts. */
  ghost predicate Bounded(st: State, maxAttempts: nat) {
    forall c :: 0 <= c < |st.calls| ==> 1 <= st.calls[c].attempt <= maxAttempts
  }

  lemma NextKeepsAttempts(st: State, maxAttempts: nat, step: Step)
    requires Bounded(st, maxAttempts)
    ensures Bounded(Next(st, maxAttempts, step), maxAttempts)
  {
    if !step.Start? && step.c < |st.calls| {
      OneCallMoves(st, maxAttempts, step);
      assert 1 <= st.calls[step.c].attempt <= maxAttempts;
      hide Next;
    }
  }

  /** A step moves its own call on, or adds one that is answered at once; only a retry counts as an attempt. */
  lemma OneCallMoves(st: State, maxAttempts: nat, step: Step)
    requires !step.Start? && step.c < |st.calls|
    ensures var before, after := st.calls, Next(st, maxAttempts, step).calls;
            || (&& |after| == |before| && after == before[step.c := after[step.c]]
                && (after[step.c].attempt == before[step.c].attempt
                    || (after[step.c].attempt == before[step.c].attempt + 1 && before[step.c].attempt != maxAttempts)))
            || (&& |after| == |before| + 1 && after[..|before|] == before && after[|before|].attempt == 1)
  {
    if !step.Rollback? && !step.Reenter? {
      PhaseMoves(st, maxAttempts, step);
      hide Next;
    }
  }

  lemma PhaseMoves(st: State, maxAttempts: nat, step: Step)
    requires !step.Start? && step.c < |st.calls| && !step.Rollback? && !step.Reenter?
    ensures var call, after := st.calls[step.c], Next(st, maxAttempts, step).calls;
            after == st.calls || (|after| == |st.calls| && after == st.calls[step.c := call.(phase := after[step.c].phase)])
  {
    hide Released, Retryable, Echo;
    match step {
      case Commit(_) =>
      case LoseCommit(_, _) =>
      case Swallow(_) =>
      case _ => hide Committed;
    }
  }

  /** In every run no call makes more than the allowed number of attempts. */
  lemma {:induction false} AttemptsAreBounded(maxAttempts: nat, steps: seq<Step>)
    ensures Bounded(Exec(maxAttempts, steps), maxAttempts)
  {
    if steps != [] {
      AttemptsAreBounded(maxAttempts, steps[..|steps| - 1]);
      NextKeepsAttempts(Exec(maxAttempts, steps[..|steps| - 1]), maxAttempts, steps[|steps| - 1]);
      hide Next;
    }
  }
}
