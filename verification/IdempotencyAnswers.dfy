/**
  What each call and callback of the in-memory idempotency store does, said without its
  own decision function
  (apps/backend/src/modules/gateway/application/gateway.idempotency.ts:87-163).
 */
module IdempotencyAnswers {
  import opened Idempotency

  ghost predicate OnlyKey<V>(before: map<Key, V>, after: map<Key, V>, key: Key) {
    forall k :: k != key ==> (k in after <==> k in before) && (k in before ==> after[k] == before[k])
  }

  /**
    A call is answered at once from the key's record if there is one, then from the
    operation in flight if there is one; a plain caller is given the record or waits for
    the operation, a caller for a credential is told of a replay, another request is a
    conflict. Otherwise it starts the operation and waits for it.
   */
  lemma CallAnswersExactly(st: State, key: Key, fingerprint: Fingerprint, sensitive: bool)
    ensures var st' := Next(st, Call(key, fingerprint, sensitive));
            var n, told := |st.callers|, key in st.records || key in st.inFlight;
            var other := if key in st.records then st.records[key].fingerprint != fingerprint
                         else key in st.inFlight && st.inFlight[key].fingerprint != fingerprint;
            && |st'.callers| == n + 1 && st'.callers[..n] == st.callers
            && st'.records == st.records && st'.winner == st.winner
            && var c := st'.callers[n];
               && c.key == key && c.fingerprint == fingerprint && c.sensitive == sensitive
               && (c.reply == Conflict <==> told && other)
               && (c.reply == Replayed <==> told && !other && sensitive)
               && (key in st.records && !other && !sensitive ==> c.reply == Ready(st.records[key].result))
               && (key !in st.records && key in st.inFlight && !other && !sensitive ==> c.reply == Await(st.inFlight[key].op))
               && (told ==> st'.ops == st.ops && st'.inFlight == st.inFlight)
               && (!told ==>
                     (&& c.reply == Await(|st.ops|)
                      && st'.ops == st.ops + [Op(key, fingerprint, sensitive, n, Running)]
                      && OnlyKey(st.inFlight, st'.inFlight, key)
                      && key in st'.inFlight && st'.inFlight[key] == Flight(fingerprint, |st.ops|)))
  {
  }

  /** The callers that wait for the operation. */
  predicate Waits(st: State, n: CallId, i: OpId) {
    n < |st.callers| && st.callers[n].reply == Await(i)
  }

  /**
    An operation that succeeds: its key gets the record, of the result or of a marker for
    a credential; when the promise has settled the key is no longer in flight, and every
    caller that waits is given the result.
   */
  lemma SuccessIsRecorded(st: State, i: OpId, value: Value)
    requires i < |st.ops| && st.ops[i].phase == Running
    ensures var op, recorded := st.ops[i], Next(st, Fulfil(i, value));
            var done := Next(recorded, Finally(i));
            && recorded.inFlight == st.inFlight && done.records == recorded.records
            && OnlyKey(st.records, done.records, op.key) && OnlyKey(st.inFlight, done.inFlight, op.key)
            && op.key in done.records && op.key !in done.inFlight
            && done.records[op.key].fingerprint == op.fingerprint
            && done.records[op.key].result == (if op.sensitive then CredentialIssued else Result(value))
            && done.callers == st.callers
            && (forall n: nat :: Waits(st, n, i) ==>
                  AnswerTo(st, st.callers[n]) == Nothing && AnswerTo(recorded, st.callers[n]) == Nothing
                  && AnswerTo(done, st.callers[n]) == Got(Result(value)))
            && (forall j :: 0 <= j < |st.ops| && j != i ==> done.ops[j] == st.ops[j]) && |done.ops| == |st.ops|
  {
  }

  /** One that fails leaves no record: the key is free again, and every caller that waits is given the error. */
  lemma FailureFreesTheKey(st: State, i: OpId, error: string)
    requires i < |st.ops| && st.ops[i].phase == Running
    ensures var op := st.ops[i];
            var done := Next(Next(st, Reject(i, error)), Finally(i));
            && done.records == st.records && OnlyKey(st.inFlight, done.inFlight, op.key) && op.key !in done.inFlight
            && done.callers == st.callers
            && (forall n: nat :: Waits(st, n, i) ==> AnswerTo(done, st.callers[n]) == Raised(error))
            && (forall j :: 0 <= j < |st.ops| && j != i ==> done.ops[j] == st.ops[j]) && |done.ops| == |st.ops|
  {
  }

  /** In every run the record of a credential never holds it, and any other record holds its operation's result. */
  lemma CredentialsAreNeverRecorded(steps: seq<Step>, key: Key)
    requires key in Exec(INITIAL, steps).records
    ensures var st := Exec(INITIAL, steps);
            && key in st.winner && st.winner[key] < |st.ops|
            && var op := st.ops[st.winner[key]];
               && op.key == key && (op.phase.Recorded? || op.phase.Done?)
               && st.records[key].fingerprint == op.fingerprint
               && (op.sensitive ==> st.records[key].result == CredentialIssued)
               && (!op.sensitive ==> st.records[key].result == Result(op.phase.value))
  {
    ExecKeeps(steps);
    var st := Exec(INITIAL, steps);
    assert RecordSound(st, key);
    assert OpSound(st, st.winner[key]);
  }
}
