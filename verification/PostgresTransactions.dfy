/**
  The retry loop of the transaction manager and its delays
  (apps/backend/src/infrastructure/postgres/postgres-transaction.ts:43-96).
 */
module PostgresTransactions {
  import opened PostgresIdempotency

  /** What one turn of the loop runs into. After `AckLost` the server has committed all the same. */
  datatype Attempt =
    | NoConnection(error: Error)
    | Fails(error: Error)
    | AckLost(error: Error)
    | Succeeds(value: Value)

  /** `Threw(None)` is the `throw lastError` after a loop that never ran. */
  datatype Outcome = Resolved(value: Value) | Threw(error: Cause)

  datatype Cause = Nothing | Because(error: Error)

  predicate Commits(a: Attempt) {
    a.AckLost? || a.Succeeds?
  }

  predicate Retried(a: Attempt) {
    (a.Fails? || a.AckLost?) && Retryable(a.error)
  }

  function OutcomeOf(a: Attempt): Outcome {
    if a.Succeeds? then Resolved(a.value) else Threw(Because(a.error))
  }

  class PostgresTransactionManager {
    // How often a COMMIT has taken effect.
    var commits: nat

    constructor ()
      ensures commits == 0
    {
      commits := 0;
    }

    /**
      `attempts[n]` is what the n-th turn would run into. Inside an open transaction the
      operation runs once on its client, with no BEGIN, COMMIT or retry of its own.
     */
    method Run(nested: bool, attempts: seq<Attempt>, maxAttempts: int) returns (r: Outcome, used: nat)
      requires |attempts| >= maxAttempts
      requires nested ==> attempts != [] && (attempts[0].Fails? || attempts[0].Succeeds?)
      modifies this
      ensures used == (if nested then 1 else Used(attempts, maxAttempts)) <= |attempts|
      ensures r == if used == 0 then Threw(Nothing) else OutcomeOf(attempts[used - 1])
      // Only acknowledgements lost under a retried code make a run commit more than once.
      ensures nested ==> commits == old(commits)
      ensures !nested ==> commits == old(commits) + LostAcks(attempts, used - 1) + if used > 0 && Commits(attempts[used - 1]) then 1 else 0
      ensures !nested && (forall n :: 0 <= n < used - 1 ==> !attempts[n].AckLost?) ==>
                commits <= old(commits) + 1 && (r.Resolved? ==> commits == old(commits) + 1)
    {
      if nested {
        return OutcomeOf(attempts[0]), 1;
      }
      r := Threw(Nothing);
      used := 0;
      while used < maxAttempts
        invariant used <= |attempts| && (used == 0 || used < maxAttempts)
        invariant used == 0 ==> r == Threw(Nothing)
        invariant used > 0 ==> r == OutcomeOf(attempts[used - 1])
        invariant forall n :: 0 <= n < used ==> Retried(attempts[n])
        invariant commits == old(commits) + LostAcks(attempts, used)
      {
        var attempt := attempts[used];
        used := used + 1;
        UsedIsWhereItStops(attempts, maxAttempts, used);
        if attempt.Succeeds? || attempt.AckLost? {
          commits := commits + 1;
        }
        if attempt.Succeeds? {
          NoLostAcks(attempts, used - 1);
          return Resolved(attempt.value), used;
        }
        r := Threw(Because(attempt.error));
        if attempt.NoConnection? || !Retryable(attempt.error) || used == maxAttempts {
          NoLostAcks(attempts, used - 1);
          return;
        }
      }
    }
  }

  /** How many turns a run makes: up to the first that is not retried, at most maxAttempts. */
  function Used(attempts: seq<Attempt>, maxAttempts: int): (n: nat)
    requires |attempts| >= maxAttempts
    ensures n <= |attempts| && (n == 0 <==> maxAttempts <= 0) && (maxAttempts > 0 ==> n <= maxAttempts)
    ensures forall i :: 0 <= i < n - 1 ==> Retried(attempts[i])
    ensures 0 < n < maxAttempts ==> !Retried(attempts[n - 1])
  {
    if maxAttempts <= 0 then 0
    else if maxAttempts == 1 || !Retried(attempts[0]) then 1
    else 1 + Used(attempts[1..], maxAttempts - 1)
  }

  lemma {:induction false} UsedIsWhereItStops(attempts: seq<Attempt>, maxAttempts: int, n: nat)
    requires 0 < n <= maxAttempts <= |attempts| && forall i :: 0 <= i < n - 1 ==> Retried(attempts[i])
    ensures n == maxAttempts || !Retried(attempts[n - 1]) ==> Used(attempts, maxAttempts) == n
  {
    if n > 1 {
      assert Retried(attempts[0]);
      assert forall i :: 0 <= i < n - 2 ==> attempts[1..][i] == attempts[i + 1];
      UsedIsWhereItStops(attempts[1..], maxAttempts - 1, n - 1);
    }
  }

  /** How many of the first n turns committed although they threw. */
  function LostAcks(attempts: seq<Attempt>, n: int): nat
    requires n <= |attempts|
  {
    if n <= 0 then 0 else LostAcks(attempts, n - 1) + if attempts[n - 1].AckLost? then 1 else 0
  }

  lemma {:induction false} NoLostAcks(attempts: seq<Attempt>, n: nat)
    requires n <= |attempts|
    ensures LostAcks(attempts, n) == 0 <==> forall i :: 0 <= i < n ==> !attempts[i].AckLost?
  {
    if n > 0 {
      NoLostAcks(attempts, n - 1);
    }
  }

  // ---- What is retried ----

  /** Serialization failure, deadlock and lock not available, reported by a statement or by COMMIT; nothing else. */
  lemma RetriedExactly(a: Attempt)
    ensures Retried(a) <==> (a.Fails? || a.AckLost?) && a.error.Database? && (a.error.code == "40001" || a.error.code == "40P01"
                                                                              || a.error.code == "55P03")
  {
  }

  /** A turn that fails so and is followed by one that succeeds resolves, while turns are left. */
  lemma RetriesThenResolves(attempts: seq<Attempt>, maxAttempts: int, value: Value)
    requires 2 <= maxAttempts <= |attempts| && attempts[1] == Succeeds(value)
    requires attempts[0] in {Fails(Database("40001")), Fails(Database("40P01")), Fails(Database("55P03"))}
    ensures Used(attempts, maxAttempts) == 2 && OutcomeOf(attempts[1]) == Resolved(value)
  {
    RetriedExactly(attempts[0]);
    RetriedExactly(attempts[1]);
    UsedIsWhereItStops(attempts, maxAttempts, 2);
  }

  /** Any other error, of the operation or of the database, is thrown at once. */
  lemma OtherErrorsAreThrown(attempts: seq<Attempt>, maxAttempts: int)
    requires 1 <= maxAttempts <= |attempts| && !attempts[0].Succeeds?
    requires !attempts[0].NoConnection? && attempts[0].error.Database? ==>
               attempts[0].error.code !in {"40001", "40P01", "55P03"}
    ensures Used(attempts, maxAttempts) == 1 && OutcomeOf(attempts[0]) == Threw(Because(attempts[0].error))
  {
    RetriedExactly(attempts[0]);
    UsedIsWhereItStops(attempts, maxAttempts, 1);
  }

  /** When all turns are retried errors, the error of the last one is thrown, with none left. */
  lemma LastErrorIsThrown(attempts: seq<Attempt>, maxAttempts: int)
    requires 1 <= maxAttempts <= |attempts| && forall i :: 0 <= i < maxAttempts ==> Retried(attempts[i])
    ensures Used(attempts, maxAttempts) == maxAttempts && !attempts[maxAttempts - 1].Succeeds?
            && OutcomeOf(attempts[maxAttempts - 1]) == Threw(Because(attempts[maxAttempts - 1].error))
  {
    UsedIsWhereItStops(attempts, maxAttempts, maxAttempts);
  }

  // ---- Delays ----

  function Power2(n: nat): nat {
    if n == 0 then 1 else 2 * Power2(n - 1)
  }

  function Min(a: int, b: int): int {
    if a <= b then a else b
  }

  function Max(a: int, b: int): int {
    if a >= b then a else b
  }

  function Exponential(attempt: nat, baseDelay: int, maxDelay: int): int
    requires attempt > 0
  {
    Min(maxDelay, baseDelay * Power2(attempt - 1))
  }

  method Jitter(random: real, span: int) returns (jitter: int)
    requires 0.0 <= random < 1.0 && span > 0
    ensures 0 <= jitter < span
  {
    var width := span as real;
    ScaleBelow(random, width);
    var scaled := random * width;
    FloorBelow(scaled, span);
    jitter := scaled.Floor;
  }

  /** The delay never exceeds the bound, and the jitter adds less than a quarter. */
  method Backoff(attempt: nat, baseDelay: int, maxDelay: int, random: real) returns (delay: int)
    requires attempt > 0 && 0.0 <= random < 1.0
    ensures Exponential(attempt, baseDelay, maxDelay) <= delay <= maxDelay
    ensures delay - Exponential(attempt, baseDelay, maxDelay) < Max(1, Exponential(attempt, baseDelay, maxDelay) / 4)
  {
    var exponential := Min(maxDelay, baseDelay * Power2(attempt - 1));
    var span := Max(1, exponential / 4);
    var jitter := Jitter(random, span);
    delay := Min(maxDelay, exponential + jitter);
  }

  lemma FloorBelow(x: real, bound: int)
    requires 0.0 <= x < bound as real
    ensures 0 <= x.Floor < bound
  {
    assert x.Floor as real <= x;
  }

  lemma ScaleBelow(x: real, span: real)
    requires 0.0 <= x < 1.0 && span > 0.0
    ensures 0.0 <= x * span < span
  {
    var rest := 1.0 - x;
    PositiveProduct(rest, span);
    assert rest * span == span - x * span;
    if x > 0.0 {
      PositiveProduct(x, span);
    }
  }

  lemma PositiveProduct(a: real, b: real)
    requires a > 0.0 && b > 0.0
    ensures a * b > 0.0
  {
  }

  /** Before jitter, later attempts never wait less. */
  lemma {:induction false} DelaysDoNotShrink(attempt: nat, later: nat, baseDelay: nat, maxDelay: int)
    requires 0 < attempt <= later
    ensures Exponential(attempt, baseDelay, maxDelay) <= Exponential(later, baseDelay, maxDelay)
    decreases later
  {
    if attempt < later {
      DelaysDoNotShrink(attempt, later - 1, baseDelay, maxDelay);
      DoubleIsMore(baseDelay, Power2(later - 2));
    }
  }

  /** Before jitter, the first delay is the base and every later one twice the one before, up to the bound. */
  lemma DelaysDouble(attempt: nat, baseDelay: nat, maxDelay: nat)
    requires attempt > 0
    ensures Exponential(1, baseDelay, maxDelay) == if baseDelay <= maxDelay then baseDelay else maxDelay
    ensures var delay := Exponential(attempt, baseDelay, maxDelay);
            Exponential(attempt + 1, baseDelay, maxDelay) == if 2 * delay <= maxDelay then 2 * delay else maxDelay
  {
    TwiceTheProduct(baseDelay, Power2(attempt - 1));
  }

  lemma TwiceTheProduct(a: nat, b: nat)
    ensures a * (2 * b) == 2 * (a * b) && a * b >= 0
  {
  }

  lemma DoubleIsMore(a: nat, b: nat)
    ensures a * b <= a * (2 * b)
  {
    assert a * (2 * b) == a * b + a * b;
  }
}
