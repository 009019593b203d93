/**
  Safety of the Redis session store over every interleaving: the two copies of a
  session agree, a revoked session stays revoked, and a full revokeAll kills every
  session whose creation had read the generation before it.
 */
module SessionLaws {
  import opened SessionStore

  // ---- The invariant ----

  /** The token key and the session key hold the same record, in both directions. */
  ghost predicate CopiesAgree(db: Redis) {
    && (forall d :: d in db.tokens ==>
          db.tokens[d].digest == d && db.tokens[d].sessionId in db.sessions
          && db.sessions[db.tokens[d].sessionId] == db.tokens[d])
    && (forall id :: id in db.sessions ==>
          db.sessions[id].sessionId == id && db.sessions[id].digest in db.tokens
          && db.tokens[db.sessions[id].digest] == db.sessions[id])
  }

  /** A copy of a session, however stale, still has the identity it was created with. */
  ghost predicate Genuine(born: map<SessionId, Identity>, s: Session) {
    s.sessionId in born && born[s.sessionId] == IdentityOf(s)
  }

  ghost predicate StoredGenuine(st: State) {
    forall id :: id in st.db.sessions ==> Genuine(st.born, st.db.sessions[id]) && id in st.written
  }

  ghost predicate BornDistinct(st: State) {
    && (forall id :: id in st.born ==> id in st.usedIds && st.born[id].digest in st.usedDigests)
    && (forall id, id' :: id in st.born && id' in st.born && id != id' ==> st.born[id].digest != st.born[id'].digest)
    && (forall id :: id in st.written ==> id in st.born)
  }

  ghost predicate ControlSound(st: State, p: Control) {
    match p
    case WantGeneration(digest, s) =>
      s.sessionId in st.usedIds && digest in st.usedDigests && s.sessionId !in st.born && s.revokedAt.None?
      && (forall id :: id in st.born ==> st.born[id].digest != digest)
    case Writing(s) => Genuine(st.born, s) && s.sessionId !in st.written && s.revokedAt.None?
    case Checking(s) => Genuine(st.born, s) && s.revokedAt.None?
    case Found(held) => held.Some? ==> Genuine(st.born, held.value) && held.value.revokedAt.None?
    case RevokeReady(_, s, _, _) => Genuine(st.born, s)
    case _ => true
  }

  ghost predicate Pending(p: Control, id: SessionId, digest: Digest) {
    (p.WantGeneration? && p.draft.sessionId == id && p.digest == digest)
    || (p.Writing? && p.ready.sessionId == id && p.ready.digest == digest)
  }

  ghost predicate PendingDistinct(st: State) {
    forall c, c', id, d, id', d' ::
      c in st.clients && c' in st.clients && c != c' && Pending(st.clients[c], id, d) && Pending(st.clients[c'], id', d') ==>
        id != id' && d != d'
  }

  ghost predicate Inv(st: State) {
    && CopiesAgree(st.db)
    && StoredGenuine(st)
    && BornDistinct(st)
    && (forall c :: c in st.clients ==> ControlSound(st, st.clients[c]))
    && PendingDistinct(st)
  }

  // ---- What a write of a genuine record keeps ----

  lemma StoreKeepsAgreement(db: Redis, s: Session, born: map<SessionId, Identity>)
    requires CopiesAgree(db) && Genuine(born, s)
    requires forall id :: id in db.sessions ==> Genuine(born, db.sessions[id])
    requires forall id, id' :: id in born && id' in born && id != id' ==> born[id].digest != born[id'].digest
    ensures CopiesAgree(Store(db, s))
  {
    var db' := Store(db, s);
    forall d | d in db'.tokens
      ensures db'.tokens[d].digest == d && db'.tokens[d].sessionId in db'.sessions
              && db'.sessions[db'.tokens[d].sessionId] == db'.tokens[d]
    {
      if d != s.digest {
        assert db.sessions[db.tokens[d].sessionId] == db.tokens[d];
      }
    }
    forall id | id in db'.sessions
      ensures db'.sessions[id].sessionId == id && db'.sessions[id].digest in db'.tokens
              && db'.tokens[db'.sessions[id].digest] == db'.sessions[id]
    {
      if id != s.sessionId {
        assert Genuine(born, db.sessions[id]);
      }
    }
  }

  /** Moving one client and keeping the rest keeps the invariant, if its new control is sound and waits for nothing. */
  lemma GotoKeeps(st: State, c: ClientId, p: Control)
    requires Inv(st) && ControlSound(st, p) && !p.WantGeneration? && !p.Writing?
    ensures Inv(Goto(st, c, p))
  {
    var st' := Goto(st, c, p);
    forall k | k in st'.clients
      ensures ControlSound(st', st'.clients[k])
    {
      if k != c {
        assert ControlSound(st, st.clients[k]);
      }
    }
  }

  /** Replacing the shared keys by ones that still agree and are genuine. */
  lemma DatabaseKeeps(st: State, db: Redis)
    requires Inv(st) && CopiesAgree(db) && StoredGenuine(st.(db := db))
    ensures Inv(st.(db := db))
  {
    var st' := st.(db := db);
    forall k | k in st'.clients
      ensures ControlSound(st', st'.clients[k])
    {
      assert ControlSound(st, st.clients[k]);
    }
  }

  lemma PendingIsUsed(st: State, p: Control, id: SessionId, d: Digest)
    requires BornDistinct(st) && ControlSound(st, p) && Pending(p, id, d)
    ensures id in st.usedIds && d in st.usedDigests
  {
  }

  lemma CreateStartKeeps(st: State, c: ClientId, digest: Digest, s: Session)
    requires Inv(st)
    ensures Inv(Next(st, CreateStart(c, digest, s)))
  {
    var st' := Next(st, CreateStart(c, digest, s));
    if st' != st {
      forall k | k in st'.clients
        ensures ControlSound(st', st'.clients[k])
      {
        if k != c {
          assert ControlSound(st, st.clients[k]);
        }
      }
      forall k, k', id, d, id', d' |
        k in st'.clients && k' in st'.clients && k != k' && Pending(st'.clients[k], id, d) && Pending(st'.clients[k'], id', d')
        ensures id != id' && d != d'
      {
        if k != c {
          PendingIsUsed(st, st.clients[k], id, d);
        }
        if k' != c {
          PendingIsUsed(st, st.clients[k'], id', d');
        }
      }
    }
  }

  /** The create that read its generation waits for the same id and digest as before. */
  lemma CreateReadKeepsPending(st: State, c: ClientId)
    requires PendingDistinct(st)
    ensures PendingDistinct(Next(st, CreateRead(c)))
  {
    var st' := Next(st, CreateRead(c));
    forall k, k', id, d, id', d' |
      k in st'.clients && k' in st'.clients && k != k' && Pending(st'.clients[k], id, d) && Pending(st'.clients[k'], id', d')
      ensures id != id' && d != d'
    {
      assert Pending(st.clients[k], id, d) && Pending(st.clients[k'], id', d');
    }
  }

  lemma CreateReadKeeps(st: State, c: ClientId)
    requires Inv(st)
    ensures Inv(Next(st, CreateRead(c)))
  {
    CreateReadKeepsPending(st, c);
    var st' := Next(st, CreateRead(c));
    if At(st, c).WantGeneration? {
      var p := st.clients[c];
      var s := p.draft.(generation := Generation(st.db, p.draft.userId), digest := p.digest);
      assert Pending(p, s.sessionId, s.digest);
      forall k | k in st'.clients
        ensures ControlSound(st', st'.clients[k])
      {
        if k != c {
          OtherControlSound(st, c, k, s, st');
        }
      }
      hide CopiesAgree, PendingDistinct;
    }
  }

  /** Another client's control survives the birth of a session: the two pending creates use different values. */
  lemma OtherControlSound(st: State, c: ClientId, k: ClientId, s: Session, st': State)
    requires Inv(st) && c in st.clients && k in st.clients && c != k
    requires Pending(st.clients[c], s.sessionId, s.digest) && s.sessionId !in st.born
    requires st'.born == st.born[s.sessionId := IdentityOf(s)]
    requires st'.usedIds == st.usedIds && st'.usedDigests == st.usedDigests && st'.written == st.written
    ensures ControlSound(st', st.clients[k])
  {
    var p := st.clients[k];
    assert ControlSound(st, p);
    if p.WantGeneration? {
      assert Pending(p, p.draft.sessionId, p.digest);
    }
  }

  lemma CreateWriteKeeps(st: State, c: ClientId)
    requires Inv(st)
    ensures Inv(Next(st, CreateWrite(c)))
  {
    if At(st, c).Writing? {
      var s := st.clients[c].ready;
      assert ControlSound(st, st.clients[c]);
      var st1 := Goto(st, c, Idle);
      GotoKeeps(st, c, Idle);
      WrittenKeeps(st, c, st1);
      var st2 := st1.(written := st1.written + {s.sessionId});
      StoreKeepsAgreement(st2.db, s, st2.born);
      assert CopiesAgree(Write(st2.db, s));
      DatabaseKeeps(st2, Write(st2.db, s));
    }
  }

  /** Once its creator has let go of it, a session may be counted as written. */
  lemma WrittenKeeps(st: State, c: ClientId, st1: State)
    requires Inv(st) && At(st, c).Writing? && st1 == Goto(st, c, Idle) && Inv(st1)
    ensures Inv(st1.(written := st1.written + {st.clients[c].ready.sessionId}))
  {
    var s := st.clients[c].ready;
    var st2 := st1.(written := st1.written + {s.sessionId});
    assert Pending(st.clients[c], s.sessionId, s.digest);
    forall k | k in st2.clients
      ensures ControlSound(st2, st2.clients[k])
    {
      assert ControlSound(st1, st1.clients[k]);
      if k != c && st.clients[k].Writing? {
        assert Pending(st.clients[k], st.clients[k].ready.sessionId, st.clients[k].ready.digest);
      }
    }
  }

  /** A script that stores a genuine copy of a session already written. */
  lemma StoreKeeps(st: State, s: Session)
    requires Inv(st) && Genuine(st.born, s) && s.sessionId in st.written
    ensures Inv(st.(db := Store(st.db, s)))
  {
    StoreKeepsAgreement(st.db, s, st.born);
    DatabaseKeeps(st, Store(st.db, s));
  }

  lemma TouchKeeps(st: State, c: ClientId, lastSeen: int, expiresAt: int)
    requires Inv(st)
    ensures Inv(Next(st, Touch(c, lastSeen, expiresAt)))
  {
    var p := At(st, c);
    if p.Found? && p.held.Some? {
      assert ControlSound(st, st.clients[c]);
      var held := p.held.value.(lastSeen := lastSeen, expiresAt := expiresAt);
      GotoKeeps(st, c, Idle);
      if TouchScript(st.db, held.digest, held).1 {
        StoreKeeps(Goto(st, c, Idle), held);
      }
    }
  }

  lemma RevokeRunKeeps(st: State, c: ClientId)
    requires Inv(st)
    ensures Inv(Next(st, RevokeRun(c)))
  {
    var p := At(st, c);
    if p.RevokeReady? {
      assert ControlSound(st, st.clients[c]);
      var st1 := Goto(st, c, Resume(p.after));
      GotoKeeps(st, c, Resume(p.after));
      if RevokeScript(st.db, p.user, p.read, p.at).1 {
        StoreKeeps(st1, p.read.(revokedAt := Some(p.at)));
      }
    }
  }

  lemma ExpireSessionKeeps(st: State, id: SessionId)
    requires Inv(st)
    ensures Inv(Next(st, ExpireSession(id)))
  {
    if id in st.db.sessions {
      var d := st.db.sessions[id].digest;
      var db := st.db.(sessions := st.db.sessions - {id}, tokens := st.db.tokens - {d});
      assert CopiesAgree(db) by {
        forall id' | id' in db.sessions
          ensures db.sessions[id'].digest != d
        {
          assert db.sessions[id'] == st.db.sessions[id'];
        }
      }
      DatabaseKeeps(st, db);
    }
  }

  lemma RevokeAllStartKeeps(st: State, c: ClientId, user: UserId, at: int, except: Option<SessionId>)
    requires Inv(st)
    ensures Inv(Next(st, RevokeAllStart(c, user, at, except)))
  {
    if except.None? {
      var counted := st.(db := Increment(st.db, user));
      DatabaseKeeps(st, counted.db);
      GotoKeeps(counted, c, AllMembers(user, at, except));
      hide Inv, Increment;
    } else {
      GotoKeeps(st, c, AllMembers(user, at, except));
      hide Inv, Increment;
    }
  }

  lemma NextKeeps(st: State, step: Step)
    requires Inv(st)
    ensures Inv(Next(st, step))
  {
    match step
    case CreateStart(c, digest, session) => CreateStartKeeps(st, c, digest, session);
    case CreateRead(c) => CreateReadKeeps(st, c);
    case CreateWrite(c) => CreateWriteKeeps(st, c);
    case FindStart(c, digest) => GotoKeeps(st, c, Finding(digest));
    case FindToken(c) => FindTokenKeeps(st, c);
    case FindGeneration(c) => FindGenerationKeeps(st, c);
    case Touch(c, lastSeen, expiresAt) => TouchKeeps(st, c, lastSeen, expiresAt);
    case RevokeStart(c, user, id, at) => GotoKeeps(st, c, RevokeMembers(user, id, at, Return));
    case RevokeRun(c) => RevokeRunKeeps(st, c);
    case RevokeAllStart(c, user, at, except) => RevokeAllStartKeeps(st, c, user, at, except);
    case ExpireSession(id) => ExpireSessionKeeps(st, id);
    case ExpireGeneration(user) => DatabaseKeeps(st, st.db.(generations := st.db.generations - {user}));
    case _ => RevokeReadsKeep(st, step);
  }

  lemma FindTokenKeeps(st: State, c: ClientId)
    requires Inv(st)
    ensures Inv(Next(st, FindToken(c)))
  {
    var p := At(st, c);
    if p.Finding? {
      GotoKeeps(st, c, Found(None));
      if p.sought in st.db.tokens && st.db.tokens[p.sought].revokedAt.None? {
        assert Genuine(st.born, st.db.sessions[st.db.tokens[p.sought].sessionId]);
        GotoKeeps(st, c, Checking(st.db.tokens[p.sought]));
      }
    }
  }

  lemma FindGenerationKeeps(st: State, c: ClientId)
    requires Inv(st)
    ensures Inv(Next(st, FindGeneration(c)))
  {
    if At(st, c).Checking? {
      assert ControlSound(st, st.clients[c]);
      GotoKeeps(st, c, Found(None));
      GotoKeeps(st, c, Found(Some(At(st, c).seen)));
    }
  }

  lemma RevokeReadsKeep(st: State, step: Step)
    requires Inv(st)
    requires step.RevokeList? || step.RevokeGet? || step.RevokeAllList? || step.RevokeAllGet? || step.RevokeAllNext?
    ensures Inv(Next(st, step))
  {
    var st' := Next(st, step);
    if st' != st {
      if step.RevokeGet? {
        var p := At(st, step.c);
        if st'.clients[step.c].RevokeReady? {
          assert Genuine(st.born, st.db.sessions[p.id]);
        }
      }
      assert st' == Goto(st, step.c, st'.clients[step.c]);
      GotoKeeps(st, step.c, st'.clients[step.c]);
    }
  }

  lemma {:induction false} ExecKeeps(st: State, steps: seq<Step>)
    requires Inv(st)
    ensures Inv(Exec(st, steps))
  {
    if |steps| > 0 {
      ExecKeeps(st, steps[..|steps| - 1]);
      NextKeeps(Exec(st, steps[..|steps| - 1]), steps[|steps| - 1]);
    }
  }

  /** In every interleaving the two copies of every session agree. */
  lemma CopiesAlwaysAgree(steps: seq<Step>)
    ensures CopiesAgree(Exec(INITIAL, steps).db)
  {
    ExecKeeps(INITIAL, steps);
  }

  // ---- Revoked stays revoked ----

  /** The session was created, and is now revoked or gone. */
  ghost predicate Dead(st: State, id: SessionId) {
    id in st.written && (id in st.db.sessions ==> st.db.sessions[id].revokedAt.Some?)
  }

  lemma NextKeepsDead(st: State, step: Step, id: SessionId)
    requires Inv(st) && Dead(st, id)
    ensures Dead(Next(st, step), id)
  {
    match step
    case CreateWrite(c) => CreateWriteKeepsDead(st, c, id);
    case Touch(c, lastSeen, expiresAt) => TouchKeepsDead(st, c, lastSeen, expiresAt, id);
    case RevokeRun(c) => RevokeRunKeepsDead(st, c, id);
    case _ =>
  }

  lemma CreateWriteKeepsDead(st: State, c: ClientId, id: SessionId)
    requires Inv(st) && Dead(st, id)
    ensures Dead(Next(st, CreateWrite(c)), id)
  {
    if At(st, c).Writing? {
      assert ControlSound(st, st.clients[c]);
    }
  }

  lemma TouchKeepsDead(st: State, c: ClientId, lastSeen: int, expiresAt: int, id: SessionId)
    requires Inv(st) && Dead(st, id)
    ensures Dead(Next(st, Touch(c, lastSeen, expiresAt)), id)
  {
  }

  lemma RevokeRunKeepsDead(st: State, c: ClientId, id: SessionId)
    requires Inv(st) && Dead(st, id)
    ensures Dead(Next(st, RevokeRun(c)), id)
  {
  }

  /** Whatever copies other clients still hold, no interleaving brings a revoked session back. */
  lemma {:induction false} RevokedStaysRevoked(st: State, steps: seq<Step>, id: SessionId)
    requires Inv(st) && Dead(st, id)
    ensures Dead(Exec(st, steps), id)
  {
    if |steps| > 0 {
      var n := |steps| - 1;
      RevokedStaysRevoked(st, steps[..n], id);
      ExecKeeps(st, steps[..n]);
      NextKeepsDead(Exec(st, steps[..n]), steps[n], id);
    }
  }

  /**
    Once a session has been revoked, no find that reads its token later, after any
    steps of any clients, gets to return it.
   */
  lemma NoLaterFindReturnsRevoked(before: seq<Step>, later: seq<Step>, id: SessionId, c: ClientId)
    requires var st := Exec(INITIAL, before); id in st.db.sessions && st.db.sessions[id].revokedAt.Some?
    requires At(Exec(Exec(INITIAL, before), later), c).Finding?
    ensures var p := At(Next(Exec(Exec(INITIAL, before), later), FindToken(c)), c);
            p.Found? || (p.Checking? && p.seen.sessionId != id)
  {
    var st := Exec(INITIAL, before);
    ExecKeeps(INITIAL, before);
    assert StoredGenuine(st);
    ExecKeeps(st, later);
    RevokedStaysRevoked(st, later, id);
    FindAvoidsDead(Exec(st, later), c, id);
  }

  lemma FindAvoidsDead(st: State, c: ClientId, id: SessionId)
    requires Inv(st) && Dead(st, id) && At(st, c).Finding?
    ensures var p := At(Next(st, FindToken(c)), c); p.Found? || (p.Checking? && p.seen.sessionId != id)
  {
    assert CopiesAgree(st.db);
  }

  // ---- A full revokeAll and overlapping creates ----

  /** No step of the run lets the user's generation key expire. */
  ghost predicate KeepsGeneration(steps: seq<Step>, user: UserId) {
    forall i :: 0 <= i < |steps| ==> steps[i] != ExpireGeneration(user)
  }

  lemma NextKeepsGeneration(st: State, step: Step, user: UserId)
    requires step != ExpireGeneration(user)
    ensures Generation(Next(st, step).db, user) >= Generation(st.db, user)
  {
  }

  lemma {:induction false} GenerationNeverFalls(st: State, steps: seq<Step>, user: UserId)
    requires KeepsGeneration(steps, user)
    ensures Generation(Exec(st, steps).db, user) >= Generation(st.db, user)
  {
    if |steps| > 0 {
      var n := |steps| - 1;
      GenerationNeverFalls(st, steps[..n], user);
      NextKeepsGeneration(Exec(st, steps[..n]), steps[n], user);
    }
  }

  lemma NextKeepsIdentity(st: State, step: Step, id: SessionId)
    requires Inv(st) && id in st.born
    ensures id in Next(st, step).born && Next(st, step).born[id] == st.born[id]
  {
    if step.CreateRead? && At(st, step.c).WantGeneration? {
      assert ControlSound(st, st.clients[step.c]);
    }
  }

  lemma {:induction false} IdentityIsForever(st: State, steps: seq<Step>, id: SessionId)
    requires Inv(st) && id in st.born
    ensures id in Exec(st, steps).born && Exec(st, steps).born[id] == st.born[id]
  {
    if |steps| > 0 {
      var n := |steps| - 1;
      IdentityIsForever(st, steps[..n], id);
      ExecKeeps(st, steps[..n]);
      NextKeepsIdentity(Exec(st, steps[..n]), steps[n], id);
    }
  }

  /** The find that reaches its generation check returns the session exactly when its generation is current. */
  lemma FindReturnsCurrentGenerations(st: State, c: ClientId)
    requires Inv(st) && At(st, c).Checking?
    ensures var s := At(st, c).seen;
            var p := At(Next(st, FindGeneration(c)), c);
            Genuine(st.born, s)
            && p == Found(if st.born[s.sessionId].generation >= Generation(st.db, s.userId) then Some(s) else None)
  {
    assert ControlSound(st, st.clients[c]);
  }

  /** The client whose step it is; keys expire by themselves. */
  function Mover(step: Step): Option<ClientId> {
    if step.ExpireSession? || step.ExpireGeneration? then None else Some(step.c)
  }

  lemma NextKeepsOthers(st: State, step: Step, c: ClientId)
    requires Mover(step) != Some(c)
    ensures At(Next(st, step), c) == At(st, c)
  {
    hide TouchScript, RevokeScript, Write, Increment, Fetched;
  }

  lemma {:induction false} OthersKeepControl(st: State, steps: seq<Step>, c: ClientId)
    requires forall i :: 0 <= i < |steps| ==> Mover(steps[i]) != Some(c)
    ensures At(Exec(st, steps), c) == At(st, c)
  {
    if |steps| > 0 {
      OthersKeepControl(st, steps[..|steps| - 1], c);
      NextKeepsOthers(Exec(st, steps[..|steps| - 1]), steps[|steps| - 1], c);
    }
  }

  /**
    A whole find, with any steps of others between its two reads, returns exactly the
    record its first read found under the token, provided that was not revoked and the
    generation the session was created under is still current at the second read.
   */
  lemma FindAnswersExactly(before: seq<Step>, c: ClientId, digest: Digest, between: seq<Step>)
    requires Free(At(Exec(INITIAL, before), c)) && forall i :: 0 <= i < |between| ==> Mover(between[i]) != Some(c)
    ensures var st := Exec(INITIAL, before);
            var read := Next(Next(st, FindStart(c, digest)), FindToken(c));
            var checked := Exec(read, between);
            var answer := At(Next(checked, FindGeneration(c)), c);
            && answer.Found?
            && (answer.held.Some? <==>
                  digest in st.db.tokens && st.db.tokens[digest].revokedAt.None?
                  && var s := st.db.tokens[digest];
                     s.sessionId in st.born && st.born[s.sessionId].generation >= Generation(checked.db, s.userId))
            && (answer.held.Some? ==> answer.held.value == st.db.tokens[digest])
  {
    var st := Exec(INITIAL, before);
    var read := Next(Next(st, FindStart(c, digest)), FindToken(c));
    hide Exec, Inv, Next;
    ExecKeeps(INITIAL, before);
    TokenGenuine(st, digest);
    FirstRead(st, c, digest);
    OthersKeepControl(read, between, c);
    SecondRead(Exec(read, between), c);
  }

  lemma FirstRead(st: State, c: ClientId, digest: Digest)
    requires Free(At(st, c))
    ensures At(Next(Next(st, FindStart(c, digest)), FindToken(c)), c)
            == if digest !in st.db.tokens || st.db.tokens[digest].revokedAt.Some? then Found(None)
               else Checking(st.db.tokens[digest])
  {
    var sought := Next(st, FindStart(c, digest));
    assert sought == Goto(st, c, Finding(digest));
  }

  lemma SecondRead(st: State, c: ClientId)
    requires At(st, c).Found? || At(st, c).Checking?
    ensures At(Next(st, FindGeneration(c)), c)
            == if At(st, c).Found? then At(st, c)
               else Found(if At(st, c).seen.generation < Generation(st.db, At(st, c).seen.userId) then None else Some(At(st, c).seen))
  {
  }

  lemma TokenGenuine(st: State, digest: Digest)
    requires Inv(st)
    ensures digest in st.db.tokens ==> Genuine(st.born, st.db.tokens[digest])
  {
    if digest in st.db.tokens {
      assert Genuine(st.born, st.db.sessions[st.db.tokens[digest].sessionId]);
    }
  }

  /**
    A create that read the generation before a full revokeAll incremented it never
    yields a usable session: whatever happens in between and afterwards, as long as the
    generation key does not expire, every find that gets to its generation check after
    the increment returns nothing.
   */
  lemma RevokeAllKillsOverlappingCreate(st: State, creator: ClientId, between: seq<Step>, revoker: ClientId, at: int,
                                        later: seq<Step>, finder: ClientId)
    requires Inv(st) && At(st, creator).WantGeneration?
    requires KeepsGeneration(between, st.clients[creator].draft.userId)
             && KeepsGeneration(later, st.clients[creator].draft.userId)
    requires var user := st.clients[creator].draft.userId;
             var started := Exec(Next(st, CreateRead(creator)), between);
             var revoked := Next(started, RevokeAllStart(revoker, user, at, None));
             var end := Exec(revoked, later);
             Free(At(started, revoker)) && At(end, finder).Checking?
             && At(end, finder).seen.sessionId == st.clients[creator].draft.sessionId
    ensures var user := st.clients[creator].draft.userId;
            var started := Exec(Next(st, CreateRead(creator)), between);
            var revoked := Next(started, RevokeAllStart(revoker, user, at, None));
            At(Next(Exec(revoked, later), FindGeneration(finder)), finder) == Found(None)
  {
    var user, id := st.clients[creator].draft.userId, st.clients[creator].draft.sessionId;
    var read := Next(st, CreateRead(creator));
    NextKeeps(st, CreateRead(creator));
    assert id in read.born && read.born[id].userId == user && read.born[id].generation == Generation(read.db, user);
    OverlapIsEarlier(read, between, id);
    RevokeAllKillsEarlierSessions(Exec(read, between), id, revoker, at, later, finder);
  }

  lemma OverlapIsEarlier(read: State, between: seq<Step>, id: SessionId)
    requires Inv(read) && id in read.born && KeepsGeneration(between, read.born[id].userId)
    requires read.born[id].generation <= Generation(read.db, read.born[id].userId)
    ensures var started := Exec(read, between);
            Inv(started) && id in started.born && started.born[id] == read.born[id]
            && started.born[id].generation <= Generation(started.db, started.born[id].userId)
  {
    ExecKeeps(read, between);
    IdentityIsForever(read, between, id);
    GenerationNeverFalls(read, between, read.born[id].userId);
  }

  /** The same for every session that exists when the revokeAll starts, revoked one by one or not. */
  lemma RevokeAllKillsEarlierSessions(st: State, id: SessionId, revoker: ClientId, at: int, later: seq<Step>, finder: ClientId)
    requires Inv(st) && id in st.born && st.born[id].generation <= Generation(st.db, st.born[id].userId)
    requires Free(At(st, revoker)) && KeepsGeneration(later, st.born[id].userId)
    requires var end := Exec(Next(st, RevokeAllStart(revoker, st.born[id].userId, at, None)), later);
             At(end, finder).Checking? && At(end, finder).seen.sessionId == id
    ensures var end := Exec(Next(st, RevokeAllStart(revoker, st.born[id].userId, at, None)), later);
            At(Next(end, FindGeneration(finder)), finder) == Found(None)
  {
    var step := RevokeAllStart(revoker, st.born[id].userId, at, None);
    var revoked := Next(st, step);
    NextKeeps(st, step);
    NextKeepsIdentity(st, step, id);
    ExecKeeps(revoked, later);
    IdentityIsForever(revoked, later, id);
    GenerationNeverFalls(revoked, later, st.born[id].userId);
    FindReturnsCurrentGenerations(Exec(revoked, later), finder);
  }

  /** A create that only waits for its write: if its generation is current then, a find of its token returns it. */
  lemma WrittenThenFound(st: State, creator: ClientId, finder: ClientId, s: Session)
    requires At(st, creator) == Writing(s) && s.revokedAt.None? && finder != creator && Free(At(st, finder))
    requires s.generation >= Generation(st.db, s.userId)
    ensures var st1 := Next(Next(st, CreateWrite(creator)), FindStart(finder, s.digest));
            At(Next(Next(st1, FindToken(finder)), FindGeneration(finder)), finder) == Found(Some(s))
  {
    var st1 := Next(st, CreateWrite(creator));
    assert st1.db.tokens[s.digest] == s;
    var st2 := Next(Next(st1, FindStart(finder, s.digest)), FindToken(finder));
    assert At(st2, finder) == Checking(s);
  }

  /**
    The generation key's own expiry is the limit of that guarantee: a create that read
    generation 1, then the key's expiry, then a full revokeAll that counts up to 1
    again; the session written afterwards is found.
   */
  lemma ExpiryRevivesAnOverlappingCreate()
    ensures var session := Session("s", "u", 1, 0, 0, None, "", 0);
            var read := Next(Next(Next(INITIAL, RevokeAllStart(9, "u", 0, None)), CreateStart(1, "d", session)), CreateRead(1));
            var revoked := Next(Next(read, ExpireGeneration("u")), RevokeAllStart(2, "u", 0, None));
            var sought := Next(Next(revoked, CreateWrite(1)), FindStart(3, "d"));
            At(Next(Next(sought, FindToken(3)), FindGeneration(3)), 3)
            == Found(Some(session.(digest := "d", generation := 1)))
  {
    var session := Session("s", "u", 1, 0, 0, None, "", 0);
    var s1 := Next(INITIAL, RevokeAllStart(9, "u", 0, None));
    var s2 := Next(s1, CreateStart(1, "d", session));
    assert Generation(s2.db, "u") == 1 && At(s2, 1) == WantGeneration("d", session);
    var s3 := Next(s2, CreateRead(1));
    var written := session.(digest := "d", generation := 1);
    assert At(s3, 1) == Writing(written) && At(s3, 2) == Idle && At(s3, 3) == Idle;
    ExpireThenRevoke(s3, written);
    var s5 := Next(Next(s3, ExpireGeneration("u")), RevokeAllStart(2, "u", 0, None));
    WrittenThenFound(s5, 1, 3, written);
  }

  lemma ExpireThenRevoke(st: State, s: Session)
    requires At(st, 1) == Writing(s) && At(st, 2) == Idle && At(st, 3) == Idle
    ensures var st' := Next(Next(st, ExpireGeneration(s.userId)), RevokeAllStart(2, s.userId, 0, None));
            Generation(st'.db, s.userId) == 1 && At(st', 1) == Writing(s) && At(st', 3) == Idle
  {
  }
}
