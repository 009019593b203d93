/**
  What the steps of the Redis session protocol write, and that revocations end what they
  set out to end, however other clients interleave
  (apps/backend/src/modules/identity/infrastructure/redis-session.store.ts:60-195).
 */
module SessionRevocation {
  import opened SessionStore
  import opened SessionLaws

  // ---- One record changes ----

  /** Both copies of the session hold the record. */
  predicate BothHold(db: Redis, s: Session) {
    && s.sessionId in db.sessions && db.sessions[s.sessionId] == s
    && s.digest in db.tokens && db.tokens[s.digest] == s
  }

  /** The stores differ at most in the copies of one session. */
  ghost predicate OnlySession(before: Redis, after: Redis, id: SessionId, digest: Digest) {
    && (forall k :: k != id ==> (k in after.sessions <==> k in before.sessions))
    && (forall k :: k != id && k in before.sessions ==> after.sessions[k] == before.sessions[k])
    && (forall d :: d != digest ==> (d in after.tokens <==> d in before.tokens))
    && (forall d :: d != digest && d in before.tokens ==> after.tokens[d] == before.tokens[d])
    && after.generations == before.generations
  }

  /** A live session of the user becomes revoked at the given time in both copies; nothing else changes. */
  ghost predicate RevokesOne(before: Redis, after: Redis, user: UserId, id: SessionId, at: int) {
    && id in before.sessions && before.sessions[id].userId == user && before.sessions[id].revokedAt.None?
    && id in after.sessions && after.sessions[id].revokedAt == Some(at)
    && IdentityOf(after.sessions[id]) == IdentityOf(before.sessions[id])
    && BothHold(after, after.sessions[id])
    && OnlySession(before, after, id, before.sessions[id].digest) && after.index == before.index
  }

  /** The script of a revoke marks a session that is stored, live and of that user; otherwise it changes nothing. */
  lemma RevokeRunMarks(st: State, c: ClientId)
    requires Inv(st) && At(st, c).RevokeReady?
    ensures var p, st' := At(st, c), Next(st, RevokeRun(c));
            var id := p.read.sessionId;
            if id in st.db.sessions && st.db.sessions[id].revokedAt.None? && st.db.sessions[id].userId == p.user
            then RevokesOne(st.db, st'.db, p.user, id, p.at) else st'.db == st.db
  {
    assert ControlSound(st, st.clients[c]);
    var id := At(st, c).read.sessionId;
    if id in st.db.sessions {
      assert Genuine(st.born, st.db.sessions[id]);
    }
  }

  /**
    A touch writes the session that find returned, with its new times, to both copies if
    it is still stored and live; otherwise it changes nothing.
   */
  lemma TouchWrites(st: State, c: ClientId, lastSeen: int, expiresAt: int)
    requires Inv(st) && At(st, c).Found? && At(st, c).held.Some?
    ensures var s, db' := At(st, c).held.value, Next(st, Touch(c, lastSeen, expiresAt)).db;
            if s.sessionId in st.db.sessions && st.db.sessions[s.sessionId].revokedAt.None?
            then BothHold(db', s.(lastSeen := lastSeen, expiresAt := expiresAt))
                 && OnlySession(st.db, db', s.sessionId, s.digest) && db'.index == st.db.index
            else db' == st.db
  {
    assert ControlSound(st, st.clients[c]);
    var id := At(st, c).held.value.sessionId;
    if id in st.db.sessions {
      assert Genuine(st.born, st.db.sessions[id]);
    }
  }

  /**
    A whole create, with any steps of others between its own, stores the session under
    its token's digest and the generation it read, in both copies and in its user's index.
   */
  lemma CreateStores(st: State, c: ClientId, digest: Digest, session: Session, first: seq<Step>, second: seq<Step>)
    requires Free(At(st, c)) && session.sessionId !in st.usedIds && digest !in st.usedDigests && session.revokedAt.None?
    requires (forall i :: 0 <= i < |first| ==> Mover(first[i]) != Some(c)) && forall i :: 0 <= i < |second| ==> Mover(second[i]) != Some(c)
    ensures var asked := Exec(Next(st, CreateStart(c, digest, session)), first);
            var ready := Exec(Next(asked, CreateRead(c)), second);
            var done := Next(ready, CreateWrite(c));
            var full := session.(digest := digest, generation := Generation(asked.db, session.userId));
            && BothHold(done.db, full) && OnlySession(ready.db, done.db, session.sessionId, digest)
            && Members(done.db, session.userId) == Members(ready.db, session.userId) + {session.sessionId}
            && (forall u :: u != session.userId ==> Members(done.db, u) == Members(ready.db, u))
            && At(done, c) == Idle
  {
    hide Exec;
    var started := Next(st, CreateStart(c, digest, session));
    var asked := Exec(started, first);
    OthersKeepControl(started, first, c);
    assert At(asked, c) == WantGeneration(digest, session);
    var read := Next(asked, CreateRead(c));
    OthersKeepControl(read, second, c);
    WriteStores(Exec(read, second), c);
    hide Next;
  }

  lemma WriteStores(ready: State, c: ClientId)
    requires At(ready, c).Writing?
    ensures var s, done := At(ready, c).ready, Next(ready, CreateWrite(c));
            && BothHold(done.db, s) && OnlySession(ready.db, done.db, s.sessionId, s.digest)
            && Members(done.db, s.userId) == Members(ready.db, s.userId) + {s.sessionId}
            && (forall u :: u != s.userId ==> Members(done.db, u) == Members(ready.db, u))
            && At(done, c) == Idle
  {
  }

  // ---- The index ----

  /** The index of a user lists every session ever written for that user, and none of another's. */
  ghost predicate Indexed(st: State) {
    && (forall id :: id in st.written ==> id in st.born && id in Members(st.db, st.born[id].userId))
    && (forall u, id :: id in Members(st.db, u) ==> id in st.written && id in st.born && st.born[id].userId == u)
  }

  lemma NextKeepsIndex(st: State, step: Step)
    requires Inv(st) && Indexed(st)
    ensures Indexed(Next(st, step))
  {
    if step.CreateWrite? && At(st, step.c).Writing? {
      assert ControlSound(st, st.clients[step.c]);
      WrittenIsIndexed(st, step.c);
    } else if step.CreateRead? {
      ReadKeepsIndex(st, step.c);
    } else if !step.CreateWrite? {
      OtherStepsKeepIndex(st, step);
    }
  }

  lemma WrittenIsIndexed(st: State, c: ClientId)
    requires Indexed(st) && At(st, c).Writing? && Genuine(st.born, At(st, c).ready)
    ensures Indexed(Next(st, CreateWrite(c)))
  {
    var s, st' := At(st, c).ready, Next(st, CreateWrite(c));
    forall u
      ensures Members(st'.db, u) == if u == s.userId then Members(st.db, u) + {s.sessionId} else Members(st.db, u)
    {
    }
  }

  lemma ReadKeepsIndex(st: State, c: ClientId)
    requires Inv(st) && Indexed(st)
    ensures Indexed(Next(st, CreateRead(c)))
  {
    if At(st, c).WantGeneration? {
      assert ControlSound(st, st.clients[c]);
    }
  }

  lemma OtherStepsKeepIndex(st: State, step: Step)
    requires Indexed(st) && !step.CreateWrite? && !step.CreateRead?
    ensures Indexed(Next(st, step))
  {
    var st' := Next(st, step);
    IndexUntouched(st, step);
    hide Next;
    assert forall u :: Members(st'.db, u) == Members(st.db, u);
  }

  lemma IndexUntouched(st: State, step: Step)
    requires !step.CreateWrite? && !step.CreateRead?
    ensures var st' := Next(st, step); st'.db.index == st.db.index && st'.born == st.born && st'.written == st.written
  {
    hide Fetched, Members, Generation;
  }

  lemma {:induction false} ExecKeepsIndex(st: State, steps: seq<Step>)
    requires Inv(st) && Indexed(st)
    ensures Inv(Exec(st, steps)) && Indexed(Exec(st, steps))
  {
    hide Inv, Indexed, Next;
    if |steps| > 0 {
      var n := |steps| - 1;
      ExecKeepsIndex(st, steps[..n]);
      NextKeeps(Exec(st, steps[..n]), steps[n]);
      NextKeepsIndex(Exec(st, steps[..n]), steps[n]);
    }
  }

  // ---- A revocation gets every session it is after ----

  ghost predicate AimedAfter(after: After, user: UserId, id: SessionId) {
    after.Continue? && after.user == user && id in after.todo
  }

  /** The client is on its way to revoke the session. */
  ghost predicate Aimed(p: Control, user: UserId, id: SessionId) {
    match p
    case AllMembers(u, _, except) => u == user && except != Some(id)
    case AllValues(u, _, except, ids) => u == user && except != Some(id) && id in ids
    case AllLoop(u, _, todo) => u == user && id in todo
    case RevokeMembers(u, x, _, after) => (u == user && x == id) || AimedAfter(after, user, id)
    case RevokeValues(u, x, _, ids, after) => (u == user && x == id && id in ids) || AimedAfter(after, user, id)
    case RevokeReady(u, read, _, after) => (u == user && read.sessionId == id) || AimedAfter(after, user, id)
    case _ => false
  }

  /** The session is dead, or the client is on its way to revoke it. */
  ghost predicate Hunted(st: State, c: ClientId, id: SessionId) {
    Dead(st, id) || (id in st.written && id in st.born && Aimed(At(st, c), st.born[id].userId, id))
  }

  lemma NextKeepsHunted(st: State, step: Step, c: ClientId, id: SessionId)
    requires Inv(st) && Indexed(st) && Hunted(st, c, id)
    ensures Hunted(Next(st, step), c, id)
  {
    if Dead(st, id) {
      NextKeepsDead(st, step, id);
    } else if Mover(step) != Some(c) {
      NextKeepsOthers(st, step, c);
      NextKeepsIdentity(st, step, id);
      WrittenForEver(st, step, id);
      hide Next;
    } else {
      OwnStepKeepsHunted(st, step, c, id);
    }
  }

  lemma WrittenForEver(st: State, step: Step, id: SessionId)
    requires id in st.written
    ensures id in Next(st, step).written
  {
  }

  lemma OwnStepKeepsHunted(st: State, step: Step, c: ClientId, id: SessionId)
    requires Inv(st) && Indexed(st) && Mover(step) == Some(c)
    requires id in st.written && id in st.born && Aimed(At(st, c), st.born[id].userId, id) && !Dead(st, id)
    ensures Hunted(Next(st, step), c, id)
  {
    assert Genuine(st.born, st.db.sessions[id]) && st.db.sessions[id].sessionId == id;
    assert id in Members(st.db, st.born[id].userId);
    if step.RevokeRun? && At(st, c).RevokeReady? {
      RevokeRunMarks(st, c);
      RunKeepsHunted(st, c, id);
    } else {
      hide Inv, Indexed;
      if step.RevokeGet? || step.RevokeAllGet? {
        GetKeepsHunted(st, step, c, id);
      } else {
        ListKeepsHunted(st, step, c, id);
      }
    }
  }

  lemma GetKeepsHunted(st: State, step: Step, c: ClientId, id: SessionId)
    requires (step.RevokeGet? || step.RevokeAllGet?) && step.c == c
    requires id in st.written && id in st.born && Aimed(At(st, c), st.born[id].userId, id)
    requires id in st.db.sessions ==> st.db.sessions[id].sessionId == id
    ensures Hunted(Next(st, step), c, id)
  {
  }

  lemma ListKeepsHunted(st: State, step: Step, c: ClientId, id: SessionId)
    requires Mover(step) == Some(c) && !step.RevokeGet? && !step.RevokeAllGet? && !(step.RevokeRun? && At(st, c).RevokeReady?)
    requires id in st.written && id in st.born && Aimed(At(st, c), st.born[id].userId, id)
    requires id in Members(st.db, st.born[id].userId)
    ensures Hunted(Next(st, step), c, id)
  {
    hide Dead, Fetched, TouchScript, RevokeScript, Write, Store;
  }

  lemma RunKeepsHunted(st: State, c: ClientId, id: SessionId)
    requires At(st, c).RevokeReady? && id in st.written && id in st.born && Aimed(At(st, c), st.born[id].userId, id)
    requires id in st.db.sessions && st.db.sessions[id].userId == st.born[id].userId && st.db.sessions[id].revokedAt.None?
    requires var p := At(st, c);
             p.read.sessionId == id && p.user == st.born[id].userId ==>
               RevokesOne(st.db, Next(st, RevokeRun(c)).db, p.user, id, p.at)
    ensures Hunted(Next(st, RevokeRun(c)), c, id)
  {
    hide RevokeScript;
  }

  lemma {:induction false} ExecKeepsHunted(st: State, steps: seq<Step>, c: ClientId, id: SessionId)
    requires Inv(st) && Indexed(st) && Hunted(st, c, id)
    ensures Hunted(Exec(st, steps), c, id)
  {
    hide Inv, Indexed, Next, Hunted;
    if |steps| > 0 {
      var n := |steps| - 1;
      ExecKeepsHunted(st, steps[..n], c, id);
      ExecKeepsIndex(st, steps[..n]);
      NextKeepsHunted(Exec(st, steps[..n]), steps[n], c, id);
    }
  }

  /**
    A revoke that has returned, whatever others did between its steps: if the session had
    been written for that user before the revoke began, it is now revoked or gone, for good.
   */
  lemma RevokeKills(before: seq<Step>, c: ClientId, user: UserId, id: SessionId, at: int, steps: seq<Step>)
    requires Free(At(Exec(INITIAL, before), c))
    requires var st := Exec(INITIAL, before); id in st.written && id in st.born && st.born[id].userId == user
    requires Free(At(Exec(Next(Exec(INITIAL, before), RevokeStart(c, user, id, at)), steps), c))
    ensures Dead(Exec(Next(Exec(INITIAL, before), RevokeStart(c, user, id, at)), steps), id)
  {
    hide Exec, Inv, Indexed;
    var st := Exec(INITIAL, before);
    RunsAreIndexed(before);
    NextKeeps(st, RevokeStart(c, user, id, at));
    NextKeepsIndex(st, RevokeStart(c, user, id, at));
    ExecKeepsHunted(Next(st, RevokeStart(c, user, id, at)), steps, c, id);
  }

  /**
    A revokeAll that has returned, full or sparing one session, whatever others did
    between its steps: every session written for the user before it began, the spared
    one apart, is now revoked or gone, for good.
   */
  lemma RevokeAllKills(before: seq<Step>, c: ClientId, user: UserId, at: int, except: Option<SessionId>, steps: seq<Step>,
                       id: SessionId)
    requires Free(At(Exec(INITIAL, before), c))
    requires var st := Exec(INITIAL, before);
             id in st.written && id in st.born && st.born[id].userId == user && Some(id) != except
    requires Free(At(Exec(Next(Exec(INITIAL, before), RevokeAllStart(c, user, at, except)), steps), c))
    ensures Dead(Exec(Next(Exec(INITIAL, before), RevokeAllStart(c, user, at, except)), steps), id)
  {
    hide Exec, Inv, Indexed;
    var st := Exec(INITIAL, before);
    RunsAreIndexed(before);
    NextKeeps(st, RevokeAllStart(c, user, at, except));
    NextKeepsIndex(st, RevokeAllStart(c, user, at, except));
    BeginningCounts(st, c, user, at, except);
    ExecKeepsHunted(Next(st, RevokeAllStart(c, user, at, except)), steps, c, id);
  }

  /** So once either has returned, no find that reads its token later gets to return the session. */
  lemma RevokedIsNeverFound(before: seq<Step>, start: Step, steps: seq<Step>, id: SessionId, later: seq<Step>, finder: ClientId)
    requires (start.RevokeStart? && start.id == id) || (start.RevokeAllStart? && start.except != Some(id))
    requires Free(At(Exec(INITIAL, before), start.c))
    requires var st := Exec(INITIAL, before); id in st.written && id in st.born && st.born[id].userId == start.user
    requires Free(At(Exec(Next(Exec(INITIAL, before), start), steps), start.c))
    requires At(Exec(Exec(Next(Exec(INITIAL, before), start), steps), later), finder).Finding?
    ensures var st := Exec(Exec(Next(Exec(INITIAL, before), start), steps), later);
            var p := At(Next(st, FindToken(finder)), finder);
            p.Found? || (p.Checking? && p.seen.sessionId != id)
  {
    hide Exec, Next, Inv, Dead;
    if start.RevokeStart? {
      RevokeKills(before, start.c, start.user, id, start.at, steps);
    } else {
      RevokeAllKills(before, start.c, start.user, start.at, start.except, steps, id);
    }
    RunsAreIndexed(before);
    NextKeeps(Exec(INITIAL, before), start);
    var returned := Exec(Next(Exec(INITIAL, before), start), steps);
    ExecKeeps(Next(Exec(INITIAL, before), start), steps);
    RevokedStaysRevoked(returned, later, id);
    ExecKeeps(returned, later);
    FindAvoidsDead(Exec(returned, later), finder, id);
  }

  lemma RunsAreIndexed(steps: seq<Step>)
    ensures Inv(Exec(INITIAL, steps)) && Indexed(Exec(INITIAL, steps))
  {
    ExecKeepsIndex(INITIAL, steps);
  }

  // ---- and nothing else ----

  predicate RevokeStep(step: Step) {
    step.RevokeList? || step.RevokeGet? || step.RevokeRun? || step.RevokeAllList? || step.RevokeAllGet? || step.RevokeAllNext?
  }

  ghost predicate WorkingAfter(after: After, user: UserId, at: int, allowed: iset<SessionId>) {
    after.Continue? ==> after.user == user && after.at == at && forall id :: id in after.todo ==> id in allowed
  }

  /** Whatever the client is revoking is the user's, at the given time, and one of the allowed sessions. */
  ghost predicate Working(p: Control, user: UserId, at: int, allowed: iset<SessionId>) {
    match p
    case AllMembers(u, t, except) => u == user && t == at && forall id :: Some(id) != except ==> id in allowed
    case AllValues(u, t, except, _) => u == user && t == at && forall id :: Some(id) != except ==> id in allowed
    case AllLoop(u, t, todo) => WorkingAfter(Continue(u, t, todo), user, at, allowed)
    case RevokeMembers(u, id, t, after) => u == user && t == at && id in allowed && WorkingAfter(after, user, at, allowed)
    case RevokeValues(u, id, t, _, after) => u == user && t == at && id in allowed && WorkingAfter(after, user, at, allowed)
    case RevokeReady(u, read, t, after) =>
      u == user && t == at && read.sessionId in allowed && WorkingAfter(after, user, at, allowed)
    case _ => Free(p)
  }

  /** A step of the revocation changes nothing, or revokes one live session of the user, an allowed one. */
  ghost predicate WorkOn(before: Redis, after: Redis, user: UserId, at: int, allowed: iset<SessionId>) {
    after == before || exists id :: id in allowed && RevokesOne(before, after, user, id, at)
  }

  lemma OwnStepWorks(st: State, c: ClientId, step: Step, user: UserId, at: int, allowed: iset<SessionId>)
    requires Inv(st) && Mover(step) == Some(c) && RevokeStep(step) && Working(At(st, c), user, at, allowed)
    ensures Working(At(Next(st, step), c), user, at, allowed)
    ensures WorkOn(st.db, Next(st, step).db, user, at, allowed)
  {
    if step.RevokeRun? {
      RunWorks(st, c, user, at, allowed);
    } else {
      assert step.RevokeGet? && At(st, c).RevokeValues? && At(st, c).id in st.db.sessions ==>
          st.db.sessions[At(st, c).id].sessionId == At(st, c).id;
      ReadWorks(st, c, step, user, at, allowed);
    }
    hide Next, Working, WorkOn;
  }

  lemma RunWorks(st: State, c: ClientId, user: UserId, at: int, allowed: iset<SessionId>)
    requires Inv(st) && Working(At(st, c), user, at, allowed)
    ensures Working(At(Next(st, RevokeRun(c)), c), user, at, allowed)
    ensures WorkOn(st.db, Next(st, RevokeRun(c)).db, user, at, allowed)
  {
    hide RevokesOne, RevokeScript, Inv;
    if At(st, c).RevokeReady? {
      RevokeRunMarks(st, c);
    }
  }

  lemma ReadWorks(st: State, c: ClientId, step: Step, user: UserId, at: int, allowed: iset<SessionId>)
    requires Mover(step) == Some(c) && RevokeStep(step) && !step.RevokeRun? && Working(At(st, c), user, at, allowed)
    requires step.RevokeGet? && At(st, c).RevokeValues? && At(st, c).id in st.db.sessions ==>
               st.db.sessions[At(st, c).id].sessionId == At(st, c).id
    ensures Working(At(Next(st, step), c), user, at, allowed) && Next(st, step).db == st.db
  {
  }

  /** The client's own step, after any steps of others and of itself that belong to the revocation. */
  lemma {:induction false} StillWorking(st: State, c: ClientId, steps: seq<Step>, user: UserId, at: int, allowed: iset<SessionId>)
    requires Inv(st) && Working(At(st, c), user, at, allowed)
    requires forall n :: 0 <= n < |steps| && Mover(steps[n]) == Some(c) ==> RevokeStep(steps[n])
    ensures Inv(Exec(st, steps)) && Working(At(Exec(st, steps), c), user, at, allowed)
    ensures forall last :: Mover(last) == Some(c) && RevokeStep(last) ==>
              WorkOn(Exec(st, steps).db, Next(Exec(st, steps), last).db, user, at, allowed)
  {
    hide Inv, Next, Working, WorkOn;
    if |steps| > 0 {
      var n := |steps| - 1;
      StillWorking(st, c, steps[..n], user, at, allowed);
      NextKeeps(Exec(st, steps[..n]), steps[n]);
      if Mover(steps[n]) == Some(c) {
        OwnStepWorks(Exec(st, steps[..n]), c, steps[n], user, at, allowed);
      } else {
        NextKeepsOthers(Exec(st, steps[..n]), steps[n], c);
      }
    }
    var reached := Exec(st, steps);
    forall last | Mover(last) == Some(c) && RevokeStep(last)
      ensures WorkOn(reached.db, Next(reached, last).db, user, at, allowed)
    {
      OwnStepWorks(reached, c, last, user, at, allowed);
    }
  }

  /** Beginning a revokeAll moves the user's generation on if it is full, and changes nothing if it spares a session. */
  lemma BeginningCounts(st: State, c: ClientId, user: UserId, at: int, except: Option<SessionId>)
    requires Free(At(st, c))
    ensures var begun := Next(st, RevokeAllStart(c, user, at, except)).db;
            && begun.tokens == st.db.tokens && begun.sessions == st.db.sessions && begun.index == st.db.index
            && forall u :: Generation(begun, u) == Generation(st.db, u) + if u == user && except.None? then 1 else 0
    ensures At(Next(st, RevokeAllStart(c, user, at, except)), c) == AllMembers(user, at, except)
  {
  }

  /**
    Of a whole revokeAll, whatever others do between its steps, each step of its client
    changes nothing or revokes one live session of the user, in both copies and at the
    given time, and never the spared one.
   */
  lemma RevokeAllTouchesNothingElse(before: seq<Step>, c: ClientId, user: UserId, at: int, except: Option<SessionId>,
                                    steps: seq<Step>, last: Step)
    requires Free(At(Exec(INITIAL, before), c)) && Mover(last) == Some(c) && RevokeStep(last)
    requires forall n :: 0 <= n < |steps| && Mover(steps[n]) == Some(c) ==> RevokeStep(steps[n])
    ensures var reached := Exec(Next(Exec(INITIAL, before), RevokeAllStart(c, user, at, except)), steps);
            var after := Next(reached, last).db;
            after == reached.db || exists id :: Some(id) != except && RevokesOne(reached.db, after, user, id, at)
  {
    hide Exec, Next, Inv, RevokesOne;
    var st := Exec(INITIAL, before);
    RunsAreIndexed(before);
    NextKeeps(st, RevokeAllStart(c, user, at, except));
    BeginningCounts(st, c, user, at, except);
    StillWorking(Next(st, RevokeAllStart(c, user, at, except)), c, steps, user, at, iset id | Some(id) != except);
  }

  lemma RevokeBegins(st: State, c: ClientId, user: UserId, id: SessionId, at: int)
    requires Free(At(st, c))
    ensures var begun := Next(st, RevokeStart(c, user, id, at)); begun.db == st.db && At(begun, c) == RevokeMembers(user, id, at, Return)
  {
  }

  /** A single revoke likewise: its steps change nothing but the one session it was given, and that only if it is the user's. */
  lemma RevokeTouchesNothingElse(before: seq<Step>, c: ClientId, user: UserId, id: SessionId, at: int, steps: seq<Step>, last: Step)
    requires Free(At(Exec(INITIAL, before), c)) && Mover(last) == Some(c) && RevokeStep(last)
    requires forall n :: 0 <= n < |steps| && Mover(steps[n]) == Some(c) ==> RevokeStep(steps[n])
    ensures Next(Exec(INITIAL, before), RevokeStart(c, user, id, at)).db == Exec(INITIAL, before).db
    ensures var reached := Exec(Next(Exec(INITIAL, before), RevokeStart(c, user, id, at)), steps);
            Next(reached, last).db == reached.db || RevokesOne(reached.db, Next(reached, last).db, user, id, at)
  {
    hide Exec, Next, Inv, RevokesOne;
    var st := Exec(INITIAL, before);
    RunsAreIndexed(before);
    NextKeeps(st, RevokeStart(c, user, id, at));
    RevokeBegins(st, c, user, id, at);
    StillWorking(Next(st, RevokeStart(c, user, id, at)), c, steps, user, at, iset{id});
  }
}
