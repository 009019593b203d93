/**
  The Redis session protocol with one client at work: its steps, run without others in
  between, do exactly what the calls of the sequential store do, and every call ends. So
  what is proved of either speaks of the other.
 */
module SessionAlone {
  import opened SessionStore
  import opened SessionLaws
  import opened SessionReference

  lemma CreateAlone(st: State, c: ClientId, digest: Digest, session: Session)
    requires Free(At(st, c)) && session.sessionId !in st.usedIds && digest !in st.usedDigests && session.revokedAt.None?
    ensures var end := Next(Next(Next(st, CreateStart(c, digest, session)), CreateRead(c)), CreateWrite(c));
            end.db == RedisCreate(st.db, digest, session) && At(end, c) == Idle
  {
    hide Write;
    var asked := Next(st, CreateStart(c, digest, session));
    assert At(asked, c) == WantGeneration(digest, session) && asked.db == st.db;
    var ready := Next(asked, CreateRead(c));
    assert At(ready, c) == Writing(session.(generation := Generation(st.db, session.userId), digest := digest));
  }

  lemma FindAlone(st: State, c: ClientId, digest: Digest)
    requires Free(At(st, c))
    ensures var end := Next(Next(Next(st, FindStart(c, digest)), FindToken(c)), FindGeneration(c));
            end.db == st.db && At(end, c) == Found(RedisFind(st.db, digest))
  {
    var sought := Next(st, FindStart(c, digest));
    assert At(sought, c) == Finding(digest);
    var read := Next(sought, FindToken(c));
    assert read.db == st.db && (At(read, c).Found? || At(read, c).Checking?);
  }

  /** The three steps of one revocation, on its own or within a revokeAll. */
  lemma RevocationAlone(st: State, c: ClientId, user: UserId, id: SessionId, at: int, after: After)
    requires At(st, c) == RevokeMembers(user, id, at, after)
    ensures var end := Next(Next(Next(st, RevokeList(c)), RevokeGet(c)), RevokeRun(c));
            end.db == RedisRevoke(st.db, user, id, at).0 && At(end, c) == Resume(after)
  {
    hide RevokeScript;
    var listed := Next(st, RevokeList(c));
    assert listed.db == st.db && At(listed, c) == RevokeValues(user, id, at, Members(st.db, user), after);
    var got := Next(listed, RevokeGet(c));
    assert got.db == st.db && (At(got, c) == Resume(after) || At(got, c) == RevokeReady(user, st.db.sessions[id], at, after));
  }

  lemma RevokeAlone(st: State, c: ClientId, user: UserId, id: SessionId, at: int)
    requires Free(At(st, c))
    ensures var end := Next(Next(Next(Next(st, RevokeStart(c, user, id, at)), RevokeList(c)), RevokeGet(c)), RevokeRun(c));
            end.db == RedisRevoke(st.db, user, id, at).0 && At(end, c) == Idle
  {
    RevocationAlone(Next(st, RevokeStart(c, user, id, at)), c, user, id, at, Return);
    hide RedisRevoke;
  }

  // ---- revokeAll ----

  /** The sessions the loop goes through. */
  function Listed(db: Redis, user: UserId, except: Option<SessionId>): set<SessionId> {
    Fetched(db, Members(db, user)) - (if except.Some? then {except.value} else {})
  }

  /** The steps that revoke the given sessions one after the other. */
  function RevokeEach(c: ClientId, order: seq<SessionId>): seq<Step> {
    if order == [] then []
    else RevokeEach(c, order[..|order| - 1]) + [RevokeAllNext(c, order[|order| - 1]), RevokeList(c), RevokeGet(c), RevokeRun(c)]
  }

  /** All steps of a revokeAll that takes the sessions in the given order. */
  function WholeRevokeAll(c: ClientId, user: UserId, at: int, except: Option<SessionId>, order: seq<SessionId>): seq<Step> {
    [RevokeAllStart(c, user, at, except), RevokeAllList(c), RevokeAllGet(c)] + RevokeEach(c, order) + [RevokeAllNext(c, "")]
  }

  predicate Distinct(order: seq<SessionId>) {
    forall i, j :: 0 <= i < j < |order| ==> order[i] != order[j]
  }

  function Elements(order: seq<SessionId>): set<SessionId> {
    set id | id in order
  }

  lemma {:induction false} ExecAppends(st: State, a: seq<Step>, b: seq<Step>)
    ensures Exec(st, a + b) == Exec(Exec(st, a), b)
  {
    if b == [] {
      assert a + b == a;
    } else {
      ExecAppends(st, a, b[..|b| - 1]);
      assert (a + b)[..|a + b| - 1] == a + b[..|b| - 1];
    }
  }

  lemma ExecOneMore(st: State, steps: seq<Step>, step: Step)
    ensures Exec(st, steps + [step]) == Next(Exec(st, steps), step)
  {
    hide Next;
    assert (steps + [step])[..|steps|] == steps;
  }

  lemma ExecThree(st: State, a: Step, b: Step, c: Step)
    ensures Exec(st, [a, b, c]) == Next(Next(Next(st, a), b), c)
  {
    hide Exec, Next;
    ExecOneMore(st, [], a);
    ExecOneMore(st, [a], b);
    ExecOneMore(st, [a, b], c);
    assert [] + [a] == [a] && [a] + [b] == [a, b] && [a, b] + [c] == [a, b, c];
    ExecNone(st);
  }

  lemma ExecNone(st: State)
    ensures Exec(st, []) == st
  {
  }

  lemma ExecFour(st: State, a: Step, b: Step, c: Step, d: Step)
    ensures Exec(st, [a, b, c, d]) == Next(Next(Next(Next(st, a), b), c), d)
  {
    hide Exec, Next;
    ExecThree(st, a, b, c);
    ExecOneMore(st, [a, b, c], d);
    assert [a, b, c] + [d] == [a, b, c, d];
  }

  /** One turn of the loop. */
  lemma TurnAlone(st: State, c: ClientId, user: UserId, at: int, todo: set<SessionId>, id: SessionId)
    requires At(st, c) == AllLoop(user, at, todo) && id in todo
    ensures var end := Exec(st, [RevokeAllNext(c, id), RevokeList(c), RevokeGet(c), RevokeRun(c)]);
            end.db == RedisRevoke(st.db, user, id, at).0 && At(end, c) == AllLoop(user, at, todo - {id})
  {
    ExecFour(st, RevokeAllNext(c, id), RevokeList(c), RevokeGet(c), RevokeRun(c));
    var turned := Next(st, RevokeAllNext(c, id));
    assert turned.db == st.db;
    RevocationAlone(turned, c, user, id, at, Continue(user, at, todo - {id}));
    hide Next, Exec, RedisRevoke;
  }

  /** What a further session adds to the sets the loop has gone through. */
  lemma OneMoreElement(order: seq<SessionId>, todo: set<SessionId>, targets: set<SessionId>)
    requires order != [] && Distinct(order) && Elements(order) <= todo
    ensures var init, id := order[..|order| - 1], order[|order| - 1];
            && Distinct(init) && Elements(init) <= todo && id !in Elements(init) && id in todo
            && todo - Elements(init) - {id} == todo - Elements(order)
            && targets * Elements(order) == targets * Elements(init) + (if id in targets then {id} else {})
  {
    assert Elements(order) == Elements(order[..|order| - 1]) + {order[|order| - 1]};
  }

  lemma {:induction false} LoopAlone(st: State, c: ClientId, user: UserId, at: int, todo: set<SessionId>,
                                     except: Option<SessionId>, order: seq<SessionId>)
    requires CopiesAgree(st.db) && At(st, c) == AllLoop(user, at, todo) && Distinct(order) && Elements(order) <= todo
    requires todo == Listed(st.db, user, except)
    ensures var end := Exec(st, RevokeEach(c, order));
            && At(end, c) == AllLoop(user, at, todo - Elements(order))
            && end.db == Revoked(st.db, RedisTargets(st.db, user, except) * Elements(order), at)
  {
    hide Revoked, RedisRevoke, RedisTargets, Next, Distinct, CopiesAgree, Listed;
    var targets := RedisTargets(st.db, user, except);
    if order == [] {
      RedisLoopStarts(st.db, user, except, at);
      assert targets * Elements(order) == {} && todo - Elements(order) == todo;
    } else {
      hide Exec, Elements;
      var init, id := order[..|order| - 1], order[|order| - 1];
      OneMoreElement(order, todo, targets);
      LoopAlone(st, c, user, at, todo, except, init);
      TurnAlone(Exec(st, RevokeEach(c, init)), c, user, at, todo - Elements(init), id);
      TurnRevokes(st.db, targets * Elements(init), user, except, id, at);
      ExecAppends(st, RevokeEach(c, init), [RevokeAllNext(c, id), RevokeList(c), RevokeGet(c), RevokeRun(c)]);
    }
  }

  lemma TurnRevokes(db: Redis, done: set<SessionId>, user: UserId, except: Option<SessionId>, id: SessionId, at: int)
    requires CopiesAgree(db) && id in Listed(db, user, except) && id !in done
    ensures RedisRevoke(Revoked(db, done, at), user, id, at).0
            == Revoked(db, done + (if id in RedisTargets(db, user, except) then {id} else {}), at)
  {
    TargetMeansLive(db, user, except, id);
    RedisRevokeStep(db, done, user, id, at);
    assert done + {} == done;
    hide Revoked, RedisRevoke, RedisTargets, CopiesAgree, Listed;
  }

  lemma TargetMeansLive(db: Redis, user: UserId, except: Option<SessionId>, id: SessionId)
    requires id in Listed(db, user, except)
    ensures id in Members(db, user) && id in db.sessions
    ensures id in RedisTargets(db, user, except) <==> db.sessions[id].userId == user && db.sessions[id].revokedAt.None?
  {
  }

  /** In whatever order it takes the sessions it listed. */
  lemma RevokeAllAlone(st: State, c: ClientId, user: UserId, at: int, except: Option<SessionId>, order: seq<SessionId>)
    requires CopiesAgree(st.db) && Free(At(st, c)) && Distinct(order)
    requires Elements(order) == Listed(st.db, user, except)
    ensures var end := Exec(st, WholeRevokeAll(c, user, at, except, order));
            && end.db == Revoked(Advanced(st.db, user, except), RedisTargets(st.db, user, except), at)
            && At(end, c) == Idle
  {
    hide Revoked, RedisTargets, Exec, Next, CopiesAgree, Distinct, Listed;
    var opening := [RevokeAllStart(c, user, at, except), RevokeAllList(c), RevokeAllGet(c)];
    OpeningAlone(st, c, user, at, except);
    AdvancedTargets(st.db, user, except, Elements(order));
    var looping := Exec(st, opening);
    LoopAlone(looping, c, user, at, Elements(order), except, order);
    ExecAppends(st, opening, RevokeEach(c, order));
    ExecOneMore(st, opening + RevokeEach(c, order), RevokeAllNext(c, ""));
    assert Elements(order) - Elements(order) == {};
    LoopEnds(Exec(looping, RevokeEach(c, order)), c, user, at);
  }

  lemma LoopEnds(st: State, c: ClientId, user: UserId, at: int)
    requires At(st, c) == AllLoop(user, at, {})
    ensures var end := Next(st, RevokeAllNext(c, "")); end.db == st.db && At(end, c) == Idle
  {
  }

  lemma AdvancedTargets(db: Redis, user: UserId, except: Option<SessionId>, listed: set<SessionId>)
    requires listed == Listed(db, user, except)
    ensures RedisTargets(Advanced(db, user, except), user, except) * listed == RedisTargets(db, user, except)
    ensures listed == Listed(Advanced(db, user, except), user, except)
    ensures CopiesAgree(db) ==> CopiesAgree(Advanced(db, user, except))
  {
  }

  lemma OpeningAlone(st: State, c: ClientId, user: UserId, at: int, except: Option<SessionId>)
    requires Free(At(st, c))
    ensures var end := Exec(st, [RevokeAllStart(c, user, at, except), RevokeAllList(c), RevokeAllGet(c)]);
            && end.db == Advanced(st.db, user, except)
            && At(end, c) == AllLoop(user, at, Listed(st.db, user, except))
  {
    ExecThree(st, RevokeAllStart(c, user, at, except), RevokeAllList(c), RevokeAllGet(c));
    hide Exec;
    var s1 := Next(st, RevokeAllStart(c, user, at, except));
    assert At(s1, c) == AllMembers(user, at, except) && s1.db == Advanced(st.db, user, except);
    var s2 := Next(s1, RevokeAllList(c));
    assert At(s2, c) == AllValues(user, at, except, Members(st.db, user)) && s2.db == s1.db;
  }
}
