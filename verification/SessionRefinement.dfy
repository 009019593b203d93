/**
  The Redis store against the in-memory reference, over every list of calls made one
  after the other with fresh ids and digests, while time passes: exactly when both give
  the same answer. The revoke generation is invisible to a caller who is never
  interleaved; expiry shows only in what a revocation reports, since the reference
  still holds sessions whose Redis keys are gone. A key is taken to expire when its
  session does.
 */
module SessionRefinement {
  import opened SessionStore
  import opened SessionLaws
  import opened SessionReference

  datatype Call =
    | Create(digest: Digest, session: Session)
    | Find(digest: Digest)
    | Touch(digest: Digest, lastSeen: int, expiresAt: int)  // of the session found under the digest
    | Revoke(user: UserId, id: SessionId, at: int)
    | RevokeAll(user: UserId, at: int, except: Option<SessionId>)
    | Wait(until: int)

  datatype Answer = Done | Holder(session: Option<Session>) | Flag(ok: bool) | Count(n: nat)

  /** What a caller sees of a record; digest and generation are Redis's own. */
  function Core(s: Session): Session {
    s.(digest := "", generation := 0)
  }

  function CoreOf(s: Option<Session>): Option<Session> {
    if s.None? then None else Some(Core(s.value))
  }

  function Renewed(s: Session, call: Call): Session
    requires call.Touch?
  {
    s.(lastSeen := call.lastSeen, expiresAt := call.expiresAt)
  }

  function RedisCall(db: Redis, call: Call): (Redis, Answer) {
    match call
    case Create(digest, s) => (RedisCreate(db, digest, s), Done)
    case Find(digest) => (db, Holder(CoreOf(RedisFind(db, digest))))
    case Touch(digest, _, _) =>
      var found := RedisFind(db, digest);
      if found.None? then (db, Flag(false))
      else var (after, ok) := TouchScript(db, digest, Renewed(found.value, call)); (after, Flag(ok))
    case Revoke(user, id, at) => var (after, ok) := RedisRevoke(db, user, id, at); (after, Flag(ok))
    case RevokeAll(user, at, except) =>
      (Revoked(Advanced(db, user, except), RedisTargets(db, user, except), at), Count(|RedisTargets(db, user, except)|))
    case Wait(until) => (Expired(db, until), Done)
  }

  /** Both keys of a session go when it expires; the index and the generation stay. */
  function Expired(db: Redis, now: int): Redis {
    db.(tokens := map d | d in db.tokens && db.tokens[d].expiresAt > now :: db.tokens[d],
        sessions := map id | id in db.sessions && db.sessions[id].expiresAt > now :: db.sessions[id])
  }

  ghost function MemoryCall(m: Memory, call: Call, now: int): (Memory, Answer) {
    match call
    case Create(digest, s) => (m[s.sessionId := Item(digest, s)], Done)
    case Find(digest) => (m, Holder(CoreOf(MemoryFind(m, digest, now))))
    case Touch(digest, _, _) =>
      var found := MemoryFind(m, digest, now);
      if found.None? then (m, Flag(false))
      else var (after, ok) := MemoryTouch(m, digest, Renewed(found.value, call)); (after, Flag(ok))
    case Revoke(user, id, at) => var (after, ok) := MemoryRevoke(m, user, id, at); (after, Flag(ok))
    case RevokeAll(user, at, except) =>
      (MemoryRevoked(m, MemoryTargets(m, user, except), at), Count(|MemoryTargets(m, user, except)|))
    case Wait(_) => (m, Done)
  }

  /** The time after a list of calls that starts at 0; waiting never turns it back. */
  function Clock(calls: seq<Call>): int {
    if calls == [] then 0
    else
      var before, last := Clock(calls[..|calls| - 1]), calls[|calls| - 1];
      if last.Wait? && last.until > before then last.until else before
  }

  function RedisAfter(calls: seq<Call>): Redis {
    if calls == [] then EMPTY_REDIS else RedisCall(RedisAfter(calls[..|calls| - 1]), calls[|calls| - 1]).0
  }

  ghost function MemoryAfter(calls: seq<Call>): Memory {
    if calls == [] then map[]
    else MemoryCall(MemoryAfter(calls[..|calls| - 1]), calls[|calls| - 1], Clock(calls[..|calls| - 1])).0
  }

  // ---- The relation ----

  ghost predicate SameRecord(db: Redis, m: Memory, id: SessionId)
    requires id in db.sessions && id in m
  {
    && m[id].digest == db.sessions[id].digest
    && Core(m[id].session) == Core(db.sessions[id])
    && m[id].session.sessionId == id
    && id in Members(db, db.sessions[id].userId)
  }

  ghost predicate SameRecords(db: Redis, m: Memory) {
    && CopiesAgree(db)
    && m.Keys == db.sessions.Keys
    && forall id :: id in m ==> SameRecord(db, m, id)
  }

  /** A live session is of its user's current generation. */
  ghost predicate LiveAreCurrent(db: Redis) {
    forall id :: id in db.sessions && db.sessions[id].revokedAt.None? ==>
      db.sessions[id].generation >= Generation(db, db.sessions[id].userId)
  }

  ghost predicate NotExpired(m: Memory, now: int) {
    forall id :: id in m ==> m[id].session.expiresAt > now
  }

  ghost predicate Related(db: Redis, m: Memory, now: int) {
    SameRecords(db, m) && LiveAreCurrent(db) && NotExpired(m, now)
  }

  // ---- Each call ----

  lemma CreateSame(db: Redis, m: Memory, digest: Digest, s: Session, now: int)
    requires Related(db, m, now) && s.sessionId !in db.sessions && digest !in db.tokens && s.expiresAt > now
    ensures Related(RedisCreate(db, digest, s), m[s.sessionId := Item(digest, s)], now)
  {
    var full := s.(generation := Generation(db, s.userId), digest := digest);
    WriteAgrees(db, full);
    WriteSameRecord(db, m, digest, s);
    WriteKeepsCurrent(db, full);
  }

  lemma WriteSameRecord(db: Redis, m: Memory, digest: Digest, s: Session)
    requires SameRecords(db, m) && s.sessionId !in db.sessions
    ensures var after, m' := RedisCreate(db, digest, s), m[s.sessionId := Item(digest, s)];
            m'.Keys == after.sessions.Keys && forall id :: id in m' ==> SameRecord(after, m', id)
  {
    var full := s.(generation := Generation(db, s.userId), digest := digest);
    var m' := m[s.sessionId := Item(digest, s)];
    forall id | id in m'
      ensures SameRecord(Write(db, full), m', id)
    {
      if id != s.sessionId {
        assert SameRecord(db, m, id);
        WriteKeepsMembers(db, full, db.sessions[id].userId);
      }
    }
  }

  lemma WriteAgrees(db: Redis, s: Session)
    requires CopiesAgree(db) && s.sessionId !in db.sessions && s.digest !in db.tokens
    ensures CopiesAgree(Write(db, s))
  {
  }

  lemma WriteKeepsMembers(db: Redis, s: Session, user: UserId)
    ensures Members(db, user) <= Members(Write(db, s), user)
  {
  }

  lemma WriteKeepsCurrent(db: Redis, s: Session)
    requires LiveAreCurrent(db) && s.generation == Generation(db, s.userId)
    ensures LiveAreCurrent(Write(db, s))
  {
  }

  lemma FindSame(db: Redis, m: Memory, digest: Digest, now: int)
    requires Related(db, m, now)
    ensures CoreOf(RedisFind(db, digest)) == CoreOf(MemoryFind(m, digest, now))
    ensures RedisFind(db, digest).Some? ==>
              var s := RedisFind(db, digest).value; s.sessionId in db.sessions && db.sessions[s.sessionId] == s && s.digest == digest
  {
    forall id | id in m && m[id].digest == digest
      ensures digest in db.tokens && db.tokens[digest].sessionId == id
    {
      assert SameRecord(db, m, id);
    }
    if digest in db.tokens {
      var id := db.tokens[digest].sessionId;
      assert SameRecord(db, m, id);
    }
  }

  lemma StoreAgrees(db: Redis, s: Session)
    requires CopiesAgree(db) && s.sessionId in db.sessions && db.sessions[s.sessionId].digest == s.digest
    ensures CopiesAgree(Store(db, s))
  {
    var after := Store(db, s);
    forall d | d in after.tokens
      ensures after.tokens[d].digest == d && after.tokens[d].sessionId in after.sessions
              && after.sessions[after.tokens[d].sessionId] == after.tokens[d]
    {
      if d != s.digest {
        assert db.sessions[db.tokens[d].sessionId] == db.tokens[d];
      }
    }
  }

  /** A touch with a record read earlier, however stale, as long as it is the same session. */
  lemma TouchSame(db: Redis, m: Memory, held: Session, s: Session, now: int)
    requires Related(db, m, now) && held.revokedAt.None? && held.expiresAt > now && Core(s) == Core(held)
    requires held.sessionId in db.sessions ==>
               var stored := db.sessions[held.sessionId];
               held.digest == stored.digest && held.userId == stored.userId && held.generation == stored.generation
    ensures TouchScript(db, held.digest, held).1 == MemoryTouch(m, held.digest, s).1
    ensures Related(TouchScript(db, held.digest, held).0, MemoryTouch(m, held.digest, s).0, now)
  {
    if held.sessionId in m {
      assert SameRecord(db, m, held.sessionId);
      var (after, ok) := TouchScript(db, held.digest, held);
      if ok {
        StoreAgrees(db, held);
        var m' := MemoryTouch(m, held.digest, s).0;
        forall id | id in m'
          ensures SameRecord(after, m', id)
        {
          assert SameRecord(db, m, id);
        }
      }
    }
  }

  lemma RevokedAgrees(db: Redis, ids: set<SessionId>, at: int)
    requires CopiesAgree(db)
    ensures CopiesAgree(Revoked(db, ids, at))
  {
  }

  lemma RevokedSame(db: Redis, m: Memory, ids: set<SessionId>, at: int)
    requires SameRecords(db, m)
    ensures SameRecords(Revoked(db, ids, at), MemoryRevoked(m, ids, at))
  {
    RevokedAgrees(db, ids, at);
    forall id | id in m
      ensures SameRecord(Revoked(db, ids, at), MemoryRevoked(m, ids, at), id)
    {
      assert SameRecord(db, m, id);
    }
  }

  lemma TargetsSame(db: Redis, m: Memory, user: UserId, except: Option<SessionId>)
    requires SameRecords(db, m)
    ensures RedisTargets(db, user, except) == MemoryTargets(m, user, except)
  {
    forall id
      ensures id in RedisTargets(db, user, except) <==> id in MemoryTargets(m, user, except)
    {
      if id in m {
        assert SameRecord(db, m, id);
      }
    }
  }

  lemma AdvanceKeepsRecords(db: Redis, m: Memory, user: UserId, except: Option<SessionId>)
    requires SameRecords(db, m)
    ensures SameRecords(Advanced(db, user, except), m)
  {
    forall id | id in m
      ensures SameRecord(Advanced(db, user, except), m, id)
    {
      assert SameRecord(db, m, id);
    }
  }

  /** A full revokeAll leaves none of the user's sessions live, so moving the generation on strands none. */
  lemma RevokeAllSame(db: Redis, m: Memory, user: UserId, at: int, except: Option<SessionId>, now: int)
    requires Related(db, m, now)
    ensures RedisTargets(db, user, except) == MemoryTargets(m, user, except)
    ensures Related(Revoked(Advanced(db, user, except), RedisTargets(db, user, except), at),
                    MemoryRevoked(m, MemoryTargets(m, user, except), at), now)
  {
    TargetsSame(db, m, user, except);
    AdvanceKeepsRecords(db, m, user, except);
    RevokedSame(Advanced(db, user, except), m, MemoryTargets(m, user, except), at);
    RevokeAllKeepsCurrent(db, m, user, at, except);
  }

  lemma RevokeAllKeepsCurrent(db: Redis, m: Memory, user: UserId, at: int, except: Option<SessionId>)
    requires SameRecords(db, m) && LiveAreCurrent(db)
    ensures LiveAreCurrent(Revoked(Advanced(db, user, except), RedisTargets(db, user, except), at))
  {
    forall id | id in db.sessions && db.sessions[id].revokedAt.None? && id !in RedisTargets(db, user, except)
      ensures db.sessions[id].generation >= Generation(Advanced(db, user, except), db.sessions[id].userId)
    {
      assert SameRecord(db, m, id);
    }
  }

  lemma RedisRevokeMarks(db: Redis, m: Memory, user: UserId, id: SessionId, at: int)
    requires SameRecords(db, m)
    ensures RedisRevoke(db, user, id, at)
            == if id in db.sessions && db.sessions[id].userId == user && db.sessions[id].revokedAt.None?
               then (Revoked(db, {id}, at), true) else (db, false)
  {
    if id in m {
      assert SameRecord(db, m, id);
      RedisLoopStarts(db, user, None, at);
      if id in Members(db, user) {
        RedisRevokeStep(db, {}, user, id, at);
        assert {} + {id} == {id};
      }
    }
  }

  lemma MemoryRevokeMarks(m: Memory, user: UserId, id: SessionId, at: int)
    ensures MemoryRevoke(m, user, id, at)
            == if id in m && m[id].session.userId == user && m[id].session.revokedAt.None?
               then (MemoryRevoked(m, {id}, at), true) else (m, false)
  {
    if id in m {
      assert MemoryRevoked(m, {}, at) == m;
      MemoryRevokeStep(m, {}, user, id, at);
      assert {} + {id} == {id};
    }
  }

  lemma RevokeSame(db: Redis, m: Memory, user: UserId, id: SessionId, at: int, now: int)
    requires Related(db, m, now)
    ensures RedisRevoke(db, user, id, at).1 == MemoryRevoke(m, user, id, at).1
    ensures Related(RedisRevoke(db, user, id, at).0, MemoryRevoke(m, user, id, at).0, now)
  {
    RedisRevokeMarks(db, m, user, id, at);
    MemoryRevokeMarks(m, user, id, at);
    RevokedSame(db, m, {id}, at);
    if id in m {
      assert SameRecord(db, m, id);
    }
  }

  // ---- Sessions that have expired ----

  /** What the reference holds and Redis still has. */
  function Alive(m: Memory, now: int): Memory {
    map id | id in m && m[id].session.expiresAt > now :: m[id]
  }

  predicate MemorySound(m: Memory) {
    MemoryDigestsDiffer(m) && forall id :: id in m ==> m[id].session.sessionId == id
  }

  lemma FindSeesTheAlive(m: Memory, digest: Digest, now: int)
    requires MemorySound(m)
    ensures MemoryFind(m, digest, now) == MemoryFind(Alive(m, now), digest, now)
  {
    forall id | id in m && m[id].digest == digest && Live(m[id].session, now)
      ensures id in Alive(m, now)
    {
    }
  }

  lemma RevokeAmongTheAlive(m: Memory, user: UserId, id: SessionId, at: int, now: int)
    ensures Alive(MemoryRevoke(m, user, id, at).0, now) == MemoryRevoke(Alive(m, now), user, id, at).0
    ensures MemoryRevoke(m, user, id, at).1 == MemoryRevoke(Alive(m, now), user, id, at).1
            <==> !(id in MemoryTargets(m, user, None) && m[id].session.expiresAt <= now)
    ensures MemorySound(m) ==> MemorySound(MemoryRevoke(m, user, id, at).0)
  {
    var m' := MemoryRevoke(m, user, id, at).0;
    assert Alive(m', now).Keys == Alive(m, now).Keys;
  }

  /** The revocable sessions that have expired. */
  function ExpiredTargets(m: Memory, user: UserId, except: Option<SessionId>, now: int): set<SessionId> {
    set id | id in MemoryTargets(m, user, except) && m[id].session.expiresAt <= now
  }

  lemma TargetsAmongTheAlive(m: Memory, user: UserId, except: Option<SessionId>, now: int)
    ensures |MemoryTargets(m, user, except)|
            == |MemoryTargets(Alive(m, now), user, except)| + |ExpiredTargets(m, user, except, now)|
  {
    var alive, expired := MemoryTargets(Alive(m, now), user, except), ExpiredTargets(m, user, except, now);
    assert MemoryTargets(m, user, except) == alive + expired && alive !! expired;
  }

  lemma RevokedAmongTheAlive(m: Memory, user: UserId, at: int, except: Option<SessionId>, now: int)
    ensures Alive(MemoryRevoked(m, MemoryTargets(m, user, except), at), now)
            == MemoryRevoked(Alive(m, now), MemoryTargets(Alive(m, now), user, except), at)
  {
  }

  lemma RevokedStaysSound(m: Memory, ids: set<SessionId>, at: int)
    requires MemorySound(m)
    ensures MemorySound(MemoryRevoked(m, ids, at))
  {
  }

  lemma TouchAmongTheAlive(m: Memory, digest: Digest, s: Session, now: int)
    requires MemorySound(m) && s.expiresAt > now && s.sessionId in Alive(m, now)
    ensures Alive(MemoryTouch(m, digest, s).0, now) == MemoryTouch(Alive(m, now), digest, s).0
    ensures MemoryTouch(m, digest, s).1 == MemoryTouch(Alive(m, now), digest, s).1
    ensures MemorySound(MemoryTouch(m, digest, s).0)
  {
  }

  lemma CreateAmongTheAlive(m: Memory, digest: Digest, s: Session, now: int)
    requires MemorySound(m) && s.expiresAt > now && s.sessionId !in m
    requires forall id :: id in m ==> m[id].digest != digest
    ensures Alive(m[s.sessionId := Item(digest, s)], now) == Alive(m, now)[s.sessionId := Item(digest, s)]
    ensures MemorySound(m[s.sessionId := Item(digest, s)])
  {
  }

  lemma WaitAmongTheAlive(db: Redis, m: Memory, now: int, until: int)
    requires Related(db, Alive(m, now), now) && until >= now
    ensures Related(Expired(db, until), Alive(m, until), until)
  {
    ExpiryAgrees(db, until);
    WaitKeepsRecords(db, m, now, until);
    ExpiryKeepsCurrent(db, until);
  }

  lemma WaitKeepsRecords(db: Redis, m: Memory, now: int, until: int)
    requires SameRecords(db, Alive(m, now)) && until >= now
    ensures Alive(m, until).Keys == Expired(db, until).sessions.Keys
    ensures forall id :: id in Alive(m, until) ==> SameRecord(Expired(db, until), Alive(m, until), id)
  {
    hide CopiesAgree;
    var db', m' := Expired(db, until), Alive(m, until);
    forall id
      ensures id in m' <==> id in db'.sessions
      ensures id in m' ==> SameRecord(db', m', id)
    {
      if id in Alive(m, now) {
        assert SameRecord(db, Alive(m, now), id);
      }
    }
  }

  lemma ExpiryKeepsCurrent(db: Redis, now: int)
    requires LiveAreCurrent(db)
    ensures LiveAreCurrent(Expired(db, now))
  {
  }

  lemma ExpiryAgrees(db: Redis, now: int)
    requires CopiesAgree(db)
    ensures CopiesAgree(Expired(db, now))
  {
  }

  // ---- Every call ----

  /** A create draws an id and a digest never used before; records are written for some time to come. */
  ghost predicate Allowed(m: Memory, call: Call, now: int) {
    match call
    case Create(digest, s) => s.sessionId !in m && (forall id :: id in m ==> m[id].digest != digest) && s.expiresAt > now
    case Touch(_, _, expiresAt) => expiresAt > now
    case Wait(until) => until >= now
    case _ => true
  }

  /** The call revokes, in the reference, a session that has expired without having been revoked. */
  predicate RevokesExpired(m: Memory, call: Call, now: int) {
    match call
    case Revoke(user, id, _) => id in ExpiredTargets(m, user, None, now)
    case RevokeAll(user, _, except) => ExpiredTargets(m, user, except, now) != {}
    case _ => false
  }

  function Later(call: Call, now: int): int {
    if call.Wait? && call.until > now then call.until else now
  }

  ghost predicate InStep(db: Redis, m: Memory, now: int) {
    MemorySound(m) && Related(db, Alive(m, now), now)
  }

  lemma FreshForRedis(db: Redis, m: Memory, digest: Digest, id: SessionId, now: int)
    requires Related(db, Alive(m, now), now) && id !in m && forall k :: k in m ==> m[k].digest != digest
    ensures id !in db.sessions && digest !in db.tokens
  {
    forall d | d in db.tokens
      ensures db.tokens[d].sessionId in m && m[db.tokens[d].sessionId].digest == d
    {
      assert SameRecord(db, Alive(m, now), db.tokens[d].sessionId);
    }
  }

  lemma FoundIsAlive(m: Memory, digest: Digest, now: int)
    requires MemorySound(m) && MemoryFind(m, digest, now).Some?
    ensures MemoryFind(m, digest, now).value.sessionId in Alive(m, now)
  {
  }

  lemma TouchCallSame(db: Redis, m: Memory, call: Call, now: int)
    requires InStep(db, m, now) && call.Touch? && call.expiresAt > now
    ensures RedisCall(db, call).1 == MemoryCall(m, call, now).1
    ensures InStep(RedisCall(db, call).0, MemoryCall(m, call, now).0, now)
  {
    hide MemoryFind, MemoryTouch, TouchScript, SameRecords, MemorySound, CopiesAgree, LiveAreCurrent;
    FindSame(db, Alive(m, now), call.digest, now);
    FindSeesTheAlive(m, call.digest, now);
    var held := RedisFind(db, call.digest);
    if held.Some? {
      var s := MemoryFind(m, call.digest, now).value;
      FoundIsAlive(m, call.digest, now);
      TouchSame(db, Alive(m, now), Renewed(held.value, call), Renewed(s, call), now);
      TouchAmongTheAlive(m, call.digest, Renewed(s, call), now);
    }
  }

  lemma CallSame(db: Redis, m: Memory, call: Call, now: int)
    requires InStep(db, m, now) && Allowed(m, call, now)
    ensures RedisCall(db, call).1 == MemoryCall(m, call, now).1 <==> !RevokesExpired(m, call, now)
    ensures InStep(RedisCall(db, call).0, MemoryCall(m, call, now).0, Later(call, now))
  {
    match call
    case Create(digest, s) =>
      FreshForRedis(db, m, digest, s.sessionId, now);
      CreateSame(db, Alive(m, now), digest, s, now);
      CreateAmongTheAlive(m, digest, s, now);
    case Find(digest) =>
      FindSame(db, Alive(m, now), digest, now);
      FindSeesTheAlive(m, digest, now);
    case Touch(_, _, _) => TouchCallSame(db, m, call, now);
    case Revoke(user, id, at) => RevokeCallSame(db, m, user, id, at, now);
    case RevokeAll(user, at, except) => RevokeAllCallSame(db, m, user, at, except, now);
    case Wait(until) => WaitAmongTheAlive(db, m, now, until);
  }

  lemma RevokeCallSame(db: Redis, m: Memory, user: UserId, id: SessionId, at: int, now: int)
    requires InStep(db, m, now)
    ensures RedisRevoke(db, user, id, at).1 == MemoryRevoke(m, user, id, at).1 <==> id !in ExpiredTargets(m, user, None, now)
    ensures InStep(RedisRevoke(db, user, id, at).0, MemoryRevoke(m, user, id, at).0, now)
  {
    hide MemorySound, Related, RedisRevoke, MemoryRevoke;
    RevokeSame(db, Alive(m, now), user, id, at, now);
    RevokeAmongTheAlive(m, user, id, at, now);
  }

  lemma RevokeAllCallSame(db: Redis, m: Memory, user: UserId, at: int, except: Option<SessionId>, now: int)
    requires InStep(db, m, now)
    ensures |RedisTargets(db, user, except)| == |MemoryTargets(m, user, except)| <==> ExpiredTargets(m, user, except, now) == {}
    ensures InStep(Revoked(Advanced(db, user, except), RedisTargets(db, user, except), at),
                   MemoryRevoked(m, MemoryTargets(m, user, except), at), now)
  {
    hide MemorySound, Related, RedisTargets, MemoryTargets, Revoked, MemoryRevoked;
    RevokeAllSame(db, Alive(m, now), user, at, except, now);
    TargetsAmongTheAlive(m, user, except, now);
    RevokedAmongTheAlive(m, user, at, except, now);
    RevokedStaysSound(m, MemoryTargets(m, user, except), at);
  }

  // ---- Every list of calls ----

  ghost predicate AllAllowed(calls: seq<Call>) {
    forall n :: 0 <= n < |calls| ==> Allowed(MemoryAfter(calls[..n]), calls[n], Clock(calls[..n]))
  }

  lemma {:induction false} RunsStayInStep(calls: seq<Call>)
    requires AllAllowed(calls)
    ensures InStep(RedisAfter(calls), MemoryAfter(calls), Clock(calls))
  {
    hide InStep, Allowed, RedisCall, MemoryCall;
    if calls == [] {
      NothingIsInStep();
    } else {
      var init := calls[..|calls| - 1];
      forall n | 0 <= n < |init|
        ensures Allowed(MemoryAfter(init[..n]), init[n], Clock(init[..n]))
      {
        assert init[..n] == calls[..n];
      }
      RunsStayInStep(init);
      CallSame(RedisAfter(init), MemoryAfter(init), calls[|calls| - 1], Clock(init));
    }
  }

  lemma NothingIsInStep()
    ensures InStep(EMPTY_REDIS, map[], 0)
  {
  }

  /**
    For every list of allowed calls and every next one, the two stores give the same
    answer exactly unless the call revokes sessions that had expired unrevoked: the
    reference still counts those. Whether a session is found or touched never differs.
   */
  lemma SameAnswers(calls: seq<Call>, call: Call)
    requires AllAllowed(calls) && Allowed(MemoryAfter(calls), call, Clock(calls))
    ensures RedisCall(RedisAfter(calls), call).1 == MemoryCall(MemoryAfter(calls), call, Clock(calls)).1
            <==> !RevokesExpired(MemoryAfter(calls), call, Clock(calls))
  {
    hide InStep, Allowed, RedisCall, MemoryCall, RevokesExpired;
    RunsStayInStep(calls);
    CallSame(RedisAfter(calls), MemoryAfter(calls), call, Clock(calls));
  }

  /**
    Where they differ: a touch under a digest that is not the session's own is refused by
    the reference, and obeyed by Redis, which writes the session under the new digest.
   */
  lemma TouchUnderAnotherDigestDiffers(db: Redis, m: Memory, held: Session, digest: Digest, now: int)
    requires Related(db, m, now) && held.sessionId in db.sessions && held == db.sessions[held.sessionId]
    requires held.revokedAt.None?
    ensures !MemoryTouch(m, digest, held).1 <==> digest != held.digest
    ensures TouchScript(db, digest, held).1
    ensures digest in TouchScript(db, digest, held).0.tokens
  {
    assert SameRecord(db, m, held.sessionId);
  }
}
