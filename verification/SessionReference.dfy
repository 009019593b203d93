/**
  The session stores one call at a time: the in-memory reference
  (apps/backend/src/modules/identity/infrastructure/memory-identity.stores.ts:154-216)
  and the Redis store run without interleaving, each a class over its own maps, and a
  proof of what a list of calls answers in each. Whether the two answer alike, keys
  that expire included, is the subject of SessionRefinement.
 */
module SessionReference {
  import opened SessionStore
  import opened SessionLaws

  datatype Item = Item(digest: Digest, session: Session)

  type Memory = map<SessionId, Item>

  // ---- The reference, as functions ----

  predicate Live(s: Session, now: int) {
    s.revokedAt.None? && s.expiresAt > now
  }

  function MarkRevoked(s: Session, at: int): Session {
    s.(revokedAt := Some(at))
  }

  /** The live session with the digest; digests tell sessions apart. */
  ghost function MemoryFind(m: Memory, digest: Digest, now: int): Option<Session> {
    if exists id :: id in m && m[id].digest == digest && Live(m[id].session, now) then
      var id :| id in m && m[id].digest == digest && Live(m[id].session, now);
      Some(m[id].session)
    else None
  }

  function MemoryTouch(m: Memory, digest: Digest, s: Session): (Memory, bool) {
    if s.sessionId !in m || m[s.sessionId].digest != digest || m[s.sessionId].session.revokedAt.Some?
       || m[s.sessionId].session.securityVersion != s.securityVersion
    then (m, false)
    else (m[s.sessionId := Item(digest, s)], true)
  }

  function MemoryRevoke(m: Memory, user: UserId, id: SessionId, at: int): (Memory, bool) {
    if id !in m || m[id].session.userId != user || m[id].session.revokedAt.Some? then (m, false)
    else (m[id := Item(m[id].digest, MarkRevoked(m[id].session, at))], true)
  }

  /** The sessions a revokeAll finds live. */
  function MemoryTargets(m: Memory, user: UserId, except: Option<SessionId>): set<SessionId> {
    set id | id in m && m[id].session.userId == user && m[id].session.revokedAt.None? && Some(id) != except
  }

  function MemoryRevoked(m: Memory, ids: set<SessionId>, at: int): Memory {
    map id | id in m :: if id in ids then Item(m[id].digest, MarkRevoked(m[id].session, at)) else m[id]
  }

  predicate MemoryDigestsDiffer(m: Memory) {
    forall id, id' :: id in m && id' in m && id != id' ==> m[id].digest != m[id'].digest
  }

  /** One turn of the loop of revokeAll. */
  lemma MemoryRevokeStep(before: Memory, done: set<SessionId>, user: UserId, id: SessionId, at: int)
    requires id in before && id !in done
    ensures MemoryRevoke(MemoryRevoked(before, done, at), user, id, at)
            == if before[id].session.userId == user && before[id].session.revokedAt.None?
               then (MemoryRevoked(before, done + {id}, at), true) else (MemoryRevoked(before, done, at), false)
  {
    var m := MemoryRevoked(before, done, at);
    assert m[id] == before[id];
    assert m[id := Item(m[id].digest, MarkRevoked(m[id].session, at))] == MemoryRevoked(before, done + {id}, at);
  }

  lemma RemainingTargets(targets: set<SessionId>, todo: set<SessionId>, id: SessionId)
    requires id in todo
    ensures targets - (todo - {id}) == if id in targets then (targets - todo) + {id} else targets - todo
    ensures |targets - (todo - {id})| == |targets - todo| + if id in targets then 1 else 0
  {
    if id in targets {
      assert targets - (todo - {id}) == (targets - todo) + {id};
    } else {
      assert targets - (todo - {id}) == targets - todo;
    }
  }

  lemma MemoryLoopStarts(before: Memory, user: UserId, except: Option<SessionId>, todo: set<SessionId>, at: int)
    requires todo == set id | id in before && before[id].session.userId == user
    ensures MemoryTargets(before, user, except) - todo == {} && todo <= before.Keys
    ensures MemoryRevoked(before, {}, at) == before
  {
  }

  lemma MemoryTurn(before: Memory, targets: set<SessionId>, todo: set<SessionId>, user: UserId, except: Option<SessionId>,
                   id: SessionId, at: int)
    requires targets == MemoryTargets(before, user, except) && id in todo && id in before
    ensures var m := MemoryRevoked(before, targets - todo, at);
            var left := targets - (todo - {id});
            && (if Some(id) != except then MemoryRevoke(m, user, id, at) else (m, false))
               == (MemoryRevoked(before, left, at), id in targets)
            && |left| == |targets - todo| + if id in targets then 1 else 0
  {
    RemainingTargets(targets, todo, id);
    MemoryRevokeStep(before, targets - todo, user, id, at);
  }

  class MemorySessionStore {
    var sessions: Memory

    constructor ()
      ensures sessions == map[]
    {
      sessions := map[];
    }

    method Create(digest: Digest, s: Session)
      modifies this
      ensures sessions == old(sessions)[s.sessionId := Item(digest, s)]
    {
      sessions := sessions[s.sessionId := Item(digest, s)];
    }

    method FindByTokenDigest(digest: Digest, now: int) returns (r: Option<Session>)
      ensures MemoryDigestsDiffer(sessions) ==> r == MemoryFind(sessions, digest, now)
      ensures r.Some? ==> exists id :: id in sessions && sessions[id] == Item(digest, r.value) && Live(r.value, now)
    {
      var rest := sessions.Keys;
      while rest != {}
        invariant rest <= sessions.Keys
        invariant forall id :: id in sessions && id !in rest ==> sessions[id].digest != digest
        decreases rest
      {
        var id :| id in rest;
        if sessions[id].digest == digest {
          return if Live(sessions[id].session, now) then Some(sessions[id].session) else None;
        }
        rest := rest - {id};
      }
      r := None;
    }

    method Touch(digest: Digest, s: Session) returns (ok: bool)
      modifies this
      ensures (sessions, ok) == MemoryTouch(old(sessions), digest, s)
    {
      if s.sessionId !in sessions {
        return false;
      }
      var current := sessions[s.sessionId];
      if current.digest != digest || current.session.revokedAt.Some?
         || current.session.securityVersion != s.securityVersion {
        return false;
      }
      sessions := sessions[s.sessionId := Item(digest, s)];
      ok := true;
    }

    method Revoke(user: UserId, id: SessionId, at: int) returns (ok: bool)
      modifies this
      ensures (sessions, ok) == MemoryRevoke(old(sessions), user, id, at)
    {
      if id !in sessions || sessions[id].session.userId != user || sessions[id].session.revokedAt.Some? {
        return false;
      }
      sessions := sessions[id := Item(sessions[id].digest, MarkRevoked(sessions[id].session, at))];
      ok := true;
    }

    /** Revokes the user's other sessions one by one and counts those that were still live. */
    method RevokeAll(user: UserId, at: int, except: Option<SessionId>) returns (count: nat)
      modifies this
      ensures sessions == MemoryRevoked(old(sessions), MemoryTargets(old(sessions), user, except), at)
      ensures count == |MemoryTargets(old(sessions), user, except)|
    {
      count := 0;
      ghost var before := sessions;
      ghost var targets := MemoryTargets(before, user, except);
      var todo := set id | id in sessions && sessions[id].session.userId == user;
      MemoryLoopStarts(before, user, except, todo, at);
      while todo != {}
        invariant count == |targets - todo|
        invariant sessions == MemoryRevoked(before, targets - todo, at)
        invariant todo <= before.Keys
        decreases todo
      {
        var id :| id in todo;
        MemoryTurn(before, targets, todo, user, except, id, at);
        if Some(id) != except {
          var revoked := Revoke(user, id, at);
          if revoked {
            count := count + 1;
          }
        }
        todo := todo - {id};
      }
      assert targets - todo == targets;
    }
  }

  // ---- Redis, one call at a time ----

  function RedisCreate(db: Redis, digest: Digest, s: Session): Redis {
    Write(db, s.(generation := Generation(db, s.userId), digest := digest))
  }

  function RedisFind(db: Redis, digest: Digest): Option<Session> {
    if digest !in db.tokens || db.tokens[digest].revokedAt.Some? then None
    else if db.tokens[digest].generation < Generation(db, db.tokens[digest].userId) then None
    else Some(db.tokens[digest])
  }

  function RedisRevoke(db: Redis, user: UserId, id: SessionId, at: int): (Redis, bool) {
    if id !in Fetched(db, Members(db, user)) || db.sessions[id].revokedAt.Some? then (db, false)
    else RevokeScript(db, user, db.sessions[id], at)
  }

  function RedisTargets(db: Redis, user: UserId, except: Option<SessionId>): set<SessionId> {
    set id | id in Members(db, user) && id in db.sessions && db.sessions[id].userId == user
             && db.sessions[id].revokedAt.None? && Some(id) != except
  }

  /** The store with both copies of the given sessions revoked. */
  function Revoked(db: Redis, ids: set<SessionId>, at: int): Redis {
    Redis(map d | d in db.tokens :: if db.tokens[d].sessionId in ids then MarkRevoked(db.tokens[d], at) else db.tokens[d],
          map id | id in db.sessions :: if id in ids then MarkRevoked(db.sessions[id], at) else db.sessions[id],
          db.index, db.generations)
  }

  function Advanced(db: Redis, user: UserId, except: Option<SessionId>): Redis {
    if except.None? then Increment(db, user) else db
  }

  /** One turn of the loop of revokeAll, on a store where earlier turns revoked `done`. */
  lemma RedisRevokeStep(before: Redis, done: set<SessionId>, user: UserId, id: SessionId, at: int)
    requires CopiesAgree(before) && id !in done
    requires id in Members(before, user) && id in before.sessions
    ensures RedisRevoke(Revoked(before, done, at), user, id, at)
            == if before.sessions[id].userId == user && before.sessions[id].revokedAt.None?
               then (Revoked(before, done + {id}, at), true) else (Revoked(before, done, at), false)
  {
    var db := Revoked(before, done, at);
    assert Members(db, user) == Members(before, user);
    assert db.sessions[id] == before.sessions[id];
    RevokeOneMore(before, done, id, at);
  }

  lemma RevokeOneMore(before: Redis, done: set<SessionId>, id: SessionId, at: int)
    requires CopiesAgree(before) && id !in done && id in before.sessions
    ensures Store(Revoked(before, done, at), MarkRevoked(before.sessions[id], at)) == Revoked(before, done + {id}, at)
  {
    var s := MarkRevoked(before.sessions[id], at);
    var db := Revoked(before, done, at);
    var after := Revoked(before, done + {id}, at);
    assert db.sessions[s.sessionId := s] == after.sessions;
    assert before.tokens[s.digest] == before.sessions[id];
    assert db.tokens[s.digest := s] == after.tokens;
  }

  lemma RedisLoopStarts(before: Redis, user: UserId, except: Option<SessionId>, at: int)
    ensures RedisTargets(before, user, except) - Fetched(before, Members(before, user)) == {}
    ensures Revoked(before, {}, at) == before
  {
    var same := Revoked(before, {}, at);
    assert same.tokens == before.tokens && same.sessions == before.sessions;
  }

  lemma RedisTurn(before: Redis, targets: set<SessionId>, todo: set<SessionId>, user: UserId, except: Option<SessionId>,
                  id: SessionId, at: int)
    requires CopiesAgree(before) && targets == RedisTargets(before, user, except)
    requires id in todo && todo <= Fetched(before, Members(before, user))
    ensures var db := Revoked(before, targets - todo, at);
            var left := targets - (todo - {id});
            && (if Some(id) != except then RedisRevoke(db, user, id, at) else (db, false))
               == (Revoked(before, left, at), id in targets)
            && |left| == |targets - todo| + if id in targets then 1 else 0
  {
    RemainingTargets(targets, todo, id);
    RedisRevokeStep(before, targets - todo, user, id, at);
  }

  class RedisSessionStore {
    var db: Redis

    constructor ()
      ensures db == EMPTY_REDIS
    {
      db := EMPTY_REDIS;
    }

    method Create(digest: Digest, s: Session)
      modifies this
      ensures db == RedisCreate(old(db), digest, s)
    {
      var generation := Generation(db, s.userId);
      db := Write(db, s.(generation := generation, digest := digest));
    }

    method FindByTokenDigest(digest: Digest) returns (r: Option<Session>)
      ensures r == RedisFind(db, digest)
    {
      if digest !in db.tokens {
        return None;
      }
      var s := db.tokens[digest];
      if s.revokedAt.Some? {
        return None;
      }
      var current := Generation(db, s.userId);
      r := if s.generation < current then None else Some(s);
    }

    method Touch(digest: Digest, held: Session) returns (ok: bool)
      modifies this
      ensures (db, ok) == TouchScript(old(db), digest, held)
    {
      var (after, done) := TouchScript(db, digest, held);
      db, ok := after, done;
    }

    method Revoke(user: UserId, id: SessionId, at: int) returns (ok: bool)
      modifies this
      ensures (db, ok) == RedisRevoke(old(db), user, id, at)
    {
      var listed := Fetched(db, Members(db, user));
      if id !in listed || db.sessions[id].revokedAt.Some? {
        return false;
      }
      var (after, done) := RevokeScript(db, user, db.sessions[id], at);
      db, ok := after, done;
    }

    /** A full revokeAll first moves the user's generation on; either kind then revokes and counts. */
    method RevokeAll(user: UserId, at: int, except: Option<SessionId>) returns (count: nat)
      requires CopiesAgree(db)
      modifies this
      ensures db == Revoked(Advanced(old(db), user, except), RedisTargets(old(db), user, except), at)
      ensures count == |RedisTargets(old(db), user, except)|
    {
      if except.None? {
        db := Increment(db, user);
      }
      assert RedisTargets(db, user, except) == RedisTargets(old(db), user, except);
      count := RevokeListed(user, at, except);
    }

    method RevokeListed(user: UserId, at: int, except: Option<SessionId>) returns (count: nat)
      requires CopiesAgree(db)
      modifies this
      ensures db == Revoked(old(db), RedisTargets(old(db), user, except), at)
      ensures count == |RedisTargets(old(db), user, except)|
    {
      hide Revoked, RedisTargets, RedisRevoke;
      count := 0;
      ghost var before := db;
      ghost var targets := RedisTargets(before, user, except);
      var todo := Fetched(db, Members(db, user));
      RedisLoopStarts(before, user, except, at);
      while todo != {}
        invariant count == |targets - todo|
        invariant db == Revoked(before, targets - todo, at)
        invariant todo <= Fetched(before, Members(before, user))
        decreases todo
      {
        var id :| id in todo;
        RedisTurn(before, targets, todo, user, except, id, at);
        if Some(id) != except {
          var revoked := Revoke(user, id, at);
          if revoked {
            count := count + 1;
          }
        }
        todo := todo - {id};
      }
      assert targets - todo == targets;
    }
  }
}
