/**
  The Redis session store as a protocol
  (apps/backend/src/modules/identity/infrastructure/redis-session.store.ts).

  Any number of clients run create, find, touch, revoke and revokeAll. Every Redis
  command, MULTI block or script is one atomic step; between its steps a client keeps
  only what it has read, which may be stale. The user lock is left out, since it may
  lapse at any time: every interleaving is allowed, with or without it.
 */
module SessionStore {
  type UserId = string
  type SessionId = string
  type Digest = string
  type ClientId = nat

  datatype Option<+T> = None | Some(value: T)

  /** A session record; `digest` and `generation` are the fields kept in its correlation. */
  datatype Session = Session(
    sessionId: SessionId, userId: UserId, securityVersion: int, lastSeen: int, expiresAt: int,
    revokedAt: Option<int>, digest: Digest, generation: nat)

  /** The shared keys: token, session, per-user index and revoke generation. */
  datatype Redis = Redis(
    tokens: map<Digest, Session>,
    sessions: map<SessionId, Session>,
    index: map<UserId, set<SessionId>>,
    generations: map<UserId, nat>)

  const EMPTY_REDIS: Redis := Redis(map[], map[], map[], map[])

  // ---- Atomic commands ----

  function Generation(db: Redis, user: UserId): nat {
    if user in db.generations then db.generations[user] else 0
  }

  function Members(db: Redis, user: UserId): set<SessionId> {
    if user in db.index then db.index[user] else {}
  }

  function Store(db: Redis, s: Session): Redis {
    db.(tokens := db.tokens[s.digest := s], sessions := db.sessions[s.sessionId := s])
  }

  /** The MULTI block of `write`. */
  function Write(db: Redis, s: Session): Redis {
    Store(db, s).(index := db.index[s.userId := Members(db, s.userId) + {s.sessionId}])
  }

  /** The script of `touch`, run with the record the client holds. */
  function TouchScript(db: Redis, digest: Digest, held: Session): (Redis, bool) {
    var id := held.sessionId;
    if id !in db.sessions then (db, false)
    else
      var current := db.sessions[id];
      if current.revokedAt.Some? || current.sessionId != id || current.securityVersion != held.securityVersion then (db, false)
      else (Store(db, held.(digest := digest)), true)
  }

  /** The script of `revoke`, run with the record the client read earlier. */
  function RevokeScript(db: Redis, user: UserId, read: Session, at: int): (Redis, bool) {
    var id := read.sessionId;
    if id !in db.sessions then (db, false)
    else
      var current := db.sessions[id];
      if current.revokedAt.Some? || current.userId != user then (db, false)
      else (Store(db, read.(revokedAt := Some(at))), true)
  }

  function Increment(db: Redis, user: UserId): Redis {
    db.(generations := db.generations[user := Generation(db, user) + 1])
  }

  // ---- Clients ----

  /** What a revoke does when it is over: end, or go on with the loop of a revokeAll. */
  datatype After = Return | Continue(user: UserId, at: int, todo: set<SessionId>)

  datatype Control =
    | Idle
    | WantGeneration(digest: Digest, draft: Session)          // create, before GET generation
    | Writing(ready: Session)                                 // create, before MULTI
    | Finding(sought: Digest)                                 // find, before GET token
    | Checking(seen: Session)                                 // find, before GET generation
    | Found(held: Option<Session>)                            // find returned; a session may be touched
    | RevokeMembers(user: UserId, id: SessionId, at: int, after: After)                      // before SMEMBERS
    | RevokeValues(user: UserId, id: SessionId, at: int, ids: set<SessionId>, after: After)  // before MGET
    | RevokeReady(user: UserId, read: Session, at: int, after: After)                        // before the script
    | AllMembers(user: UserId, at: int, except: Option<SessionId>)                           // revokeAll, before SMEMBERS
    | AllValues(user: UserId, at: int, except: Option<SessionId>, ids: set<SessionId>)       // revokeAll, before MGET
    | AllLoop(user: UserId, at: int, todo: set<SessionId>)                                   // revokeAll, between revokes

  /** What a session id stands for from its creation on. */
  datatype Identity = Identity(userId: UserId, digest: Digest, securityVersion: int, generation: nat)

  /**
    The whole system. `usedIds` and `usedDigests` are the random values drawn so far,
    `born` what each session was created as once its generation was read, `written` the
    sessions whose MULTI has run; these four are bookkeeping for the proofs.
   */
  datatype State = State(
    db: Redis,
    clients: map<ClientId, Control>,
    usedIds: set<SessionId>,
    usedDigests: set<Digest>,
    born: map<SessionId, Identity>,
    written: set<SessionId>)

  const INITIAL: State := State(EMPTY_REDIS, map[], {}, {}, map[], {})

  datatype Step =
    | CreateStart(c: ClientId, digest: Digest, session: Session)
    | CreateRead(c: ClientId)
    | CreateWrite(c: ClientId)
    | FindStart(c: ClientId, digest: Digest)
    | FindToken(c: ClientId)
    | FindGeneration(c: ClientId)
    | Touch(c: ClientId, lastSeen: int, expiresAt: int)
    | RevokeStart(c: ClientId, user: UserId, id: SessionId, at: int)
    | RevokeList(c: ClientId)
    | RevokeGet(c: ClientId)
    | RevokeRun(c: ClientId)
    | RevokeAllStart(c: ClientId, user: UserId, at: int, except: Option<SessionId>)
    | RevokeAllList(c: ClientId)
    | RevokeAllGet(c: ClientId)
    | RevokeAllNext(c: ClientId, id: SessionId)
    | ExpireSession(id: SessionId)
    | ExpireGeneration(user: UserId)

  function At(st: State, c: ClientId): Control {
    if c in st.clients then st.clients[c] else Idle
  }

  predicate Free(p: Control) {
    p.Idle? || p.Found?
  }

  function Goto(st: State, c: ClientId, p: Control): State {
    st.(clients := st.clients[c := p])
  }

  function Resume(after: After): Control {
    match after
    case Return => Idle
    case Continue(user, at, todo) => AllLoop(user, at, todo)
  }

  function IdentityOf(s: Session): Identity {
    Identity(s.userId, s.digest, s.securityVersion, s.generation)
  }

  /** The sessions an MGET of the given ids returns. */
  function Fetched(db: Redis, ids: set<SessionId>): set<SessionId> {
    set id | id in ids && id in db.sessions
  }

  /** One step; a step that is not possible changes nothing. */
  function Next(st: State, step: Step): State {
    match step
    case CreateStart(c, digest, session) =>
      // Session ids and tokens are random, so a new call draws values never used before.
      if Free(At(st, c)) && session.sessionId !in st.usedIds && digest !in st.usedDigests && session.revokedAt.None? then
        Goto(st, c, WantGeneration(digest, session)).(usedIds := st.usedIds + {session.sessionId},
                                                      usedDigests := st.usedDigests + {digest})
      else st
    case CreateRead(c) =>
      var p := At(st, c);
      if !p.WantGeneration? then st
      else
        var s := p.draft.(generation := Generation(st.db, p.draft.userId), digest := p.digest);
        Goto(st, c, Writing(s)).(born := st.born[s.sessionId := IdentityOf(s)])
    case CreateWrite(c) =>
      var p := At(st, c);
      if !p.Writing? then st
      else Goto(st, c, Idle).(db := Write(st.db, p.ready), written := st.written + {p.ready.sessionId})
    case FindStart(c, digest) =>
      if Free(At(st, c)) then Goto(st, c, Finding(digest)) else st
    case FindToken(c) =>
      var p := At(st, c);
      if !p.Finding? then st
      else if p.sought !in st.db.tokens || st.db.tokens[p.sought].revokedAt.Some? then Goto(st, c, Found(None))
      else Goto(st, c, Checking(st.db.tokens[p.sought]))
    case FindGeneration(c) =>
      var p := At(st, c);
      if !p.Checking? then st
      else if p.seen.generation < Generation(st.db, p.seen.userId) then Goto(st, c, Found(None))
      else Goto(st, c, Found(Some(p.seen)))
    case Touch(c, lastSeen, expiresAt) =>
      // A client touches the session that find gave it, under the digest it asked for.
      var p := At(st, c);
      if !p.Found? || p.held.None? then st
      else
        var held := p.held.value.(lastSeen := lastSeen, expiresAt := expiresAt);
        Goto(st, c, Idle).(db := TouchScript(st.db, held.digest, held).0)
    case RevokeStart(c, user, id, at) =>
      if Free(At(st, c)) then Goto(st, c, RevokeMembers(user, id, at, Return)) else st
    case RevokeList(c) =>
      var p := At(st, c);
      if !p.RevokeMembers? then st
      else Goto(st, c, RevokeValues(p.user, p.id, p.at, Members(st.db, p.user), p.after))
    case RevokeGet(c) =>
      var p := At(st, c);
      if !p.RevokeValues? then st
      else if p.id !in Fetched(st.db, p.ids) || st.db.sessions[p.id].revokedAt.Some? then Goto(st, c, Resume(p.after))
      else Goto(st, c, RevokeReady(p.user, st.db.sessions[p.id], p.at, p.after))
    case RevokeRun(c) =>
      var p := At(st, c);
      if !p.RevokeReady? then st
      else Goto(st, c, Resume(p.after)).(db := RevokeScript(st.db, p.user, p.read, p.at).0)
    case RevokeAllStart(c, user, at, except) =>
      if !Free(At(st, c)) then st
      else if except.None? then Goto(st, c, AllMembers(user, at, except)).(db := Increment(st.db, user))
      else Goto(st, c, AllMembers(user, at, except))
    case RevokeAllList(c) =>
      var p := At(st, c);
      if !p.AllMembers? then st else Goto(st, c, AllValues(p.user, p.at, p.except, Members(st.db, p.user)))
    case RevokeAllGet(c) =>
      var p := At(st, c);
      if !p.AllValues? then st
      else Goto(st, c, AllLoop(p.user, p.at, Fetched(st.db, p.ids) - (if p.except.Some? then {p.except.value} else {})))
    case RevokeAllNext(c, id) =>
      var p := At(st, c);
      if !p.AllLoop? then st
      else if p.todo == {} then Goto(st, c, Idle)
      else if id !in p.todo then st
      else Goto(st, c, RevokeMembers(p.user, id, p.at, Continue(p.user, p.at, p.todo - {id})))
    case ExpireSession(id) =>
      // Both keys of a session are always set together with the same time to live.
      if id !in st.db.sessions then st
      else st.(db := st.db.(sessions := st.db.sessions - {id}, tokens := st.db.tokens - {st.db.sessions[id].digest}))
    case ExpireGeneration(user) =>
      st.(db := st.db.(generations := st.db.generations - {user}))
  }

  function Exec(st: State, steps: seq<Step>): State {
    if |steps| == 0 then st else Next(Exec(st, steps[..|steps| - 1]), steps[|steps| - 1])
  }
}
