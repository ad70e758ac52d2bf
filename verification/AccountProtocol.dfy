/** Users, passwords and sessions as a protocol: every operation is one step, except
    that a credential check outside a transaction and a session resolution may be
    overtaken between their reads and their writes.  The logs record what happened,
    for the properties to speak about; steps read them only for freshness. */
module AccountProtocol {
  import opened Types
  import opened Accounts
  import Encoding
  import Identifiers
  import Rbac

  type RequestId = nat

  datatype SessionLog = SessionLog(
    openedBy: map<SessionId, Option<string>>,    // the password that opened it, or None
    touched: map<SessionId, nat>,              // effective touches
    settled: map<SessionId, int>,              // clock of the latest finished resolution
    tokens: set<string>)

  datatype EventLog = EventLog(created: multiset<UserId>, deleted: multiset<UserId>, announced: multiset<SessionId>)

  datatype State = State(
    db: Db,
    auths: map<RequestId, AuthFlight>,
    resolves: map<RequestId, ResolveFlight>,
    sessionLog: SessionLog,
    events: EventLog,
    usedUsers: set<UserId>)

  datatype Step =
    | Create(id: UserId, raw: string, state: UserState)
    | RegisterUser(id: UserId, raw: string, state: UserState, policy: Result<()>, password: string,
                   salt: Encoding.Bytes)
    | ProvisionUser(id: UserId, raw: string, state: UserState, policy: Result<()>, password: string,
                    salt: Encoding.Bytes, codes: seq<string>)
    | RegisterWithLogin(id: UserId, raw: string, state: UserState, policy: Result<()>, password: string,
                        salt: Encoding.Bytes, session: SessionId, token: string, binding: Result<()>)
    | PasswordLogin(guard: Result<()>, raw: string, password: string, salt: Encoding.Bytes, session: SessionId,
                    token: string, binding: Result<()>)
    | Issue(id: UserId, session: SessionId, token: string, binding: Result<()>)
    | Change(id: UserId, password: string, salt: Encoding.Bytes, policy: Result<()>, next: string,
             nextSalt: Encoding.Bytes)
    | Reset(id: UserId, policy: Result<()>, next: string, nextSalt: Encoding.Bytes)
    | BeginAuth(request: RequestId, raw: string, password: string, salt: Encoding.Bytes)
    | FinishAuth(request: RequestId)
    | BeginResolve(request: RequestId, token: string, binding: Result<()>)
    | FinishResolve(request: RequestId)
    | RevokeToken(token: string)
    | RevokeById(session: SessionId)
    | RevokeForUsers(ids: seq<UserId>)
    | DeleteExpired
    | ChangeState(ids: seq<UserId>, state: UserState)
    | Delete(ids: seq<UserId>, participant: Result<()>)

  /** User and session ids are never reused, and neither are tokens. */
  predicate Enabled(s: State, step: Step) {
    && (step.Create? || step.RegisterUser? || step.ProvisionUser? || step.RegisterWithLogin? ==>
          step.id !in s.usedUsers)
    && (step.RegisterWithLogin? || step.PasswordLogin? || step.Issue? ==>
          step.session !in s.sessionLog.openedBy && step.token !in s.sessionLog.tokens)
    && (step.FinishAuth? ==> step.request in s.auths)
    && (step.FinishResolve? ==> step.request in s.resolves)
  }

  // Log entries.

  function UserCreated(s: State, id: UserId): State {
    s.(events := s.events.(created := s.events.created + multiset{id}), usedUsers := s.usedUsers + {id})
  }

  function SessionOpened(s: State, now: int, id: SessionId, token: string, password: Option<string>): State {
    s.(sessionLog := SessionLog(s.sessionLog.openedBy[id := password], s.sessionLog.touched[id := 0],
                                s.sessionLog.settled[id := now], s.sessionLog.tokens + {token}),
       events := s.events.(announced := s.events.announced + multiset{id}))
  }

  /** A finished resolution, and whether its touch took effect. */
  function Resolved(log: SessionLog, id: SessionId, readAt: int, effective: bool): SessionLog {
    if id in log.touched && id in log.settled then
      log.(touched := log.touched[id := if effective then log.touched[id] + 1 else log.touched[id]],
           settled := log.settled[id := Max(log.settled[id], readAt)])
    else log
  }

  // Steps.  The role tables change with the users.

  ghost function Apply(
    cfg: Config, now: int, contacts: map<ContactId, Contact>, r: Rbac.Db, s: State, step: Step)
    : (State, Rbac.Db)
    requires Enabled(s, step)
  {
    match step
    case Create(id, raw, state) =>
      (match CreateUser(s.db.users, now, id, raw, state)
       case Err(_) => (s, r)
       case Ok(users) => (UserCreated(s.(db := s.db.(users := users)), id), r))
    case RegisterUser(id, raw, state, policy, password, salt) =>
      (match Register(cfg, s.db, r, now, id, raw, state, policy, cfg.hasher.Hash(password, salt))
       case Err(_) => (s, r)
       case Ok((db, r1)) => (UserCreated(s.(db := db), id), r1))
    case ProvisionUser(id, raw, state, policy, password, salt, codes) =>
      (match Provision(s.db, r, now, id, raw, state, policy, cfg.hasher.Hash(password, salt), codes)
       case Err(_) => (s, r)
       case Ok((db, r1)) => (UserCreated(s.(db := db), id), r1))
    case RegisterWithLogin(id, raw, state, policy, password, salt, session, token, binding) =>
      (match RegisterAndLogin(cfg, s.db, r, now, id, raw, state, policy, cfg.hasher.Hash(password, salt), session,
                              token, binding)
       case Err(_) => (s, r)
       case Ok((db, r1)) =>
         (SessionOpened(UserCreated(s.(db := db), id), now, session, token, Some(password)), r1))
    case PasswordLogin(guard, raw, password, salt, session, token, binding) =>
      (ApplyLogin(cfg, now, contacts, s, step), r)
    case Issue(id, session, token, binding) =>
      (match OpenSession(cfg, s.db, now, id, session, token, binding)
       case Err(_) => (s, r)
       case Ok(db) => (SessionOpened(s.(db := db), now, session, token, None), r))
    case Change(id, password, salt, policy, next, nextSalt) =>
      (match ChangePassword(cfg.hasher, s.db, now, id, password, salt, policy, cfg.hasher.Hash(next, nextSalt))
       case Err(_) => (s, r)
       case Ok(db) => (s.(db := db), r))
    case Reset(id, policy, next, nextSalt) =>
      (match ResetPassword(s.db, now, id, policy, cfg.hasher.Hash(next, nextSalt))
       case Err(_) => (s, r)
       case Ok(db) => (s.(db := db), r))
    case BeginAuth(request, raw, password, salt) =>
      (match AuthBegin(cfg.hasher, s.db, contacts, raw, password, salt)
       case Ok(Some(flight)) => (s.(auths := s.auths[request := flight]), r)
       case _ => (s, r))
    case FinishAuth(request) =>
      (ApplyFinishAuth(now, s, request), r)
    case BeginResolve(request, token, binding) =>
      (match ResolveBegin(cfg, s.db, now, token, binding)
       case Err(_) => (s.(resolves := s.resolves - {request}), r)
       case Ok(flight) => (s.(resolves := s.resolves[request := flight]), r))
    case FinishResolve(request) =>
      (ApplyFinishResolve(cfg, s, request), r)
    case RevokeToken(token) =>
      (match Revoke(s.db, now, token)
       case Err(_) => (s, r)
       case Ok(db) => (s.(db := db), r))
    case RevokeById(session) =>
      (match RevokeRow(s.db.sessions, session, now)
       case Err(_) => (s, r)
       case Ok(sessions) => (s.(db := s.db.(sessions := sessions)), r))
    case RevokeForUsers(ids) =>
      (s.(db := s.db.(sessions := RevokeUsers(s.db.sessions, AsSet(ids), now))), r)
    case DeleteExpired =>
      (s.(db := s.db.(sessions := WithoutExpired(s.db.sessions, now))), r)
    case ChangeState(ids, state) =>
      (match SetState(s.db, now, ids, state)
       case Err(_) => (s, r)
       case Ok(db) => (s.(db := db), r))
    case Delete(ids, participant) =>
      (match DeleteUsers(s.db, ids, participant)
       case Err(_) => (s, r)
       case Ok(db) => (UsersDeleted(s.(db := db), AsSet(ids)), Rbac.WithoutUsers(r, AsSet(ids))))
  }

  function UsersDeleted(s: State, gone: set<UserId>): State {
    s.(events := s.events.(deleted := s.events.deleted + multiset(gone)))
  }

  ghost function ApplyLogin(
    cfg: Config, now: int, contacts: map<ContactId, Contact>, s: State, step: Step)
    : State
    requires step.PasswordLogin?
  {
    match Login(cfg, s.db, contacts, now, step.guard, step.raw, step.password, step.salt, step.session, step.token,
                step.binding)
    case Err(_) => s
    case Ok((db, _)) => SessionOpened(s.(db := db), now, step.session, step.token, Some(step.password))
  }

  function ApplyFinishAuth(now: int, s: State, request: RequestId): State
    requires request in s.auths
  {
    var f := s.auths[request];
    s.(db := s.db.(passwords := Rehash(s.db.passwords, now, f.user, f.expected, f.next, f.changedAt)),
       auths := s.auths - {request})
  }

  function ApplyFinishResolve(cfg: Config, s: State, request: RequestId): State
    requires request in s.resolves
  {
    var f := s.resolves[request];
    var sessions := ResolveTouch(cfg, s.db.sessions, f);
    s.(db := s.db.(sessions := sessions), resolves := s.resolves - {request},
       sessionLog := Resolved(s.sessionLog, f.session, f.readAt, sessions != s.db.sessions))
  }

  // The invariant.

  predicate UserOk(u: User) {
    Identifiers.IsUsername(u.username) && (u.state == Active <==> u.disabledAt == None)
  }

  ghost predicate UsersOk(users: map<UserId, User>, used: set<UserId>) {
    && users.Keys <= used
    && (forall u | u in users :: UserOk(users[u]))
    && (forall u, v | u in users && v in users && users[u].username == users[v].username :: u == v)
  }

  predicate IsAccepted(hasher: Hasher, hash: PasswordHash) {
    hasher.Verify(hash, hash.secret)
  }

  /** The abstract credential table: the one value each stored hash accepts, if it
      accepts any. */
  function Secrets(hasher: Hasher, passwords: map<UserId, Credential>): map<UserId, string> {
    map u | u in passwords && IsAccepted(hasher, passwords[u].hash) :: passwords[u].hash.secret
  }

  /** A pending rehash keeps the value that is accepted and cures the staleness. */
  predicate AuthOk(hasher: Hasher, f: AuthFlight) {
    && f.next.secret == f.expected.secret && IsAccepted(hasher, f.expected) && IsAccepted(hasher, f.next)
    && hasher.NeedsRehash(f.expected) && !hasher.NeedsRehash(f.next)
  }

  ghost predicate AuthsOk(hasher: Hasher, auths: map<RequestId, AuthFlight>) {
    forall request | request in auths :: AuthOk(hasher, auths[request])
  }

  /** `k` steps of length `d`. */
  function Times(k: nat, d: int): int {
    if k == 0 then 0 else Times(k - 1, d) + d
  }

  /** What holds of every session row. */
  predicate RowOk(cfg: Config, now: int, users: set<UserId>, log: SessionLog, id: SessionId, s: Session) {
    && s.user in users
    && id in log.openedBy && id in log.touched && id in log.settled && s.token in log.tokens
    && s.expiresAt == s.createdAt + cfg.ttl
    && s.createdAt <= s.lastSeenAt <= now
    && Times(log.touched[id], cfg.touch) < cfg.ttl
  }

  /** What holds besides while the session is not revoked. */
  predicate LiveOk(
    cfg: Config, users: map<UserId, User>, secrets: map<UserId, string>, log: SessionLog, id: SessionId, s: Session)
  {
    && s.user in users && users[s.user].IsActive()
    && id in log.openedBy && id in log.touched && id in log.settled
    && (log.openedBy[id].Some? ==> s.user in secrets && secrets[s.user] == log.openedBy[id].value)
    && s.createdAt + Times(log.touched[id], cfg.touch) <= s.lastSeenAt < s.expiresAt
    && s.lastSeenAt <= log.settled[id] < s.lastSeenAt + cfg.touch
    && (0 < cfg.idle <= cfg.touch ==> s.lastSeenAt == s.createdAt)
  }

  ghost predicate SessionsOk(
    cfg: Config, now: int, users: map<UserId, User>, secrets: map<UserId, string>, ss: map<SessionId, Session>,
    log: SessionLog)
  {
    && (forall id | id in ss :: RowOk(cfg, now, users.Keys, log, id, ss[id]))
    && (forall id | id in ss && ss[id].revokedAt == None :: LiveOk(cfg, users, secrets, log, id, ss[id]))
    && (forall a, b | a in ss && b in ss && ss[a].token == ss[b].token :: a == b)
  }

  /** A resolution in flight remembers a row that has not moved backwards. */
  predicate ResolveOk(cfg: Config, now: int, ss: map<SessionId, Session>, log: SessionLog, f: ResolveFlight) {
    && f.session in log.openedBy && f.session in log.touched && f.session in log.settled
    && f.seenAt <= f.readAt <= now && f.readAt < f.expiresAt
    && (cfg.idle > 0 ==> f.readAt - f.seenAt < cfg.idle)
    && (f.session in ss ==>
          && ss[f.session].user == f.user && ss[f.session].createdAt == f.createdAt
          && ss[f.session].expiresAt == f.expiresAt && f.seenAt <= ss[f.session].lastSeenAt)
  }

  ghost predicate ResolvesOk(
    cfg: Config, now: int, ss: map<SessionId, Session>, log: SessionLog, resolves: map<RequestId, ResolveFlight>)
  {
    forall request | request in resolves :: ResolveOk(cfg, now, ss, log, resolves[request])
  }

  ghost predicate EventsOk(users: set<UserId>, opens: set<SessionId>, events: EventLog) {
    && events.created == events.deleted + multiset(users)
    && events.announced == multiset(opens)
  }

  ghost predicate Inv(cfg: Config, now: int, s: State) {
    && UsersOk(s.db.users, s.usedUsers)
    && s.db.passwords.Keys <= s.db.users.Keys
    && AuthsOk(cfg.hasher, s.auths)
    && SessionsOk(cfg, now, s.db.users, Secrets(cfg.hasher, s.db.passwords), s.db.sessions, s.sessionLog)
    && ResolvesOk(cfg, now, s.db.sessions, s.sessionLog, s.resolves)
    && EventsOk(s.db.users.Keys, s.sessionLog.openedBy.Keys, s.events)
  }

  // What one step may do to a session row.

  predicate RowEvolves(s: Session, s': Session) {
    && s'.user == s.user && s'.token == s.token && s'.createdAt == s.createdAt && s'.expiresAt == s.expiresAt
    && s.lastSeenAt <= s'.lastSeenAt
    && (s.revokedAt.Some? ==> s'.revokedAt.Some?)
  }

  ghost predicate TableEvolves(used: set<SessionId>, ss: map<SessionId, Session>, ss': map<SessionId, Session>) {
    && (forall id | id in ss && id in ss' :: RowEvolves(ss[id], ss'[id]))
    && forall id | id in ss' && id !in ss :: id !in used && ss'[id].revokedAt == None
  }

  // Preservation: sessions, one kind of write at a time.  A row's obligations are
  // its own, so each lemma is about one row.

  /** Rows keep their obligations when users and secrets change without touching
      what the row relies on. */
  lemma RowsCarryOver(
    cfg: Config, now: int, now': int, users: map<UserId, User>, users': map<UserId, User>,
    secrets: map<UserId, string>, secrets': map<UserId, string>, ss: map<SessionId, Session>,
    ss': map<SessionId, Session>, log: SessionLog)
    requires SessionsOk(cfg, now, users, secrets, ss, log) && now <= now'
    requires ss'.Keys <= ss.Keys
    requires forall id | id in ss' :: ss'[id].user in users'
    requires forall id | id in ss' :: ss'[id] == ss[id] || ss'[id] == ss[id].(revokedAt := ss'[id].revokedAt)
    requires forall id | id in ss' && ss'[id].revokedAt == None ::
               && ss[id].revokedAt == None && users'[ss[id].user].IsActive()
               && (ss[id].user in secrets ==> ss[id].user in secrets' && secrets'[ss[id].user] == secrets[ss[id].user])
    ensures SessionsOk(cfg, now', users', secrets', ss', log)
  {
    forall id | id in ss'
      ensures RowOk(cfg, now', users'.Keys, log, id, ss'[id])
      ensures ss'[id].revokedAt == None ==> LiveOk(cfg, users', secrets', log, id, ss'[id])
    {
      assert RowOk(cfg, now, users.Keys, log, id, ss[id]);
    }
  }

  lemma InsertRow(
    cfg: Config, now: int, users: map<UserId, User>, secrets: map<UserId, string>, s: State, user: UserId,
    id: SessionId, token: string, password: Option<string>)
    requires cfg.Valid()
    requires SessionsOk(cfg, now, users, secrets, s.db.sessions, s.sessionLog)
    requires user in users && users[user].IsActive()
    requires password.Some? ==> user in secrets && secrets[user] == password.value
    requires id !in s.sessionLog.openedBy && token !in s.sessionLog.tokens
    ensures SessionsOk(cfg, now, users, secrets,
                       s.db.sessions[id := Session(user, token, now, now + cfg.ttl, now, None)],
                       SessionOpened(s, now, id, token, password).sessionLog)
  {
    var ss := s.db.sessions;
    var ss' := ss[id := Session(user, token, now, now + cfg.ttl, now, None)];
    var log, log' := s.sessionLog, SessionOpened(s, now, id, token, password).sessionLog;
    forall i | i in ss && i != id
      ensures RowOk(cfg, now, users.Keys, log', i, ss'[i]) && ss[i].token in log.tokens
      ensures ss[i].revokedAt == None ==> LiveOk(cfg, users, secrets, log', i, ss'[i])
    {
      assert RowOk(cfg, now, users.Keys, log, i, ss[i]);
    }
    assert RowOk(cfg, now, users.Keys, log', id, ss'[id]);
    assert LiveOk(cfg, users, secrets, log', id, ss'[id]);
  }

  lemma RevokeRowKeeps(
    cfg: Config, now: int, users: map<UserId, User>, secrets: map<UserId, string>, ss: map<SessionId, Session>,
    log: SessionLog, id: SessionId)
    requires SessionsOk(cfg, now, users, secrets, ss, log)
    requires RevokeRow(ss, id, now).Ok?
    ensures SessionsOk(cfg, now, users, secrets, RevokeRow(ss, id, now).value, log)
  {
    var ss' := RevokeRow(ss, id, now).value;
    forall i | i in ss'
      ensures RowOk(cfg, now, users.Keys, log, i, ss'[i])
    {
      assert RowOk(cfg, now, users.Keys, log, i, ss[i]);
    }
  }

  /** The two writes of a finished resolution: a guarded touch, and its log entry. */
  lemma ResolvedRow(
    cfg: Config, now: int, users: map<UserId, User>, secrets: map<UserId, string>, log: SessionLog, f: ResolveFlight,
    s: Session, s': Session)
    requires cfg.Valid()
    requires RowOk(cfg, now, users.Keys, log, f.session, s)
    requires s.revokedAt == None ==> LiveOk(cfg, users, secrets, log, f.session, s)
    requires f.seenAt <= f.readAt <= now && f.readAt < f.expiresAt == s.expiresAt && f.seenAt <= s.lastSeenAt
    requires cfg.idle > 0 ==> f.readAt - f.seenAt < cfg.idle
    requires s' == if f.readAt - f.seenAt >= cfg.touch && s.lastSeenAt <= f.readAt - cfg.touch && s.revokedAt == None
                   then s.(lastSeenAt := f.readAt) else s
    ensures RowOk(cfg, now, users.Keys, Resolved(log, f.session, f.readAt, s' != s), f.session, s')
    ensures s'.revokedAt == None ==>
              LiveOk(cfg, users, secrets, Resolved(log, f.session, f.readAt, s' != s), f.session, s')
  {
    assert Times(log.touched[f.session] + 1, cfg.touch) == Times(log.touched[f.session], cfg.touch) + cfg.touch;
  }

  lemma ResolvedKeeps(
    cfg: Config, now: int, users: map<UserId, User>, secrets: map<UserId, string>, ss: map<SessionId, Session>,
    log: SessionLog, f: ResolveFlight)
    requires cfg.Valid()
    requires SessionsOk(cfg, now, users, secrets, ss, log) && ResolveOk(cfg, now, ss, log, f)
    ensures var ss' := ResolveTouch(cfg, ss, f);
            SessionsOk(cfg, now, users, secrets, ss', Resolved(log, f.session, f.readAt, ss' != ss))
  {
    var ss' := ResolveTouch(cfg, ss, f);
    var log' := Resolved(log, f.session, f.readAt, ss' != ss);
    if f.session in ss {
      ResolvedRow(cfg, now, users, secrets, log, f, ss[f.session], ss'[f.session]);
      assert ss' != ss <==> ss'[f.session] != ss[f.session];
    }
    forall i | i in ss' && i != f.session
      ensures RowOk(cfg, now, users.Keys, log', i, ss'[i])
      ensures ss'[i].revokedAt == None ==> LiveOk(cfg, users, secrets, log', i, ss'[i])
    {
      assert RowOk(cfg, now, users.Keys, log, i, ss[i]);
    }
  }

  // Preservation: resolutions in flight.

  lemma FlightsCarryOver(
    cfg: Config, now: int, now': int, ss: map<SessionId, Session>, ss': map<SessionId, Session>, log: SessionLog,
    log': SessionLog, resolves: map<RequestId, ResolveFlight>)
    requires ResolvesOk(cfg, now, ss, log, resolves) && now <= now'
    requires TableEvolves(log.openedBy.Keys, ss, ss')
    requires log.openedBy.Keys <= log'.openedBy.Keys && log.touched.Keys <= log'.touched.Keys
    requires log.settled.Keys <= log'.settled.Keys
    ensures ResolvesOk(cfg, now', ss', log', resolves)
  {
    forall request | request in resolves
      ensures ResolveOk(cfg, now', ss', log', resolves[request])
    {
      assert ResolveOk(cfg, now, ss, log, resolves[request]);
      var id := resolves[request].session;
      assert id in ss && id in ss' ==> RowEvolves(ss[id], ss'[id]);
    }
  }

  // Preservation: passwords.

  /** A rehash that finds its hash keeps the value. */
  lemma RehashKeepsSecrets(hasher: Hasher, passwords: map<UserId, Credential>, now: int, f: AuthFlight)
    requires AuthOk(hasher, f)
    ensures Secrets(hasher, Rehash(passwords, now, f.user, f.expected, f.next, f.changedAt))
         == Secrets(hasher, passwords)
  {}

  // Preservation: users and events.

  lemma CreateUserKeeps(
    users: map<UserId, User>, used: set<UserId>, now: int, id: UserId, raw: string, state: UserState)
    requires UsersOk(users, used) && CreateUser(users, now, id, raw, state).Ok?
    ensures UsersOk(CreateUser(users, now, id, raw, state).value, used + {id})
  {
    var users' := CreateUser(users, now, id, raw, state).value;
    Identifiers.NormalizedUsername(raw);
    hide Identifiers.Username, Identifiers.IsUsername;
    forall u | u in users'
      ensures UserOk(users'[u])
    {
      assert u != id ==> UserOk(users[u]);
    }
  }

  lemma CreatedEvent(users: set<UserId>, used: set<UserId>, opens: set<SessionId>, s: State, id: UserId)
    requires EventsOk(users, opens, s.events) && id !in users
    ensures EventsOk(users + {id}, opens, UserCreated(s, id).events)
  {
    assert multiset(users + {id}) == multiset(users) + multiset{id};
  }

  lemma OpenedEvent(users: set<UserId>, s: State, now: int, id: SessionId, token: string, password: Option<string>)
    requires EventsOk(users, s.sessionLog.openedBy.Keys, s.events) && id !in s.sessionLog.openedBy
    ensures var s' := SessionOpened(s, now, id, token, password);
            EventsOk(users, s'.sessionLog.openedBy.Keys, s'.events)
  {
    var opens := s.sessionLog.openedBy.Keys;
    assert s.sessionLog.openedBy[id := password].Keys == opens + {id};
    assert multiset(opens + {id}) == multiset(opens) + multiset{id};
  }

  lemma DeletedEvents(users: set<UserId>, opens: set<SessionId>, events: EventLog, gone: set<UserId>)
    requires EventsOk(users, opens, events) && gone <= users
    ensures EventsOk(users - gone, opens, events.(deleted := events.deleted + multiset(gone)))
  {
    assert multiset(users) == multiset(users - gone) + multiset(gone);
  }

  /** User rows change without renaming anybody. */
  lemma SameNames(users: map<UserId, User>, users': map<UserId, User>, used: set<UserId>)
    requires UsersOk(users, used) && users'.Keys == users.Keys
    requires forall u | u in users :: users'[u].username == users[u].username && UserOk(users'[u])
    ensures UsersOk(users', used)
  {}

  // Preservation: the shapes the steps need.

  /** A new user owns no session yet, whatever its password. */
  lemma NewUserKeeps(
    cfg: Config, now: int, users: map<UserId, User>, users': map<UserId, User>, secrets: map<UserId, string>,
    secrets': map<UserId, string>, ss: map<SessionId, Session>, log: SessionLog, id: UserId)
    requires SessionsOk(cfg, now, users, secrets, ss, log)
    requires id !in users && users.Keys <= users'.Keys
    requires forall u | u in users :: users'[u] == users[u]
    requires forall u | u in secrets && u != id :: u in secrets' && secrets'[u] == secrets[u]
    ensures SessionsOk(cfg, now, users', secrets', ss, log)
  {
    RowsCarryOver(cfg, now, now, users, users', secrets, secrets', ss, ss, log);
  }

  /** Active users stay active. */
  lemma StillActiveKeeps(
    cfg: Config, now: int, users: map<UserId, User>, users': map<UserId, User>, secrets: map<UserId, string>,
    ss: map<SessionId, Session>, log: SessionLog)
    requires SessionsOk(cfg, now, users, secrets, ss, log)
    requires users'.Keys == users.Keys
    requires forall u | u in users && users[u].IsActive() :: users'[u].IsActive()
    ensures SessionsOk(cfg, now, users', secrets, ss, log)
  {
    RowsCarryOver(cfg, now, now, users, users', secrets, secrets, ss, ss, log);
  }

  /** Revoking everything the users in `ids` have open frees their state and their
      password to change. */
  lemma RevokedUsersKeeps(
    cfg: Config, now: int, users: map<UserId, User>, users': map<UserId, User>, secrets: map<UserId, string>,
    secrets': map<UserId, string>, ss: map<SessionId, Session>, log: SessionLog, ids: set<UserId>)
    requires SessionsOk(cfg, now, users, secrets, ss, log)
    requires users'.Keys == users.Keys
    requires forall u | u in users && u !in ids :: users'[u] == users[u]
    requires forall u | u in secrets && u !in ids :: u in secrets' && secrets'[u] == secrets[u]
    ensures SessionsOk(cfg, now, users', secrets', RevokeUsers(ss, ids, now), log)
    ensures TableEvolves(log.openedBy.Keys, ss, RevokeUsers(ss, ids, now))
  {
    var ss' := RevokeUsers(ss, ids, now);
    assert forall id | id in ss' && ss'[id].revokedAt == None :: ss[id].user !in ids;
    RowsCarryOver(cfg, now, now, users, users', secrets, secrets', ss, ss', log);
  }

  /** Rows disappear with their users, or once expired. */
  lemma DroppedKeeps(
    cfg: Config, now: int, users: map<UserId, User>, gone: set<UserId>, secrets: map<UserId, string>,
    ss: map<SessionId, Session>, log: SessionLog)
    requires SessionsOk(cfg, now, users, secrets, ss, log)
    ensures SessionsOk(cfg, now, users, secrets, WithoutExpired(ss, now), log)
    ensures TableEvolves(log.openedBy.Keys, ss, WithoutExpired(ss, now))
    ensures var ss' := map id | id in ss && ss[id].user !in gone :: ss[id];
            && SessionsOk(cfg, now, users - gone, secrets - gone, ss', log)
            && TableEvolves(log.openedBy.Keys, ss, ss')
  {
    var ss' := map id | id in ss && ss[id].user !in gone :: ss[id];
    RowsCarryOver(cfg, now, now, users, users, secrets, secrets, ss, WithoutExpired(ss, now), log);
    RowsCarryOver(cfg, now, now, users, users - gone, secrets, secrets - gone, ss, ss', log);
  }

  lemma RevokeRowEvolves(
    cfg: Config, now: int, users: map<UserId, User>, secrets: map<UserId, string>, ss: map<SessionId, Session>,
    log: SessionLog, id: SessionId)
    requires SessionsOk(cfg, now, users, secrets, ss, log)
    requires RevokeRow(ss, id, now).Ok?
    ensures TableEvolves(log.openedBy.Keys, ss, RevokeRow(ss, id, now).value)
  {
    assert RowOk(cfg, now, users.Keys, log, id, ss[id]);
  }

  lemma TouchEvolves(
    cfg: Config, now: int, ss: map<SessionId, Session>, log: SessionLog, f: ResolveFlight)
    requires cfg.Valid()
    ensures TableEvolves(log.openedBy.Keys, ss, ResolveTouch(cfg, ss, f))
  {}

  lemma InsertEvolves(
    cfg: Config, now: int, s: State, id: SessionId, row: Session)
    requires id !in s.sessionLog.openedBy && row.revokedAt == None
    requires SessionsOk(cfg, now, s.db.users, Secrets(cfg.hasher, s.db.passwords), s.db.sessions, s.sessionLog)
    ensures TableEvolves(s.sessionLog.openedBy.Keys, s.db.sessions, s.db.sessions[id := row])
  {
    assert id in s.db.sessions ==> RowOk(cfg, now, s.db.users.Keys, s.sessionLog, id, s.db.sessions[id]);
  }

  lemma MarkLoginKeeps(
    cfg: Config, now: int, users: map<UserId, User>, used: set<UserId>, secrets: map<UserId, string>,
    ss: map<SessionId, Session>, log: SessionLog, id: UserId)
    requires UsersOk(users, used) && SessionsOk(cfg, now, users, secrets, ss, log)
    requires MarkLogin(users, now, id).Ok?
    ensures var users' := MarkLogin(users, now, id).value;
            users'.Keys == users.Keys && UsersOk(users', used) && SessionsOk(cfg, now, users', secrets, ss, log)
  {
    var users' := MarkLogin(users, now, id).value;
    SameNames(users, users', used);
    StillActiveKeeps(cfg, now, users, users', secrets, ss, log);
  }

  // Preservation: the steps.

  lemma OpenSessionKeeps(
    cfg: Config, now: int, s: State, user: UserId, id: SessionId, token: string, binding: Result<()>,
    password: Option<string>)
    requires cfg.Valid() && Inv(cfg, now, s)
    requires OpenSession(cfg, s.db, now, user, id, token, binding).Ok?
    requires password.Some? ==>
               && user in Secrets(cfg.hasher, s.db.passwords)
               && Secrets(cfg.hasher, s.db.passwords)[user] == password.value
    requires id !in s.sessionLog.openedBy && token !in s.sessionLog.tokens
    ensures var s' := SessionOpened(s.(db := OpenSession(cfg, s.db, now, user, id, token, binding).value), now, id,
                                    token, password);
            Inv(cfg, now, s') && TableEvolves(s.sessionLog.openedBy.Keys, s.db.sessions, s'.db.sessions)
  {
    hide SessionsOk, ResolvesOk, UsersOk, AuthsOk, EventsOk, TableEvolves;
    var row := Session(user, token, now, now + cfg.ttl, now, None);
    var db := OpenSession(cfg, s.db, now, user, id, token, binding).value;
    var s' := SessionOpened(s.(db := db), now, id, token, password);
    InsertRow(cfg, now, s.db.users, Secrets(cfg.hasher, s.db.passwords), s, user, id, token, password);
    InsertEvolves(cfg, now, s, id, row);
    OpenedEvent(s.db.users.Keys, s, now, id, token, password);
    assert db.sessions == s.db.sessions[id := row];
    MarkLoginKeeps(cfg, now, s.db.users, s.usedUsers, Secrets(cfg.hasher, s.db.passwords), db.sessions, s'.sessionLog,
                   user);
    FlightsCarryOver(cfg, now, now, s.db.sessions, db.sessions, s.sessionLog, s'.sessionLog, s.resolves);
  }

  lemma CreateKeeps(cfg: Config, now: int, s: State, id: UserId, raw: string, state: UserState)
    requires Inv(cfg, now, s) && id !in s.usedUsers
    requires CreateUser(s.db.users, now, id, raw, state).Ok?
    ensures Inv(cfg, now, UserCreated(s.(db := s.db.(users := CreateUser(s.db.users, now, id, raw, state).value)), id))
  {
    hide SessionsOk, ResolvesOk, AuthsOk, EventsOk;
    var users := s.db.users;
    var users' := CreateUser(users, now, id, raw, state).value;
    CreateUserKeeps(users, s.usedUsers, now, id, raw, state);
    hide UsersOk, Identifiers.Username;
    var secrets := Secrets(cfg.hasher, s.db.passwords);
    NewUserKeeps(cfg, now, users, users', secrets, secrets, s.db.sessions, s.sessionLog, id);
    CreatedEvent(users.Keys, s.usedUsers, s.sessionLog.openedBy.Keys, s, id);
    assert users'.Keys == users.Keys + {id};
  }

  /** A password set for a user none of whose sessions is live. */
  lemma FirstPasswordKeeps(
    cfg: Config, now: int, s: State, users0: map<UserId, User>, id: UserId, value: string, salt: Encoding.Bytes)
    requires cfg.Valid()
    requires Inv(cfg, now, s) && id in s.db.users
    requires SessionsOk(cfg, now, users0, Secrets(cfg.hasher, s.db.passwords), s.db.sessions, s.sessionLog)
    requires id !in users0 && users0.Keys <= s.db.users.Keys
    requires forall u | u in users0 :: s.db.users[u] == users0[u]
    ensures Inv(cfg, now, s.(db := SetHash(s.db, now, id, cfg.hasher.Hash(value, salt)).value))
  {
    hide SessionsOk, ResolvesOk, UsersOk, AuthsOk, EventsOk;
    var db := SetHash(s.db, now, id, cfg.hasher.Hash(value, salt)).value;
    NewUserKeeps(cfg, now, users0, s.db.users, Secrets(cfg.hasher, s.db.passwords), Secrets(cfg.hasher, db.passwords),
                 s.db.sessions, s.sessionLog, id);
  }

  /** The account a registration or a provisioning leaves. */
  lemma NewAccountKeeps(
    cfg: Config, now: int, s: State, id: UserId, raw: string, state: UserState, value: string, salt: Encoding.Bytes)
    requires cfg.Valid()
    requires Inv(cfg, now, s) && id !in s.usedUsers
    requires CreateUser(s.db.users, now, id, raw, state).Ok?
    ensures var users := CreateUser(s.db.users, now, id, raw, state).value;
            var db := SetHash(s.db.(users := users), now, id, cfg.hasher.Hash(value, salt));
            && users.Keys == s.db.users.Keys + {id}
            && db.Ok? && db.value.sessions == s.db.sessions && db.value.users == users
            && Inv(cfg, now, UserCreated(s.(db := db.value), id))
  {
    hide SessionsOk, ResolvesOk, AuthsOk, EventsOk;
    CreateKeeps(cfg, now, s, id, raw, state);
    var users := CreateUser(s.db.users, now, id, raw, state).value;
    var s1 := UserCreated(s.(db := s.db.(users := users)), id);
    assert id !in s.db.users;
    var secrets := Secrets(cfg.hasher, s.db.passwords);
    NewUserKeeps(cfg, now, s.db.users, s.db.users, secrets, secrets, s.db.sessions, s.sessionLog, id);
    FirstPasswordKeeps(cfg, now, s1, s.db.users, id, value, salt);
  }

  lemma RegisterKeeps(
    cfg: Config, now: int, s: State, r: Rbac.Db, id: UserId, raw: string, state: UserState, policy: Result<()>,
    value: string, salt: Encoding.Bytes)
    requires cfg.Valid()
    requires Inv(cfg, now, s) && Rbac.Inv(s.db.users.Keys, r) && id !in s.usedUsers
    requires Register(cfg, s.db, r, now, id, raw, state, policy, cfg.hasher.Hash(value, salt)).Ok?
    ensures var (db, r1) := Register(cfg, s.db, r, now, id, raw, state, policy, cfg.hasher.Hash(value, salt)).value;
            && db.sessions == s.db.sessions && Rbac.Inv(db.users.Keys, r1) && s.db.users.Keys <= db.users.Keys
            && id in db.passwords && db.passwords[id].hash == cfg.hasher.Hash(value, salt)
            && Inv(cfg, now, UserCreated(s.(db := db), id))
  {
    hide Inv, Rbac.Inv, CreateUser, Rbac.SetUserRoles;
    NewAccountKeeps(cfg, now, s, id, raw, state, value, salt);
    var users := CreateUser(s.db.users, now, id, raw, state).value;
    Rbac.MoreUsersKeeps(s.db.users.Keys, users.Keys, r);
    Rbac.LinkKeeps(users.Keys, r, id, cfg.defaultRoles);
  }

  lemma ProvisionKeeps(
    cfg: Config, now: int, s: State, r: Rbac.Db, id: UserId, raw: string, state: UserState, policy: Result<()>,
    value: string, salt: Encoding.Bytes, codes: seq<string>)
    requires cfg.Valid()
    requires Inv(cfg, now, s) && Rbac.Inv(s.db.users.Keys, r) && id !in s.usedUsers
    requires Provision(s.db, r, now, id, raw, state, policy, cfg.hasher.Hash(value, salt), codes).Ok?
    ensures var (db, r1) := Provision(s.db, r, now, id, raw, state, policy, cfg.hasher.Hash(value, salt), codes).value;
            && db.sessions == s.db.sessions && Rbac.Inv(db.users.Keys, r1) && s.db.users.Keys <= db.users.Keys
            && id in db.passwords && db.passwords[id].hash == cfg.hasher.Hash(value, salt)
            && Inv(cfg, now, UserCreated(s.(db := db), id))
  {
    hide Inv, Rbac.Inv, CreateUser, Rbac.SetUserRoles, Rbac.Resolve, Rbac.Code;
    NewAccountKeeps(cfg, now, s, id, raw, state, value, salt);
    var users := CreateUser(s.db.users, now, id, raw, state).value;
    Rbac.MoreUsersKeeps(s.db.users.Keys, users.Keys, r);
    Rbac.LinkKeeps(users.Keys, r, id, codes);
  }

  lemma RegisterWithLoginKeeps(
    cfg: Config, now: int, s: State, r: Rbac.Db, id: UserId, raw: string, state: UserState, policy: Result<()>,
    value: string, salt: Encoding.Bytes, session: SessionId, token: string, binding: Result<()>)
    requires cfg.Valid()
    requires Inv(cfg, now, s) && Rbac.Inv(s.db.users.Keys, r) && id !in s.usedUsers
    requires session !in s.sessionLog.openedBy && token !in s.sessionLog.tokens
    requires RegisterAndLogin(cfg, s.db, r, now, id, raw, state, policy, cfg.hasher.Hash(value, salt), session, token,
                              binding).Ok?
    ensures var (db, r1) := RegisterAndLogin(cfg, s.db, r, now, id, raw, state, policy, cfg.hasher.Hash(value, salt),
                                             session, token, binding).value;
            var s' := SessionOpened(UserCreated(s.(db := db), id), now, session, token, Some(value));
            && Inv(cfg, now, s') && Rbac.Inv(s'.db.users.Keys, r1) && s.db.users.Keys <= s'.db.users.Keys
            && TableEvolves(s.sessionLog.openedBy.Keys, s.db.sessions, s'.db.sessions)
  {
    hide Inv, Rbac.Inv, Register, OpenSession, TableEvolves;
    RegisterKeeps(cfg, now, s, r, id, raw, state, policy, value, salt);
    var (db1, r1) := Register(cfg, s.db, r, now, id, raw, state, policy, cfg.hasher.Hash(value, salt)).value;
    var s1 := UserCreated(s.(db := db1), id);
    OpenSessionKeeps(cfg, now, s1, id, session, token, binding, Some(value));
    OpenSessionUsers(cfg, db1, now, id, session, token, binding);
  }

  lemma OpenSessionUsers(
    cfg: Config, a: Db, now: int, user: UserId, id: SessionId, token: string, binding: Result<()>)
    requires OpenSession(cfg, a, now, user, id, token, binding).Ok?
    ensures OpenSession(cfg, a, now, user, id, token, binding).value.users.Keys == a.users.Keys
    ensures OpenSession(cfg, a, now, user, id, token, binding).value.passwords == a.passwords
  {}

  /** Checking a password inside a transaction may upgrade its hash. */
  lemma AuthenticateKeeps(cfg: Config, now: int, s: State, user: UserId, value: string, salt: Encoding.Bytes)
    requires cfg.Valid()
    requires Inv(cfg, now, s)
    requires AuthenticateUser(cfg.hasher, s.db, now, user, value, salt).Ok?
    ensures var db := AuthenticateUser(cfg.hasher, s.db, now, user, value, salt).value;
            && user in s.db.passwords
            && Secrets(cfg.hasher, db.passwords) == Secrets(cfg.hasher, s.db.passwords)[user := value]
            && db.users == s.db.users && db.sessions == s.db.sessions
            && Inv(cfg, now, s.(db := db))
  {
    hide SessionsOk, ResolvesOk, UsersOk, AuthsOk, EventsOk;
    var hash := s.db.passwords[user].hash;
    if cfg.hasher.NeedsRehash(hash) {
      RehashKeepsSecrets(cfg.hasher, s.db.passwords, now,
                         AuthFlight(user, hash, cfg.hasher.Hash(value, salt), s.db.passwords[user].changedAt));
    }
  }

  lemma LoginKeeps(cfg: Config, now: int, contacts: map<ContactId, Contact>, s: State, step: Step)
    requires cfg.Valid() && Inv(cfg, now, s) && step.PasswordLogin? && Enabled(s, step)
    ensures var s' := ApplyLogin(cfg, now, contacts, s, step);
            && Inv(cfg, now, s') && s'.db.users.Keys == s.db.users.Keys
            && TableEvolves(s.sessionLog.openedBy.Keys, s.db.sessions, s'.db.sessions)
  {
    hide Inv, Identify, OpenSession, TableEvolves, AuthenticateUser, Hasher.NeedsRehash;
    var result := Login(cfg, s.db, contacts, now, step.guard, step.raw, step.password, step.salt, step.session,
                        step.token, step.binding);
    if result.Ok? {
      var user := result.value.1;
      AuthenticateKeeps(cfg, now, s, user, step.password, step.salt);
      var db1 := AuthenticateUser(cfg.hasher, s.db, now, user, step.password, step.salt).value;
      var s1 := s.(db := db1);
      OpenSessionKeeps(cfg, now, s1, user, step.session, step.token, step.binding, Some(step.password));
      OpenSessionUsers(cfg, db1, now, user, step.session, step.token, step.binding);
    } else {
      NothingEvolves(s.sessionLog.openedBy.Keys, s.db.sessions);
    }
  }

  lemma NothingEvolves(used: set<SessionId>, ss: map<SessionId, Session>)
    ensures TableEvolves(used, ss, ss)
  {}

  /** Replacing a password revokes everything opened before. */
  lemma ReplacePasswordKeeps(
    cfg: Config, now: int, s: State, id: UserId, policy: Result<()>, value: string, salt: Encoding.Bytes)
    requires cfg.Valid() && Inv(cfg, now, s)
    requires ReplacePassword(s.db, now, id, policy, cfg.hasher.Hash(value, salt)).Ok?
    ensures var s' := s.(db := ReplacePassword(s.db, now, id, policy, cfg.hasher.Hash(value, salt)).value);
            && Inv(cfg, now, s') && s'.db.users == s.db.users
            && TableEvolves(s.sessionLog.openedBy.Keys, s.db.sessions, s'.db.sessions)
  {
    hide SessionsOk, ResolvesOk, UsersOk, AuthsOk, EventsOk, TableEvolves;
    var db := ReplacePassword(s.db, now, id, policy, cfg.hasher.Hash(value, salt)).value;
    RevokedUsersKeeps(cfg, now, s.db.users, s.db.users, Secrets(cfg.hasher, s.db.passwords),
                      Secrets(cfg.hasher, db.passwords), s.db.sessions, s.sessionLog, {id});
    FlightsCarryOver(cfg, now, now, s.db.sessions, db.sessions, s.sessionLog, s.sessionLog, s.resolves);
  }

  lemma ChangeKeeps(
    cfg: Config, now: int, s: State, id: UserId, value: string, salt: Encoding.Bytes, policy: Result<()>,
    next: string, nextSalt: Encoding.Bytes)
    requires cfg.Valid() && Inv(cfg, now, s)
    requires ChangePassword(cfg.hasher, s.db, now, id, value, salt, policy, cfg.hasher.Hash(next, nextSalt)).Ok?
    ensures var hash := cfg.hasher.Hash(next, nextSalt);
            var db := ChangePassword(cfg.hasher, s.db, now, id, value, salt, policy, hash).value;
            var s' := s.(db := db);
            && Inv(cfg, now, s') && s'.db.users == s.db.users
            && TableEvolves(s.sessionLog.openedBy.Keys, s.db.sessions, s'.db.sessions)
  {
    hide Inv, TableEvolves, AuthenticateUser, ReplacePassword, Hasher.NeedsRehash;
    AuthenticateKeeps(cfg, now, s, id, value, salt);
    var db1 := AuthenticateUser(cfg.hasher, s.db, now, id, value, salt).value;
    var s1 := s.(db := db1);
    ReplacePasswordKeeps(cfg, now, s1, id, policy, next, nextSalt);
  }

  lemma FinishAuthKeeps(cfg: Config, now: int, s: State, request: RequestId)
    requires Inv(cfg, now, s) && request in s.auths
    ensures Inv(cfg, now, ApplyFinishAuth(now, s, request))
  {
    hide SessionsOk, ResolvesOk, UsersOk, EventsOk;
    var f := s.auths[request];
    assert AuthOk(cfg.hasher, f);
    RehashKeepsSecrets(cfg.hasher, s.db.passwords, now, f);
    assert AuthsOk(cfg.hasher, s.auths - {request});
  }

  lemma BeginAuthKeeps(
    cfg: Config, now: int, contacts: map<ContactId, Contact>, s: State, request: RequestId, raw: string,
    value: string, salt: Encoding.Bytes, flight: AuthFlight)
    requires cfg.Valid()
    requires Inv(cfg, now, s)
    requires AuthBegin(cfg.hasher, s.db, contacts, raw, value, salt) == Ok(Some(flight))
    ensures Inv(cfg, now, s.(auths := s.auths[request := flight]))
  {
    hide SessionsOk, ResolvesOk, UsersOk, EventsOk, Lookup, Identifiers.NormalizeLoginIdentifier;
    assert AuthOk(cfg.hasher, flight);
    assert forall q | q in s.auths :: AuthOk(cfg.hasher, s.auths[q]);
  }

  lemma BeginResolveKeeps(
    cfg: Config, now: int, s: State, request: RequestId, token: string, binding: Result<()>, flight: ResolveFlight)
    requires Inv(cfg, now, s)
    requires ResolveBegin(cfg, s.db, now, token, binding) == Ok(flight)
    ensures Inv(cfg, now, s.(resolves := s.resolves[request := flight]))
  {
    hide UsersOk, EventsOk, AuthsOk;
    var ss := s.db.sessions;
    assert RowOk(cfg, now, s.db.users.Keys, s.sessionLog, flight.session, ss[flight.session]);
    assert ResolveOk(cfg, now, ss, s.sessionLog, flight);
    assert forall q | q in s.resolves :: ResolveOk(cfg, now, ss, s.sessionLog, s.resolves[q]);
  }

  lemma DropResolveKeeps(cfg: Config, now: int, s: State, request: RequestId)
    requires Inv(cfg, now, s)
    ensures Inv(cfg, now, s.(resolves := s.resolves - {request}))
  {
    hide SessionsOk, UsersOk, EventsOk, AuthsOk;
    assert forall q | q in s.resolves :: ResolveOk(cfg, now, s.db.sessions, s.sessionLog, s.resolves[q]);
  }

  lemma FinishResolveKeeps(cfg: Config, now: int, s: State, request: RequestId)
    requires cfg.Valid() && Inv(cfg, now, s) && request in s.resolves
    ensures var s' := ApplyFinishResolve(cfg, s, request);
            && Inv(cfg, now, s') && s'.db.users == s.db.users
            && TableEvolves(s.sessionLog.openedBy.Keys, s.db.sessions, s'.db.sessions)
  {
    var f := s.resolves[request];
    assert ResolveOk(cfg, now, s.db.sessions, s.sessionLog, f);
    hide SessionsOk, ResolvesOk, UsersOk, EventsOk, AuthsOk, TableEvolves, ResolveOk, ResolveTouch;
    var s' := ApplyFinishResolve(cfg, s, request);
    ResolvedKeeps(cfg, now, s.db.users, Secrets(cfg.hasher, s.db.passwords), s.db.sessions, s.sessionLog, f);
    TouchEvolves(cfg, now, s.db.sessions, s.sessionLog, f);
    FlightsCarryOver(cfg, now, now, s.db.sessions, s'.db.sessions, s.sessionLog, s'.sessionLog, s.resolves);
    DropResolveKeeps(cfg, now, s'.(resolves := s.resolves), request);
  }

  /** The steps that only rewrite or drop session rows. */
  lemma SessionRowsKeeps(cfg: Config, now: int, s: State, ss': map<SessionId, Session>)
    requires Inv(cfg, now, s)
    requires TableEvolves(s.sessionLog.openedBy.Keys, s.db.sessions, ss')
    requires SessionsOk(cfg, now, s.db.users, Secrets(cfg.hasher, s.db.passwords), ss', s.sessionLog)
    ensures Inv(cfg, now, s.(db := s.db.(sessions := ss')))
  {
    hide SessionsOk, ResolvesOk, UsersOk, EventsOk, AuthsOk, TableEvolves;
    FlightsCarryOver(cfg, now, now, s.db.sessions, ss', s.sessionLog, s.sessionLog, s.resolves);
  }

  lemma RevokeKeeps(cfg: Config, now: int, s: State, id: SessionId)
    requires Inv(cfg, now, s) && RevokeRow(s.db.sessions, id, now).Ok?
    ensures var s' := s.(db := s.db.(sessions := RevokeRow(s.db.sessions, id, now).value));
            Inv(cfg, now, s') && TableEvolves(s.sessionLog.openedBy.Keys, s.db.sessions, s'.db.sessions)
  {
    hide SessionsOk, ResolvesOk, UsersOk, EventsOk, AuthsOk, TableEvolves, RevokeRow;
    var secrets := Secrets(cfg.hasher, s.db.passwords);
    RevokeRowKeeps(cfg, now, s.db.users, secrets, s.db.sessions, s.sessionLog, id);
    RevokeRowEvolves(cfg, now, s.db.users, secrets, s.db.sessions, s.sessionLog, id);
    SessionRowsKeeps(cfg, now, s, RevokeRow(s.db.sessions, id, now).value);
  }

  lemma RevokeForUsersKeeps(cfg: Config, now: int, s: State, ids: set<UserId>)
    requires Inv(cfg, now, s)
    ensures var s' := s.(db := s.db.(sessions := RevokeUsers(s.db.sessions, ids, now)));
            Inv(cfg, now, s') && TableEvolves(s.sessionLog.openedBy.Keys, s.db.sessions, s'.db.sessions)
  {
    hide SessionsOk, ResolvesOk, UsersOk, EventsOk, AuthsOk, TableEvolves, RevokeUsers;
    var secrets := Secrets(cfg.hasher, s.db.passwords);
    RevokedUsersKeeps(cfg, now, s.db.users, s.db.users, secrets, secrets, s.db.sessions, s.sessionLog, ids);
    SessionRowsKeeps(cfg, now, s, RevokeUsers(s.db.sessions, ids, now));
  }

  lemma DeleteExpiredKeeps(cfg: Config, now: int, s: State)
    requires Inv(cfg, now, s)
    ensures var s' := s.(db := s.db.(sessions := WithoutExpired(s.db.sessions, now)));
            Inv(cfg, now, s') && TableEvolves(s.sessionLog.openedBy.Keys, s.db.sessions, s'.db.sessions)
  {
    hide SessionsOk, ResolvesOk, UsersOk, EventsOk, AuthsOk, TableEvolves, WithoutExpired;
    DroppedKeeps(cfg, now, s.db.users, {}, Secrets(cfg.hasher, s.db.passwords), s.db.sessions, s.sessionLog);
    SessionRowsKeeps(cfg, now, s, WithoutExpired(s.db.sessions, now));
  }

  lemma WithStateKeeps(
    cfg: Config, now: int, users: map<UserId, User>, used: set<UserId>, ids: set<UserId>, state: UserState,
    secrets: map<UserId, string>, ss: map<SessionId, Session>, log: SessionLog)
    requires UsersOk(users, used) && SessionsOk(cfg, now, users, secrets, ss, log)
    ensures var users' := WithState(users, now, ids, state);
            && users'.Keys == users.Keys && UsersOk(users', used)
            && (state == Active ==> SessionsOk(cfg, now, users', secrets, ss, log))
            && SessionsOk(cfg, now, users', secrets, RevokeUsers(ss, ids, now), log)
            && TableEvolves(log.openedBy.Keys, ss, RevokeUsers(ss, ids, now))
  {
    hide Identifiers.IsUsername;
    var users' := WithState(users, now, ids, state);
    assert forall u | u in users :: UserOk(users[u]);
    SameNames(users, users', used);
    if state == Active {
      StillActiveKeeps(cfg, now, users, users', secrets, ss, log);
    }
    RevokedUsersKeeps(cfg, now, users, users', secrets, secrets, ss, log, ids);
  }

  lemma ChangeStateKeeps(cfg: Config, now: int, s: State, ids: seq<UserId>, state: UserState)
    requires Inv(cfg, now, s) && SetState(s.db, now, ids, state).Ok?
    ensures var s' := s.(db := SetState(s.db, now, ids, state).value);
            && Inv(cfg, now, s') && s'.db.users.Keys == s.db.users.Keys
            && TableEvolves(s.sessionLog.openedBy.Keys, s.db.sessions, s'.db.sessions)
  {
    hide SessionsOk, ResolvesOk, UsersOk, EventsOk, AuthsOk, TableEvolves, RevokeUsers, WithState;
    var s' := s.(db := SetState(s.db, now, ids, state).value);
    WithStateKeeps(cfg, now, s.db.users, s.usedUsers, AsSet(ids), state, Secrets(cfg.hasher, s.db.passwords),
                   s.db.sessions, s.sessionLog);
    NothingEvolves(s.sessionLog.openedBy.Keys, s.db.sessions);
    FlightsCarryOver(cfg, now, now, s.db.sessions, s'.db.sessions, s.sessionLog, s.sessionLog, s.resolves);
  }

  lemma DeleteKeeps(cfg: Config, now: int, s: State, gone: set<UserId>)
    requires Inv(cfg, now, s) && gone <= s.db.users.Keys
    ensures var s' := UsersDeleted(s.(db := WithoutUsers(s.db, gone)), gone);
            && Inv(cfg, now, s') && s'.db.users.Keys == s.db.users.Keys - gone
            && TableEvolves(s.sessionLog.openedBy.Keys, s.db.sessions, s'.db.sessions)
  {
    hide SessionsOk, ResolvesOk, UsersOk, EventsOk, AuthsOk, TableEvolves, Secrets;
    var s' := UsersDeleted(s.(db := WithoutUsers(s.db, gone)), gone);
    FewerUsers(s.db.users, s.usedUsers, gone);
    FewerSecrets(cfg.hasher, s.db.passwords, gone);
    DroppedKeeps(cfg, now, s.db.users, gone, Secrets(cfg.hasher, s.db.passwords), s.db.sessions, s.sessionLog);
    DeletedEvents(s.db.users.Keys, s.sessionLog.openedBy.Keys, s.events, gone);
    FlightsCarryOver(cfg, now, now, s.db.sessions, s'.db.sessions, s.sessionLog, s'.sessionLog, s.resolves);
  }

  lemma FewerUsers(users: map<UserId, User>, used: set<UserId>, gone: set<UserId>)
    requires UsersOk(users, used)
    ensures UsersOk(users - gone, used) && (users - gone).Keys == users.Keys - gone
  {
    hide UserOk;
  }

  lemma FewerSecrets(hasher: Hasher, passwords: map<UserId, Credential>, gone: set<UserId>)
    ensures Secrets(hasher, passwords - gone) == Secrets(hasher, passwords) - gone
  {}

  lemma TimePasses(cfg: Config, now: int, now': int, s: State)
    requires Inv(cfg, now, s) && now <= now'
    ensures Inv(cfg, now', s)
  {
    hide UsersOk, EventsOk, AuthsOk;
    var secrets := Secrets(cfg.hasher, s.db.passwords);
    RowsCarryOver(cfg, now, now', s.db.users, s.db.users, secrets, secrets, s.db.sessions, s.db.sessions, s.sessionLog);
    FlightsCarryOver(cfg, now, now', s.db.sessions, s.db.sessions, s.sessionLog, s.sessionLog, s.resolves);
  }

  /** Users a step removes. */
  function Gone(s: State, step: Step): set<UserId> {
    if step.Delete? && DeleteUsers(s.db, step.ids, step.participant).Ok? then AsSet(step.ids) else {}
  }

  /** Every step keeps the invariant of the accounts and of the role tables. */
  lemma StepKeeps(
    cfg: Config, now: int, contacts: map<ContactId, Contact>, r: Rbac.Db, s: State, step: Step)
    requires cfg.Valid() && Inv(cfg, now, s) && Rbac.Inv(s.db.users.Keys, r) && Enabled(s, step)
    ensures var (s', r') := Apply(cfg, now, contacts, r, s, step);
            && Inv(cfg, now, s') && Rbac.Inv(s'.db.users.Keys, r')
            && TableEvolves(s.sessionLog.openedBy.Keys, s.db.sessions, s'.db.sessions)
            && s.db.users.Keys - Gone(s, step) <= s'.db.users.Keys
            && s.sessionLog.openedBy.Keys <= s'.sessionLog.openedBy.Keys
  {
    hide Inv, Rbac.Inv, TableEvolves;
    NothingEvolves(s.sessionLog.openedBy.Keys, s.db.sessions);
    if step.Create? || step.RegisterUser? || step.ProvisionUser? || step.RegisterWithLogin? {
      NewUserStepKeeps(cfg, now, contacts, r, s, step);
    } else if step.BeginAuth? || step.FinishAuth? || step.BeginResolve? || step.FinishResolve? {
      SplitStepKeeps(cfg, now, contacts, r, s, step);
    } else {
      TransactionStepKeeps(cfg, now, contacts, r, s, step);
    }
  }

  lemma NewUserStepKeeps(
    cfg: Config, now: int, contacts: map<ContactId, Contact>, r: Rbac.Db, s: State, step: Step)
    requires cfg.Valid() && Inv(cfg, now, s) && Rbac.Inv(s.db.users.Keys, r) && Enabled(s, step)
    requires step.Create? || step.RegisterUser? || step.ProvisionUser? || step.RegisterWithLogin?
    ensures var (s', r') := Apply(cfg, now, contacts, r, s, step);
            && Inv(cfg, now, s') && Rbac.Inv(s'.db.users.Keys, r')
            && TableEvolves(s.sessionLog.openedBy.Keys, s.db.sessions, s'.db.sessions)
            && s.db.users.Keys <= s'.db.users.Keys
            && s.sessionLog.openedBy.Keys <= s'.sessionLog.openedBy.Keys
  {
    hide Inv, Rbac.Inv, TableEvolves, Register, Provision, RegisterAndLogin;
    NothingEvolves(s.sessionLog.openedBy.Keys, s.db.sessions);
    match step
    case Create(id, raw, state) =>
      if CreateUser(s.db.users, now, id, raw, state).Ok? {
        CreateKeeps(cfg, now, s, id, raw, state);
        var users' := CreateUser(s.db.users, now, id, raw, state).value;
        assert s.db.users.Keys <= users'.Keys by {
          hide Identifiers.Username;
        }
        Rbac.MoreUsersKeeps(s.db.users.Keys, users'.Keys, r);
      }
    case RegisterUser(id, raw, state, policy, password, salt) =>
      if Register(cfg, s.db, r, now, id, raw, state, policy, cfg.hasher.Hash(password, salt)).Ok? {
        RegisterKeeps(cfg, now, s, r, id, raw, state, policy, password, salt);
      }
    case ProvisionUser(id, raw, state, policy, password, salt, codes) =>
      if Provision(s.db, r, now, id, raw, state, policy, cfg.hasher.Hash(password, salt), codes).Ok? {
        ProvisionKeeps(cfg, now, s, r, id, raw, state, policy, password, salt, codes);
      }
    case RegisterWithLogin(id, raw, state, policy, password, salt, session, token, binding) =>
      if RegisterAndLogin(cfg, s.db, r, now, id, raw, state, policy, cfg.hasher.Hash(password, salt), session, token,
                          binding).Ok? {
        RegisterWithLoginKeeps(cfg, now, s, r, id, raw, state, policy, password, salt, session, token, binding);
      }
  }

  lemma SplitStepKeeps(
    cfg: Config, now: int, contacts: map<ContactId, Contact>, r: Rbac.Db, s: State, step: Step)
    requires cfg.Valid() && Inv(cfg, now, s) && Enabled(s, step)
    requires step.BeginAuth? || step.FinishAuth? || step.BeginResolve? || step.FinishResolve?
    ensures var (s', r') := Apply(cfg, now, contacts, r, s, step);
            && Inv(cfg, now, s') && r' == r && s'.db.users == s.db.users
            && TableEvolves(s.sessionLog.openedBy.Keys, s.db.sessions, s'.db.sessions)
            && s.sessionLog.openedBy.Keys <= s'.sessionLog.openedBy.Keys
  {
    hide Inv, TableEvolves, AuthBegin, ResolveBegin;
    NothingEvolves(s.sessionLog.openedBy.Keys, s.db.sessions);
    match step
    case BeginAuth(request, raw, password, salt) =>
      var begin := AuthBegin(cfg.hasher, s.db, contacts, raw, password, salt);
      if begin.Ok? && begin.value.Some? {
        BeginAuthKeeps(cfg, now, contacts, s, request, raw, password, salt, begin.value.value);
      }
    case FinishAuth(request) =>
      FinishAuthKeeps(cfg, now, s, request);
    case BeginResolve(request, token, binding) =>
      var begin := ResolveBegin(cfg, s.db, now, token, binding);
      if begin.Ok? {
        BeginResolveKeeps(cfg, now, s, request, token, binding, begin.value);
      } else {
        DropResolveKeeps(cfg, now, s, request);
      }
    case FinishResolve(request) =>
      FinishResolveKeeps(cfg, now, s, request);
  }

  lemma TransactionStepKeeps(
    cfg: Config, now: int, contacts: map<ContactId, Contact>, r: Rbac.Db, s: State, step: Step)
    requires cfg.Valid() && Inv(cfg, now, s) && Rbac.Inv(s.db.users.Keys, r) && Enabled(s, step)
    requires !(step.Create? || step.RegisterUser? || step.ProvisionUser? || step.RegisterWithLogin?)
    requires !(step.BeginAuth? || step.FinishAuth? || step.BeginResolve? || step.FinishResolve?)
    ensures var (s', r') := Apply(cfg, now, contacts, r, s, step);
            && Inv(cfg, now, s') && Rbac.Inv(s'.db.users.Keys, r')
            && TableEvolves(s.sessionLog.openedBy.Keys, s.db.sessions, s'.db.sessions)
            && s.db.users.Keys - Gone(s, step) <= s'.db.users.Keys
            && s.sessionLog.openedBy.Keys <= s'.sessionLog.openedBy.Keys
  {
    hide Inv, Rbac.Inv, TableEvolves, OpenSession, ChangePassword, ReplacePassword, Revoke, SetState, WithoutUsers;
    NothingEvolves(s.sessionLog.openedBy.Keys, s.db.sessions);
    match step
    case PasswordLogin(_, _, _, _, _, _, _) =>
      LoginKeeps(cfg, now, contacts, s, step);
    case Issue(id, session, token, binding) =>
      if OpenSession(cfg, s.db, now, id, session, token, binding).Ok? {
        OpenSessionKeeps(cfg, now, s, id, session, token, binding, None);
        OpenSessionUsers(cfg, s.db, now, id, session, token, binding);
      }
    case Change(id, password, salt, policy, next, nextSalt) =>
      if ChangePassword(cfg.hasher, s.db, now, id, password, salt, policy, cfg.hasher.Hash(next, nextSalt)).Ok? {
        ChangeKeeps(cfg, now, s, id, password, salt, policy, next, nextSalt);
      }
    case Reset(id, policy, next, nextSalt) =>
      if ResetPassword(s.db, now, id, policy, cfg.hasher.Hash(next, nextSalt)).Ok? {
        ReplacePasswordKeeps(cfg, now, s, id, policy, next, nextSalt);
      }
    case RevokeToken(token) =>
      if Revoke(s.db, now, token).Ok? {
        RevokeTokenRow(s.db, now, token);
        RevokeKeeps(cfg, now, s, ByToken(s.db.sessions, token).value);
      }
    case RevokeById(session) =>
      if RevokeRow(s.db.sessions, session, now).Ok? {
        RevokeKeeps(cfg, now, s, session);
      }
    case RevokeForUsers(ids) =>
      RevokeForUsersKeeps(cfg, now, s, AsSet(ids));
    case DeleteExpired =>
      DeleteExpiredKeeps(cfg, now, s);
    case ChangeState(ids, state) =>
      if SetState(s.db, now, ids, state).Ok? {
        ChangeStateKeeps(cfg, now, s, ids, state);
      }
    case Delete(ids, participant) =>
      if DeleteUsers(s.db, ids, participant).Ok? {
        DeleteKeeps(cfg, now, s, AsSet(ids));
        Rbac.DeleteKeeps(s.db.users.Keys, r, 0, AsSet(ids));
      }
  }

  lemma RevokeTokenRow(a: Db, now: int, token: string)
    requires Revoke(a, now, token).Ok?
    ensures ByToken(a.sessions, token).Some?
    ensures RevokeRow(a.sessions, ByToken(a.sessions, token).value, now).Ok?
    ensures Revoke(a, now, token).value
         == a.(sessions := RevokeRow(a.sessions, ByToken(a.sessions, token).value, now).value)
  {}

  // Stored hashes.

  predicate SetsPassword(step: Step, user: UserId) {
    (step.Change? || step.Reset?) && step.id == user
  }

  /** A stored hash changes only when its password is set, or when a stale hash is
      upgraded for the same value. */
  predicate HashEvolves(hasher: Hasher, step: Step, user: UserId, h: PasswordHash, h': PasswordHash) {
    || h' == h
    || (SetsPassword(step, user) && h' == hasher.Hash(step.next, step.nextSalt))
    || (&& hasher.NeedsRehash(h) && !hasher.NeedsRehash(h') && h'.secret == h.secret
        && IsAccepted(hasher, h) && IsAccepted(hasher, h'))
  }

  lemma StepEvolvesHash(
    cfg: Config, now: int, contacts: map<ContactId, Contact>, r: Rbac.Db, s: State, step: Step, user: UserId)
    requires cfg.Valid()
    requires Inv(cfg, now, s) && Enabled(s, step)
    requires var s' := Apply(cfg, now, contacts, r, s, step).0; user in s.db.passwords && user in s'.db.passwords
    ensures var s' := Apply(cfg, now, contacts, r, s, step).0;
            HashEvolves(cfg.hasher, step, user, s.db.passwords[user].hash, s'.db.passwords[user].hash)
  {
    assert user in s.usedUsers;
    if step.FinishAuth? {
      assert AuthOk(cfg.hasher, s.auths[step.request]);
    } else {
      hide Inv, Apply, HashEvolves;
      OtherStepHash(cfg, now, contacts, r, s, step, user);
    }
  }

  lemma OtherStepHash(
    cfg: Config, now: int, contacts: map<ContactId, Contact>, r: Rbac.Db, s: State, step: Step, user: UserId)
    requires cfg.Valid()
    requires user in s.usedUsers && Enabled(s, step) && !step.FinishAuth?
    requires var s' := Apply(cfg, now, contacts, r, s, step).0; user in s.db.passwords && user in s'.db.passwords
    ensures var s' := Apply(cfg, now, contacts, r, s, step).0;
            HashEvolves(cfg.hasher, step, user, s.db.passwords[user].hash, s'.db.passwords[user].hash)
  {
    hide Register, Provision, RegisterAndLogin, CreateUser, OpenSession, ChangePassword, AuthBegin, ResolveBegin,
      Revoke, RevokeRow, WithState, RevokeUsers, WithoutExpired, ApplyLogin, ResolveTouch;
    if step.PasswordLogin? {
      LoginHashes(cfg, now, contacts, s, step);
    } else if step.Change? {
      ChangeHashes(cfg, now, s, step);
    } else if step.RegisterUser? || step.ProvisionUser? || step.RegisterWithLogin? {
      NewAccountHashes(cfg, now, r, s, step);
    } else if step.Issue? && OpenSession(cfg, s.db, now, step.id, step.session, step.token, step.binding).Ok? {
      OpenSessionUsers(cfg, s.db, now, step.id, step.session, step.token, step.binding);
    } else if step.RevokeToken? && Revoke(s.db, now, step.token).Ok? {
      RevokeTokenRow(s.db, now, step.token);
    }
  }

  lemma LoginHashes(cfg: Config, now: int, contacts: map<ContactId, Contact>, s: State, step: Step)
    requires cfg.Valid()
    requires step.PasswordLogin?
    ensures forall u | u in s.db.passwords ::
              && u in ApplyLogin(cfg, now, contacts, s, step).db.passwords
              && HashEvolves(cfg.hasher, step, u, s.db.passwords[u].hash,
                             ApplyLogin(cfg, now, contacts, s, step).db.passwords[u].hash)
  {
    hide Identify, OpenSession;
    var result := Login(cfg, s.db, contacts, now, step.guard, step.raw, step.password, step.salt, step.session,
                        step.token, step.binding);
    if result.Ok? {
      var db := AuthenticateUser(cfg.hasher, s.db, now, result.value.1, step.password, step.salt).value;
      OpenSessionUsers(cfg, db, now, result.value.1, step.session, step.token, step.binding);
    }
  }

  lemma ChangeHashes(cfg: Config, now: int, s: State, step: Step)
    requires cfg.Valid()
    requires step.Change?
    ensures var r := ChangePassword(cfg.hasher, s.db, now, step.id, step.password, step.salt, step.policy,
                                    cfg.hasher.Hash(step.next, step.nextSalt));
            r.Ok? ==> forall u | u in s.db.passwords ::
              && u in r.value.passwords
              && HashEvolves(cfg.hasher, step, u, s.db.passwords[u].hash, r.value.passwords[u].hash)
  {
    hide RevokeUsers;
  }

  lemma NewAccountHashes(cfg: Config, now: int, r: Rbac.Db, s: State, step: Step)
    requires step.RegisterUser? || step.ProvisionUser? || step.RegisterWithLogin?
    requires Enabled(s, step)
    ensures forall u | u in s.db.passwords && u != step.id ::
              && u in Apply(cfg, now, map[], r, s, step).0.db.passwords
              && Apply(cfg, now, map[], r, s, step).0.db.passwords[u].hash == s.db.passwords[u].hash
    ensures forall contacts :: Apply(cfg, now, contacts, r, s, step) == Apply(cfg, now, map[], r, s, step)
  {
    hide CreateUser, OpenSession, Rbac.SetUserRoles, Rbac.Resolve, Rbac.Code;
    if step.RegisterWithLogin? {
      var first := Register(cfg, s.db, r, now, step.id, step.raw, step.state, step.policy,
                            cfg.hasher.Hash(step.password, step.salt));
      if first.Ok? && OpenSession(cfg, first.value.0, now, step.id, step.session, step.token, step.binding).Ok? {
        OpenSessionUsers(cfg, first.value.0, now, step.id, step.session, step.token, step.binding);
      }
    }
  }

  // Identity over time.

  /** User ids and tokens are not taken up again, and a user that stays keeps having
      a credential. */
  ghost predicate Later(s: State, s': State) {
    && s.usedUsers <= s'.usedUsers
    && (forall u | u in s'.db.users && u in s.usedUsers :: u in s.db.users)
    && (forall u | u in s.db.passwords && u in s.usedUsers && u in s'.db.users :: u in s'.db.passwords)
    && s.sessionLog.tokens <= s'.sessionLog.tokens
    && (forall id | id in s'.db.sessions && id !in s.sessionLog.openedBy ::
          s'.db.sessions[id].token !in s.sessionLog.tokens)
  }

  lemma StepIsLater(cfg: Config, now: int, contacts: map<ContactId, Contact>, r: Rbac.Db, s: State, step: Step)
    requires Inv(cfg, now, s) && Enabled(s, step)
    ensures Later(s, Apply(cfg, now, contacts, r, s, step).0)
  {
    hide Inv, Apply, Later;
    KeysAreUsed(cfg, now, s);
    if step.Create? || step.RegisterUser? || step.ProvisionUser? {
      NewUserIsLater(cfg, now, contacts, r, s, step);
    } else if step.RegisterWithLogin? {
      RegisterWithLoginIsLater(cfg, now, contacts, r, s, step);
    } else if step.PasswordLogin? {
      LoginIsLater(cfg, now, contacts, r, s, step);
    } else if step.Issue? {
      IssueIsLater(cfg, now, contacts, r, s, step);
    } else {
      OtherStepIsLater(cfg, now, contacts, r, s, step);
    }
  }

  lemma KeysAreUsed(cfg: Config, now: int, s: State)
    requires Inv(cfg, now, s)
    ensures s.db.users.Keys <= s.usedUsers && forall id | id in s.db.sessions :: id in s.sessionLog.openedBy
  {
    assert forall id | id in s.db.sessions :: RowOk(cfg, now, s.db.users.Keys, s.sessionLog, id, s.db.sessions[id]);
  }

  lemma OpenSessionRow(
    cfg: Config, a: Db, now: int, user: UserId, id: SessionId, token: string, binding: Result<()>)
    requires OpenSession(cfg, a, now, user, id, token, binding).Ok?
    ensures OpenSession(cfg, a, now, user, id, token, binding).value.sessions
         == a.sessions[id := Session(user, token, now, now + cfg.ttl, now, None)]
  {}

  lemma NewUserIsLater(cfg: Config, now: int, contacts: map<ContactId, Contact>, r: Rbac.Db, s: State, step: Step)
    requires Enabled(s, step) && s.db.users.Keys <= s.usedUsers
    requires forall id | id in s.db.sessions :: id in s.sessionLog.openedBy
    requires step.Create? || step.RegisterUser? || step.ProvisionUser?
    ensures Later(s, Apply(cfg, now, contacts, r, s, step).0)
  {
    hide CreateUser, Register, Provision;
    CreatedKeys(s.db.users, now, step.id, step.raw, step.state);
    if step.RegisterUser? {
      RegisteredKeys(cfg, now, s.db, r, step.id, step.raw, step.state, step.policy,
                     cfg.hasher.Hash(step.password, step.salt));
    } else if step.ProvisionUser? {
      ProvisionedKeys(now, s.db, r, step.id, step.raw, step.state, step.policy,
                      cfg.hasher.Hash(step.password, step.salt), step.codes);
    }
  }

  lemma RegisteredKeys(
    cfg: Config, now: int, a: Db, r: Rbac.Db, id: UserId, raw: string, state: UserState, policy: Result<()>,
    hash: PasswordHash)
    ensures var done := Register(cfg, a, r, now, id, raw, state, policy, hash);
            done.Ok? ==>
              && done.value.0.users.Keys == a.users.Keys + {id} && done.value.0.sessions == a.sessions
              && done.value.0.passwords.Keys == a.passwords.Keys + {id}
  {
    hide CreateUser, Rbac.SetUserRoles;
    CreatedKeys(a.users, now, id, raw, state);
  }

  lemma ProvisionedKeys(
    now: int, a: Db, r: Rbac.Db, id: UserId, raw: string, state: UserState, policy: Result<()>, hash: PasswordHash,
    codes: seq<string>)
    ensures var done := Provision(a, r, now, id, raw, state, policy, hash, codes);
            done.Ok? ==>
              && done.value.0.users.Keys == a.users.Keys + {id} && done.value.0.sessions == a.sessions
              && done.value.0.passwords.Keys == a.passwords.Keys + {id}
  {
    hide CreateUser, Rbac.SetUserRoles, Rbac.Resolve, Rbac.Code;
    CreatedKeys(a.users, now, id, raw, state);
  }

  lemma RegisterWithLoginIsLater(
    cfg: Config, now: int, contacts: map<ContactId, Contact>, r: Rbac.Db, s: State, step: Step)
    requires Enabled(s, step) && s.db.users.Keys <= s.usedUsers
    requires forall id | id in s.db.sessions :: id in s.sessionLog.openedBy
    requires step.RegisterWithLogin?
    ensures Later(s, Apply(cfg, now, contacts, r, s, step).0)
  {
    hide Register, OpenSession;
    RegisteredKeys(cfg, now, s.db, r, step.id, step.raw, step.state, step.policy,
                   cfg.hasher.Hash(step.password, step.salt));
    var first := Register(cfg, s.db, r, now, step.id, step.raw, step.state, step.policy,
                          cfg.hasher.Hash(step.password, step.salt));
    if first.Ok? && OpenSession(cfg, first.value.0, now, step.id, step.session, step.token, step.binding).Ok? {
      OpenSessionUsers(cfg, first.value.0, now, step.id, step.session, step.token, step.binding);
      OpenSessionRow(cfg, first.value.0, now, step.id, step.session, step.token, step.binding);
    }
  }

  lemma CreatedKeys(users: map<UserId, User>, now: int, id: UserId, raw: string, state: UserState)
    ensures var r := CreateUser(users, now, id, raw, state); r.Ok? ==> r.value.Keys == users.Keys + {id}
  {
    hide Identifiers.Username;
  }

  lemma IssueIsLater(cfg: Config, now: int, contacts: map<ContactId, Contact>, r: Rbac.Db, s: State, step: Step)
    requires Enabled(s, step) && step.Issue?
    requires forall id | id in s.db.sessions :: id in s.sessionLog.openedBy
    ensures Later(s, Apply(cfg, now, contacts, r, s, step).0)
  {
    hide OpenSession;
    if OpenSession(cfg, s.db, now, step.id, step.session, step.token, step.binding).Ok? {
      OpenSessionUsers(cfg, s.db, now, step.id, step.session, step.token, step.binding);
      OpenSessionRow(cfg, s.db, now, step.id, step.session, step.token, step.binding);
    }
  }

  lemma LoginIsLater(cfg: Config, now: int, contacts: map<ContactId, Contact>, r: Rbac.Db, s: State, step: Step)
    requires Enabled(s, step) && step.PasswordLogin?
    requires forall id | id in s.db.sessions :: id in s.sessionLog.openedBy
    ensures Later(s, Apply(cfg, now, contacts, r, s, step).0)
  {
    hide OpenSession, Identify, Hasher.Verify, Hasher.NeedsRehash;
    var result := Login(cfg, s.db, contacts, now, step.guard, step.raw, step.password, step.salt, step.session,
                        step.token, step.binding);
    if result.Ok? {
      var user := result.value.1;
      var db := AuthenticateUser(cfg.hasher, s.db, now, user, step.password, step.salt).value;
      OpenSessionUsers(cfg, db, now, user, step.session, step.token, step.binding);
      OpenSessionRow(cfg, db, now, user, step.session, step.token, step.binding);
    }
  }

  lemma OtherStepIsLater(cfg: Config, now: int, contacts: map<ContactId, Contact>, r: Rbac.Db, s: State, step: Step)
    requires Enabled(s, step)
    requires forall id | id in s.db.sessions :: id in s.sessionLog.openedBy
    requires !(step.Create? || step.RegisterUser? || step.ProvisionUser? || step.RegisterWithLogin?)
    requires !(step.PasswordLogin? || step.Issue?)
    ensures Later(s, Apply(cfg, now, contacts, r, s, step).0)
  {
    hide AuthBegin, ResolveBegin, Hasher.Verify, Hasher.NeedsRehash, Apply, Later;
    if step.Change? || step.Reset? || step.BeginAuth? || step.FinishAuth? {
      PasswordStepIsLater(cfg, now, contacts, r, s, step);
    } else {
      SessionStepIsLater(cfg, now, contacts, r, s, step);
    }
  }

  lemma PasswordStepIsLater(cfg: Config, now: int, contacts: map<ContactId, Contact>, r: Rbac.Db, s: State, step: Step)
    requires Enabled(s, step) && forall id | id in s.db.sessions :: id in s.sessionLog.openedBy
    requires step.Change? || step.Reset? || step.BeginAuth? || step.FinishAuth?
    ensures Later(s, Apply(cfg, now, contacts, r, s, step).0)
  {
    hide AuthBegin, Hasher.Verify, Hasher.NeedsRehash, Hasher.Hash;
  }

  lemma SessionStepIsLater(cfg: Config, now: int, contacts: map<ContactId, Contact>, r: Rbac.Db, s: State, step: Step)
    requires Enabled(s, step) && forall id | id in s.db.sessions :: id in s.sessionLog.openedBy
    requires step.BeginResolve? || step.FinishResolve? || step.RevokeToken? || step.RevokeById? || step.RevokeForUsers?
             || step.DeleteExpired? || step.ChangeState? || step.Delete?
    ensures Later(s, Apply(cfg, now, contacts, r, s, step).0)
  {
    hide ResolveBegin;
  }

  /** A session is opened by inserting its row. */
  lemma StepOpensRow(
    cfg: Config, now: int, contacts: map<ContactId, Contact>, r: Rbac.Db, s: State, step: Step, id: SessionId)
    requires Enabled(s, step)
    ensures var s' := Apply(cfg, now, contacts, r, s, step).0;
            && (id in s.sessionLog.openedBy ==> id in s'.sessionLog.openedBy)
            && (id in s'.sessionLog.openedBy && id !in s.sessionLog.openedBy ==> id in s'.db.sessions)
  {
    hide Register, Provision, CreateUser, OpenSession, ChangePassword, ResetPassword, AuthBegin, ResolveBegin, Revoke,
      SetState, DeleteUsers, RevokeUsers, WithoutExpired, ResolveTouch, Rehash, Identify, AuthenticateUser;
    if step.Issue? {
      if OpenSession(cfg, s.db, now, step.id, step.session, step.token, step.binding).Ok? {
        OpenSessionRow(cfg, s.db, now, step.id, step.session, step.token, step.binding);
      }
    } else if step.RegisterWithLogin? {
      var first := Register(cfg, s.db, r, now, step.id, step.raw, step.state, step.policy,
                            cfg.hasher.Hash(step.password, step.salt));
      if first.Ok? && OpenSession(cfg, first.value.0, now, step.id, step.session, step.token, step.binding).Ok? {
        OpenSessionRow(cfg, first.value.0, now, step.id, step.session, step.token, step.binding);
      }
    } else if step.PasswordLogin? {
      var result := Login(cfg, s.db, contacts, now, step.guard, step.raw, step.password, step.salt, step.session,
                          step.token, step.binding);
      if result.Ok? {
        var db := AuthenticateUser(cfg.hasher, s.db, now, result.value.1, step.password, step.salt).value;
        OpenSessionRow(cfg, db, now, result.value.1, step.session, step.token, step.binding);
      }
    }
  }
}
