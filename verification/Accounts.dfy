/** Users, passwords and sessions: `user.go`, `password.go`, `session.go` and
    `account.go` of `internal/identity/service` over the tables of
    `internal/identity/repository/store.go`.

    Each function is one transaction; on an error the caller keeps the tables it
    had.  Only credential checking outside a transaction and session resolution are
    split, between what they read and what they later write. */
module Accounts {
  import opened Types
  import opened Strings
  import Argon2id
  import Encoding
  import Identifiers
  import Rbac

  // Hashing.

  /** An ideal hash: it remembers the value it was made from. */
  datatype PasswordHash = PasswordHash(scheme: string, params: Argon2id.Params, salt: Encoding.Bytes, secret: string)

  /** A primary Argon2id hasher with secondary schemes that are only verified. */
  datatype Hasher = Hasher(primary: string, fallbacks: set<string>, params: Argon2id.Params)
  {
    predicate Valid() {
      primary !in fallbacks && params.Valid()
    }

    function Hash(value: string, salt: Encoding.Bytes): PasswordHash {
      PasswordHash(primary, params, salt, value)
    }

    predicate Verify(hash: PasswordHash, value: string) {
      && (if hash.scheme == primary then hash.params.Valid() else hash.scheme in fallbacks)
      && hash.secret == value
    }

    predicate NeedsRehash(hash: PasswordHash) {
      if hash.scheme == primary then hash.params != params else hash.scheme in fallbacks
    }
  }

  datatype Credential = Credential(hash: PasswordHash, changedAt: int, createdAt: int, updatedAt: int)

  datatype Session = Session(
    user: UserId, token: string, createdAt: int, expiresAt: int, lastSeenAt: int, revokedAt: Option<int>)

  datatype Db = Db(users: map<UserId, User>, passwords: map<UserId, Credential>, sessions: map<SessionId, Session>)

  datatype Config = Config(hasher: Hasher, ttl: int, idle: int, touch: int, defaultRoles: seq<string>)
  {
    /** `NewSessionService` refuses a non-positive ttl; the touch interval is
        assumed positive. */
    predicate Valid() {
      hasher.Valid() && ttl > 0 && touch > 0
    }
  }

  // Users.

  predicate UsernameTaken(users: map<UserId, User>, name: string) {
    exists u :: u in users && users[u].username == name
  }

  function CreateUser(users: map<UserId, User>, now: int, id: UserId, raw: string, state: UserState)
    : Result<map<UserId, User>>
  {
    var name :- Identifiers.Username(raw);
    if id in users then Err(ErrConflict)
    else if UsernameTaken(users, name) then Err(ErrUsernameTaken)
    else Ok(users[id := User(name, state, if state == Disabled then Some(now) else None, now, None, now)])
  }

  function MarkLogin(users: map<UserId, User>, now: int, id: UserId): Result<map<UserId, User>> {
    if id !in users then Err(ErrNotFound)
    else Ok(users[id := users[id].(lastLoginAt := Some(now), updatedAt := now)])
  }

  function WithState(users: map<UserId, User>, now: int, ids: set<UserId>, state: UserState): map<UserId, User> {
    map u | u in users ::
      if u in ids
      then users[u].(state := state, disabledAt := if state == Disabled then Some(now) else None, updatedAt := now)
      else users[u]
  }

  function AsSet(ids: seq<UserId>): set<UserId> {
    set id | id in ids
  }

  function SetState(a: Db, now: int, ids: seq<UserId>, state: UserState): Result<Db> {
    if ids == [] then Err(ErrEmptySelection)
    else if !(AsSet(ids) <= a.users.Keys) then Err(ErrNotFound)
    else
      var users := WithState(a.users, now, AsSet(ids), state);
      Ok(a.(users := users,
            sessions := if state == Disabled then RevokeUsers(a.sessions, AsSet(ids), now) else a.sessions))
  }

  function WithoutUsers(a: Db, gone: set<UserId>): Db {
    Db(a.users - gone, a.passwords - gone,
       map s | s in a.sessions && a.sessions[s].user !in gone :: a.sessions[s])
  }

  /** The host participant runs inside the transaction and can refuse it. */
  function DeleteUsers(a: Db, ids: seq<UserId>, participant: Result<()>): Result<Db> {
    if ids == [] then Err(ErrEmptySelection)
    else if !(AsSet(ids) <= a.users.Keys) then Err(ErrNotFound)
    else
      var _ :- participant;
      Ok(WithoutUsers(a, AsSet(ids)))
  }

  /** The login lookup.  Unique indexes leave at most one row. */
  ghost predicate Names(
    users: map<UserId, User>, contacts: map<ContactId, Contact>, id: Identifiers.LoginIdentifier, user: UserId)
  {
    && user in users
    && match id.kind
       case ByUsername => users[user].username == id.value
       case ByPhone =>
         exists c :: c in contacts && contacts[c] == Contact(user, Phone, id.value, contacts[c].verifiedAt)
       case ByEmail =>
         exists c :: c in contacts && contacts[c] == Contact(user, Email, id.value, contacts[c].verifiedAt)
  }

  ghost function Lookup(
    users: map<UserId, User>, contacts: map<ContactId, Contact>, id: Identifiers.LoginIdentifier)
    : (r: Option<UserId>)
    ensures r.Some? ==> Names(users, contacts, id, r.value)
    ensures r.None? <==> forall u :: !Names(users, contacts, id, u)
  {
    if u :| Names(users, contacts, id, u) then Some(u) else None
  }

  // Passwords.

  function SetHash(a: Db, now: int, id: UserId, hash: PasswordHash): Result<Db> {
    if id !in a.users then Err(ErrConflict)
    else
      var createdAt := if id in a.passwords then a.passwords[id].createdAt else now;
      Ok(a.(passwords := a.passwords[id := Credential(hash, now, createdAt, now)]))
  }

  function CheckPassword(hasher: Hasher, a: Db, id: UserId, value: string): Result<PasswordHash> {
    if id in a.passwords && hasher.Verify(a.passwords[id].hash, value)
    then Ok(a.passwords[id].hash)
    else Err(ErrUnauthenticated)
  }

  /** `UpdatePasswordCredentialIfMatch`: the row is replaced only if it still holds
      the hash that was read; the time of the last change is written as it was read. */
  function Rehash(
    passwords: map<UserId, Credential>, now: int, id: UserId, expected: PasswordHash, next: PasswordHash,
    changedAt: int)
    : map<UserId, Credential>
  {
    if id in passwords && passwords[id].hash == expected
    then passwords[id := passwords[id].(hash := next, changedAt := changedAt, updatedAt := now)]
    else passwords
  }

  /** `AuthenticateUser` inside a transaction. */
  function AuthenticateUser(hasher: Hasher, a: Db, now: int, id: UserId, value: string, salt: Encoding.Bytes)
    : Result<Db>
  {
    var hash :- CheckPassword(hasher, a, id, value);
    if hasher.NeedsRehash(hash)
    then Ok(a.(passwords := Rehash(a.passwords, now, id, hash, hasher.Hash(value, salt), a.passwords[id].changedAt)))
    else Ok(a)
  }

  /** Who an identifier and password authenticate. */
  ghost function Identify(
    hasher: Hasher, a: Db, contacts: map<ContactId, Contact>, raw: string, value: string)
    : Result<UserId>
  {
    var id := Identifiers.NormalizeLoginIdentifier(raw);
    if id.Err? then Err(ErrUnauthenticated)
    else
      var user := Lookup(a.users, contacts, id.value);
      if user.None? || !a.users[user.value].IsActive() then Err(ErrUnauthenticated)
      else
        var _ :- CheckPassword(hasher, a, user.value, value);
        Ok(user.value)
  }

  /** A credential check outside a transaction, waiting to write its rehash. */
  datatype AuthFlight = AuthFlight(user: UserId, expected: PasswordHash, next: PasswordHash, changedAt: int)

  ghost function AuthBegin(
    hasher: Hasher, a: Db, contacts: map<ContactId, Contact>, raw: string, value: string, salt: Encoding.Bytes)
    : Result<Option<AuthFlight>>
  {
    var user :- Identify(hasher, a, contacts, raw, value);
    var hash := a.passwords[user].hash;
    Ok(if hasher.NeedsRehash(hash)
       then Some(AuthFlight(user, hash, hasher.Hash(value, salt), a.passwords[user].changedAt))
       else None)
  }

  // Sessions.

  function CreateSession(
    cfg: Config, a: Db, now: int, user: UserId, id: SessionId, token: string, binding: Result<()>)
    : Result<Db>
  {
    if user !in a.users then Err(ErrNotFound)
    else if !a.users[user].IsActive() then Err(ErrDisabled)
    else
      var _ :- binding;
      if id in a.sessions || exists s :: s in a.sessions && a.sessions[s].token == token then Err(ErrConflict)
      else Ok(a.(sessions := a.sessions[id := Session(user, token, now, now + cfg.ttl, now, None)]))
  }

  function TouchRow(ss: map<SessionId, Session>, id: SessionId, seenBefore: int, now: int): map<SessionId, Session> {
    if id in ss && ss[id].lastSeenAt <= seenBefore && ss[id].revokedAt == None
    then ss[id := ss[id].(lastSeenAt := now)]
    else ss
  }

  function RevokeRow(ss: map<SessionId, Session>, id: SessionId, now: int): Result<map<SessionId, Session>> {
    if id !in ss then Err(ErrNotFound)
    else Ok(ss[id := ss[id].(revokedAt := Some(now), lastSeenAt := now)])
  }

  function RevokeUsers(ss: map<SessionId, Session>, users: set<UserId>, now: int): map<SessionId, Session> {
    map s | s in ss ::
      if ss[s].user in users && ss[s].revokedAt == None then ss[s].(revokedAt := Some(now)) else ss[s]
  }

  function WithoutExpired(ss: map<SessionId, Session>, now: int): map<SessionId, Session> {
    map s | s in ss && ss[s].expiresAt > now :: ss[s]
  }

  ghost function ByToken(ss: map<SessionId, Session>, token: string): (r: Option<SessionId>)
    ensures r.Some? ==> r.value in ss && ss[r.value].token == token
    ensures r.None? <==> forall s | s in ss :: ss[s].token != token
  {
    if s :| s in ss && ss[s].token == token then Some(s) else None
  }

  ghost function Revoke(a: Db, now: int, token: string): Result<Db> {
    if TrimSpace(token) == "" then Err(ErrUnauthenticated)
    else match ByToken(a.sessions, token)
      case None => Err(ErrNotFound)
      case Some(id) =>
        var sessions :- RevokeRow(a.sessions, id, now);
        Ok(a.(sessions := sessions))
  }

  /** A resolved session waiting for its touch and its claims. */
  datatype ResolveFlight = ResolveFlight(
    session: SessionId, user: UserId, account: User, createdAt: int, expiresAt: int, seenAt: int, readAt: int)

  ghost function ResolveBegin(cfg: Config, a: Db, now: int, token: string, binding: Result<()>)
    : Result<ResolveFlight>
  {
    if TrimSpace(token) == "" then Err(ErrUnauthenticated)
    else match ByToken(a.sessions, token)
      case None => Err(ErrUnauthenticated)
      case Some(id) =>
        var s := a.sessions[id];
        if s.revokedAt.Some? then Err(ErrRevoked)
        else if s.expiresAt <= now then Err(ErrExpired)
        else if cfg.idle > 0 && now - s.lastSeenAt >= cfg.idle then Err(ErrExpired)
        else
          var _ :- binding;
          if s.user !in a.users || !a.users[s.user].IsActive() then Err(ErrUnauthenticated)
          else Ok(ResolveFlight(id, s.user, a.users[s.user], s.createdAt, s.expiresAt, s.lastSeenAt, now))
  }

  /** The touch of a resolution, guarded by what the row holds when it is written. */
  function ResolveTouch(cfg: Config, ss: map<SessionId, Session>, f: ResolveFlight): map<SessionId, Session> {
    if cfg.touch == 0 || f.readAt - f.seenAt >= cfg.touch
    then TouchRow(ss, f.session, f.readAt - cfg.touch, f.readAt)
    else ss
  }

  datatype Principal = Principal(
    user: UserId, account: User, session: SessionId, authenticatedAt: int, expiresAt: int,
    roles: set<string>, permissions: set<string>)

  function PrincipalOf(f: ResolveFlight, r: Rbac.Db): Principal {
    Principal(f.user, f.account, f.session, f.createdAt, f.expiresAt,
              Rbac.RoleCodes(r, f.user), Rbac.PermissionCodes(r, f.user))
  }

  // Account transactions.

  ghost function Register(
    cfg: Config, a: Db, r: Rbac.Db, now: int, id: UserId, raw: string, state: UserState, policy: Result<()>,
    hash: PasswordHash)
    : Result<(Db, Rbac.Db)>
  {
    var _ :- policy;
    var users :- CreateUser(a.users, now, id, raw, state);
    var r1 :- if cfg.defaultRoles == [] then Ok(r) else Rbac.SetUserRoles(users.Keys, r, id, cfg.defaultRoles);
    var a1 :- SetHash(a.(users := users), now, id, hash);
    Ok((a1, r1))
  }

  ghost function Provision(
    a: Db, r: Rbac.Db, now: int, id: UserId, raw: string, state: UserState, policy: Result<()>, hash: PasswordHash,
    codes: seq<string>)
    : Result<(Db, Rbac.Db)>
  {
    if codes == [] || exists i :: 0 <= i < |codes| && Rbac.Code(codes[i]).Err? then Err(ErrInvalid)
    else if state != Active then Err(ErrInvalidState)
    else
      var _ :- policy;
      var _ :- Rbac.Resolve(r.roles, codes);
      var users :- CreateUser(a.users, now, id, raw, state);
      var a1 :- SetHash(a.(users := users), now, id, hash);
      var r1 :- Rbac.SetUserRoles(users.Keys, r, id, codes);
      Ok((a1, r1))
  }

  function OpenSession(
    cfg: Config, a: Db, now: int, user: UserId, id: SessionId, token: string, binding: Result<()>)
    : Result<Db>
  {
    var a1 :- CreateSession(cfg, a, now, user, id, token, binding);
    var users :- MarkLogin(a1.users, now, user);
    Ok(a1.(users := users))
  }

  ghost function RegisterAndLogin(
    cfg: Config, a: Db, r: Rbac.Db, now: int, id: UserId, raw: string, state: UserState, policy: Result<()>,
    hash: PasswordHash, session: SessionId, token: string, binding: Result<()>)
    : Result<(Db, Rbac.Db)>
  {
    var (a1, r1) :- Register(cfg, a, r, now, id, raw, state, policy, hash);
    var a2 :- OpenSession(cfg, a1, now, id, session, token, binding);
    Ok((a2, r1))
  }

  /** Returns the tables and the user that logged in. */
  ghost function Login(
    cfg: Config, a: Db, contacts: map<ContactId, Contact>, now: int, guard: Result<()>, raw: string, value: string,
    salt: Encoding.Bytes, session: SessionId, token: string, binding: Result<()>)
    : Result<(Db, UserId)>
  {
    var _ :- guard;
    var user :- Identify(cfg.hasher, a, contacts, raw, value);
    var a1 :- AuthenticateUser(cfg.hasher, a, now, user, value, salt);
    var a2 :- OpenSession(cfg, a1, now, user, session, token, binding);
    Ok((a2, user))
  }

  function ReplacePassword(a: Db, now: int, id: UserId, policy: Result<()>, hash: PasswordHash): Result<Db> {
    var _ :- policy;
    var a1 :- SetHash(a, now, id, hash);
    Ok(a1.(sessions := RevokeUsers(a1.sessions, {id}, now)))
  }

  function ChangePassword(
    hasher: Hasher, a: Db, now: int, id: UserId, current: string, salt: Encoding.Bytes, policy: Result<()>,
    hash: PasswordHash)
    : Result<Db>
  {
    if id !in a.users then Err(ErrNotFound)
    else if !a.users[id].IsActive() then Err(ErrDisabled)
    else
      var a1 :- AuthenticateUser(hasher, a, now, id, current, salt);
      ReplacePassword(a1, now, id, policy, hash)
  }

  function ResetPassword(a: Db, now: int, id: UserId, policy: Result<()>, hash: PasswordHash): Result<Db> {
    if id !in a.users then Err(ErrNotFound) else ReplacePassword(a, now, id, policy, hash)
  }
}
