/** What every operation on users, passwords and sessions answers and leaves in the
    tables, row by row and without the functions that compute it. */
module AccountOutcomes {
  import opened Types
  import opened Strings
  import opened Accounts
  import Encoding
  import Identifiers
  import Rbac
  import opened RoleOutcomes

  predicate Active(user: User) {
    user.state == UserState.Active && user.disabledAt == None
  }

  // Users.

  ghost predicate HasName(users: map<UserId, User>, name: string) {
    exists u :: u in users && users[u].username == name
  }

  /** A user is created exactly if the username is well formed and new; the row says
      what was asked for, and no other row changes. */
  lemma CreationAnswers(users: map<UserId, User>, now: int, id: UserId, raw: string, state: UserState)
    ensures var r, name := CreateUser(users, now, id, raw, state), Identifiers.Username(raw);
            && (r.Ok? <==> name.Ok? && id !in users && !HasName(users, name.value))
            && (r.Ok? ==>
                  && IsCreated(users, r.value, now, id, state)
                  && r.value[id].username == name.value)
            && (r.Err? ==>
                  if name.Err? then r.error == name.error
                  else if id in users then r.error == ErrConflict
                  else r.error == ErrUsernameTaken)
  {
    hide Identifiers.Username;
  }

  ghost predicate IsCreated(
    users: map<UserId, User>, users': map<UserId, User>, now: int, id: UserId, state: UserState)
  {
    && id !in users && users'.Keys == users.Keys + {id} && (forall u | u in users :: users'[u] == users[u])
    && users'[id].state == state && users'[id].disabledAt == (if state == Disabled then Some(now) else None)
    && users'[id].createdAt == now && users'[id].updatedAt == now && users'[id].lastLoginAt == None
  }

  /** Every unrevoked session of the users is revoked, and no other session changes. */
  ghost predicate SessionsRevoked(
    ss: map<SessionId, Session>, ss': map<SessionId, Session>, users: set<UserId>, now: int)
  {
    && ss'.Keys == ss.Keys
    && forall s | s in ss ::
         if ss[s].user in users && ss[s].revokedAt == None
         then ss'[s].revokedAt == Some(now) && ss'[s].(revokedAt := None) == ss[s]
         else ss'[s] == ss[s]
  }

  ghost predicate IsStateSet(a: Db, a': Db, now: int, ids: seq<UserId>, state: UserState) {
    && a'.passwords == a.passwords && a'.users.Keys == a.users.Keys
    && (forall u | u in ids && u in a.users ::
          && a'.users[u].state == state && a'.users[u].disabledAt == (if state == Disabled then Some(now) else None)
          && a'.users[u] == a.users[u].(state := state, disabledAt := a'.users[u].disabledAt, updatedAt := now))
    && (forall u | u in a.users && u !in ids :: a'.users[u] == a.users[u])
    && if state == Disabled then SessionsRevoked(a.sessions, a'.sessions, (set u | u in ids), now)
       else a'.sessions == a.sessions
  }

  /** Changing a state succeeds exactly if there are users to change and all exist.
      Then they have the state asked for, in both columns, and when disabling no
      session of theirs is left live; nothing else changes. */
  lemma StateIsSet(a: Db, now: int, ids: seq<UserId>, state: UserState)
    ensures var r := SetState(a, now, ids, state);
            && (r.Ok? <==> ids != [] && forall id | id in ids :: id in a.users)
            && (r.Err? ==> r.error == if ids == [] then ErrEmptySelection else ErrNotFound)
            && (r.Ok? ==> IsStateSet(a, r.value, now, ids, state))
  {
    assert AsSet(ids) <= a.users.Keys <==> forall id | id in ids :: id in a.users;
  }

  lemma StateIsWritten(a: Db, now: int, ids: seq<UserId>, state: UserState)
    ensures SetState(a, now, ids, state).Ok? ==> IsStateSet(a, SetState(a, now, ids, state).value, now, ids, state)
  {
    StateIsSet(a, now, ids, state);
  }

  /** A deletion is refused exactly if nothing is asked for, a user is unknown or the
      host's participant refuses, in this order. */
  lemma DeletionAnswers(a: Db, ids: seq<UserId>, participant: Result<()>)
    ensures var r := DeleteUsers(a, ids, participant);
            && (r.Ok? <==> ids != [] && (forall id | id in ids :: id in a.users) && participant.Ok?)
            && (r.Err? ==>
                  if ids == [] then r.error == ErrEmptySelection
                  else if !(forall id | id in ids :: id in a.users) then r.error == ErrNotFound
                  else participant == Err(r.error))
  {
    assert AsSet(ids) <= a.users.Keys <==> forall id | id in ids :: id in a.users;
    hide WithoutUsers;
  }

  // Credentials.

  ghost predicate Accepts(hasher: Hasher, a: Db, user: UserId, value: string) {
    user in a.passwords && hasher.Verify(a.passwords[user].hash, value)
  }

  ghost predicate OnlyName(users: map<UserId, User>, contacts: map<ContactId, Contact>, raw: string) {
    forall id, u, v | Identifiers.NormalizeLoginIdentifier(raw) == Ok(id)
                      && Names(users, contacts, id, u) && Names(users, contacts, id, v) :: u == v
  }

  ghost predicate NamedBy(users: map<UserId, User>, contacts: map<ContactId, Contact>, raw: string, user: UserId) {
    exists id :: Identifiers.NormalizeLoginIdentifier(raw) == Ok(id) && Names(users, contacts, id, user)
  }

  /** An identifier and a password authenticate a user exactly if the identifier names
      the user, the user is active in both columns and the password is accepted; every
      other input is answered alike. */
  lemma AuthenticatesIff(
    hasher: Hasher, a: Db, contacts: map<ContactId, Contact>, raw: string, value: string, user: UserId)
    requires OnlyName(a.users, contacts, raw)
    ensures var r := Identify(hasher, a, contacts, raw, value);
            && (r == Ok(user) <==>
                  && NamedBy(a.users, contacts, raw, user) && user in a.users && Active(a.users[user])
                  && Accepts(hasher, a, user, value))
            && (r.Err? ==> r.error == ErrUnauthenticated)
  {
    hide Identifiers.NormalizeLoginIdentifier, Names, Hasher.Verify;
    var id := Identifiers.NormalizeLoginIdentifier(raw);
    if id.Ok? {
      var found := Lookup(a.users, contacts, id.value);
      NameExists(a.users, contacts, id.value);
      if found.Some? {
        assert NamedBy(a.users, contacts, raw, found.value);
      }
    }
  }

  lemma NameExists(users: map<UserId, User>, contacts: map<ContactId, Contact>, id: Identifiers.LoginIdentifier)
    ensures forall u | Names(users, contacts, id, u) :: u in users
  {}

  lemma IdentifiesActive(hasher: Hasher, a: Db, contacts: map<ContactId, Contact>, raw: string, value: string)
    ensures var r := Identify(hasher, a, contacts, raw, value);
            && (r.Ok? ==> r.value in a.users && Active(a.users[r.value]) && Accepts(hasher, a, r.value, value))
            && (r.Err? ==> r.error == ErrUnauthenticated)
  {
    hide Identifiers.NormalizeLoginIdentifier, Hasher.Verify;
  }

  /** The credential `c'` is `c` under a hash of the value made by the current policy. */
  predicate IsUpgrade(
    hasher: Hasher, c: Credential, c': Credential, value: string, salt: Encoding.Bytes, changedAt: int, now: int)
  {
    && c'.hash.secret == value && c'.hash.scheme == hasher.primary && c'.hash.params == hasher.params
    && c'.hash.salt == salt
    && c'.changedAt == changedAt && c'.createdAt == c.createdAt && c'.updatedAt == now
  }

  /** The credentials after a successful check: a stale hash is replaced by one that is
      not, of the same value, and a current one stays; no other credential changes. */
  ghost predicate IsChecked(
    hasher: Hasher, a: Db, a': Db, user: UserId, value: string, salt: Encoding.Bytes, now: int)
  {
    && user in a.passwords && a'.passwords.Keys == a.passwords.Keys && a'.passwords - {user} == a.passwords - {user}
    && !hasher.NeedsRehash(a'.passwords[user].hash)
    && var c, c' := a.passwords[user], a'.passwords[user];
       && c.hash.secret == c'.hash.secret == value
       && if hasher.NeedsRehash(c.hash) then IsUpgrade(hasher, c, c', value, salt, c.changedAt, now) else c' == c
  }

  /** A check in a transaction succeeds exactly if the value is accepted, and upgrades a
      stale hash. */
  lemma CheckAnswers(hasher: Hasher, a: Db, now: int, user: UserId, value: string, salt: Encoding.Bytes)
    requires hasher.Valid()
    ensures var r := AuthenticateUser(hasher, a, now, user, value, salt);
            && (r.Ok? <==> Accepts(hasher, a, user, value))
            && (r.Err? ==> r.error == ErrUnauthenticated)
            && (r.Ok? ==>
                  && r.value.users == a.users && r.value.sessions == a.sessions
                  && IsChecked(hasher, a, r.value, user, value, salt, now))
  {}

  /** A check outside a transaction has something left to write exactly if the hash it
      read was stale, and writes it exactly if the row still holds that hash. */
  lemma LateUpgrade(
    hasher: Hasher, a: Db, contacts: map<ContactId, Contact>, raw: string, value: string, salt: Encoding.Bytes)
    ensures var r, user := AuthBegin(hasher, a, contacts, raw, value, salt), Identify(hasher, a, contacts, raw, value);
            && (r.Ok? <==> user.Ok?) && (r.Err? ==> r.error == ErrUnauthenticated)
            && (r.Ok? ==>
                  user.value in a.passwords &&
                  var hash := a.passwords[user.value].hash;
                  && hasher.Verify(hash, value)
                  && if hasher.NeedsRehash(hash)
                     then r.value.Some? && r.value.value.user == user.value && r.value.value.expected == hash
                          && r.value.value.next == hasher.Hash(value, salt)
                          && r.value.value.changedAt == a.passwords[user.value].changedAt
                     else r.value == None)
  {
    hide Identifiers.NormalizeLoginIdentifier, Names;
  }

  lemma UpgradeIsWritten(
    hasher: Hasher, passwords: map<UserId, Credential>, now: int, f: AuthFlight, value: string, salt: Encoding.Bytes)
    requires hasher.Valid() && f.next == hasher.Hash(value, salt)
    ensures var after := Rehash(passwords, now, f.user, f.expected, f.next, f.changedAt);
            if f.user in passwords && passwords[f.user].hash == f.expected
            then && after.Keys == passwords.Keys && after - {f.user} == passwords - {f.user}
                 && IsUpgrade(hasher, passwords[f.user], after[f.user], value, salt, f.changedAt, now)
                 && !hasher.NeedsRehash(after[f.user].hash)
            else after == passwords
  {}

  /** The row of a password just set. */
  ghost predicate IsSet(a: Db, a': Db, now: int, user: UserId, hash: PasswordHash) {
    && a'.passwords.Keys == a.passwords.Keys + {user} && a'.passwords - {user} == a.passwords - {user}
    && a'.passwords[user].hash == hash
    && a'.passwords[user].changedAt == now && a'.passwords[user].updatedAt == now
    && a'.passwords[user].createdAt == (if user in a.passwords then a.passwords[user].createdAt else now)
  }

  /** A password is reset exactly if the user exists and the policy allows it, which
      revokes every session of the user. */
  lemma ResetAnswers(a: Db, now: int, user: UserId, policy: Result<()>, hash: PasswordHash)
    ensures var r := ResetPassword(a, now, user, policy, hash);
            && (r.Ok? <==> user in a.users && policy.Ok?)
            && (r.Err? ==> if user !in a.users then r.error == ErrNotFound else policy == Err(r.error))
            && (r.Ok? ==>
                  && r.value.users == a.users && IsSet(a, r.value, now, user, hash)
                  && SessionsRevoked(a.sessions, r.value.sessions, {user}, now))
  {}

  /** A password is changed exactly if the user is active, gives the current one and
      the policy allows the next. */
  lemma ChangeAnswers(
    hasher: Hasher, a: Db, now: int, user: UserId, current: string, salt: Encoding.Bytes, policy: Result<()>,
    hash: PasswordHash)
    requires hasher.Valid()
    ensures var r := ChangePassword(hasher, a, now, user, current, salt, policy, hash);
            && (r.Ok? <==>
                  user in a.users && Active(a.users[user]) && Accepts(hasher, a, user, current) && policy.Ok?)
            && (r.Err? ==>
                  if user !in a.users then r.error == ErrNotFound
                  else if !Active(a.users[user]) then r.error == ErrDisabled
                  else if !Accepts(hasher, a, user, current) then r.error == ErrUnauthenticated
                  else policy == Err(r.error))
            && (r.Ok? ==>
                  && r.value.users == a.users && IsSet(a, r.value, now, user, hash)
                  && SessionsRevoked(a.sessions, r.value.sessions, {user}, now))
  {
    CheckAnswers(hasher, a, now, user, current, salt);
    hide AuthenticateUser, Hasher.Verify, Hasher.NeedsRehash;
    assert forall u: User :: u.IsActive() <==> Active(u);
  }

  // Sessions.

  /** The session is a new row of the user, live from now for the time to live, and the
      login is noted in the user's row. */
  ghost predicate IsOpened(cfg: Config, a: Db, a': Db, now: int, user: UserId, id: SessionId, token: string) {
    && id !in a.sessions && a'.sessions.Keys == a.sessions.Keys + {id} && a'.sessions - {id} == a.sessions
    && a'.sessions[id].user == user && a'.sessions[id].token == token && a'.sessions[id].revokedAt == None
    && a'.sessions[id].createdAt == now && a'.sessions[id].lastSeenAt == now
    && a'.sessions[id].expiresAt == now + cfg.ttl
    && user in a.users && a'.users.Keys == a.users.Keys && a'.users - {user} == a.users - {user}
    && a'.users[user] == a.users[user].(lastLoginAt := Some(now), updatedAt := now)
  }

  ghost predicate IsNew(ss: map<SessionId, Session>, id: SessionId, token: string) {
    id !in ss && forall s | s in ss :: ss[s].token != token
  }

  /** A session is opened exactly for an active user, under a binding the host can
      take, with an id and a token not in use. */
  lemma OpeningAnswers(
    cfg: Config, a: Db, now: int, user: UserId, id: SessionId, token: string, binding: Result<()>)
    ensures var r := OpenSession(cfg, a, now, user, id, token, binding);
            && (r.Ok? <==> user in a.users && Active(a.users[user]) && binding.Ok? && IsNew(a.sessions, id, token))
            && (r.Err? ==>
                  if user !in a.users then r.error == ErrNotFound
                  else if !Active(a.users[user]) then r.error == ErrDisabled
                  else if binding.Err? then r.error == binding.error
                  else r.error == ErrConflict)
            && (r.Ok? ==> r.value.passwords == a.passwords && IsOpened(cfg, a, r.value, now, user, id, token))
  {}

  /** A login succeeds exactly if the host's guard lets it, the input authenticates a
      user and a session can be opened; it upgrades a stale hash on the way. */
  lemma LoginAnswers(
    cfg: Config, a: Db, contacts: map<ContactId, Contact>, now: int, guard: Result<()>, raw: string, value: string,
    salt: Encoding.Bytes, session: SessionId, token: string, binding: Result<()>)
    requires cfg.Valid()
    ensures var r := Login(cfg, a, contacts, now, guard, raw, value, salt, session, token, binding);
            var user := Identify(cfg.hasher, a, contacts, raw, value);
            && (r.Ok? <==> guard.Ok? && user.Ok? && binding.Ok? && IsNew(a.sessions, session, token))
            && (r.Err? ==>
                  if guard.Err? then r.error == guard.error
                  else if user.Err? then r.error == ErrUnauthenticated
                  else if binding.Err? then r.error == binding.error
                  else r.error == ErrConflict)
            && (r.Ok? ==>
                  && r.value.1 == user.value && IsOpened(cfg, a, r.value.0, now, user.value, session, token)
                  && IsChecked(cfg.hasher, a, r.value.0, user.value, value, salt, now))
  {
    hide Hasher.Verify, Hasher.NeedsRehash, Hasher.Hash, Identifiers.NormalizeLoginIdentifier, Names, OpenSession,
      AuthenticateUser;
    var user := Identify(cfg.hasher, a, contacts, raw, value);
    IdentifiesActive(cfg.hasher, a, contacts, raw, value);
    hide Identify;
    if guard.Ok? && user.Ok? {
      CheckAnswers(cfg.hasher, a, now, user.value, value, salt);
      var a1 := AuthenticateUser(cfg.hasher, a, now, user.value, value, salt).value;
      OpeningAnswers(cfg, a1, now, user.value, session, token, binding);
    }
  }

  ghost predicate MayResolve(cfg: Config, a: Db, now: int, s: SessionId) {
    && s in a.sessions && a.sessions[s].revokedAt == None && now < a.sessions[s].expiresAt
    && !(cfg.idle > 0 && now - a.sessions[s].lastSeenAt >= cfg.idle)
    && a.sessions[s].user in a.users && Active(a.users[a.sessions[s].user])
  }

  /** A resolution is accepted exactly if the token has a session that is unrevoked, in
      time and not idle, whose binding matches and whose user is active; every refusal
      has its reason, looked for in this order. */
  lemma ResolutionAnswers(cfg: Config, a: Db, now: int, token: string, binding: Result<()>, s: SessionId)
    requires s in a.sessions && a.sessions[s].token == token
    requires forall t | t in a.sessions && a.sessions[t].token == token :: t == s
    ensures var r, row := ResolveBegin(cfg, a, now, token, binding), a.sessions[s];
            var idle := cfg.idle > 0 && now - row.lastSeenAt >= cfg.idle;
            && (r.Ok? <==> TrimSpace(token) != "" && MayResolve(cfg, a, now, s) && binding.Ok?)
            && (r.Err? ==>
                  if TrimSpace(token) == "" then r.error == ErrUnauthenticated
                  else if row.revokedAt.Some? then r.error == ErrRevoked
                  else if row.expiresAt <= now || idle then r.error == ErrExpired
                  else if binding.Err? then r.error == binding.error
                  else r.error == ErrUnauthenticated)
            && (r.Ok? ==> r.value == ResolveFlight(s, row.user, a.users[row.user], row.createdAt, row.expiresAt,
                                                   row.lastSeenAt, now))
  {
    hide TrimSpace;
    assert ByToken(a.sessions, token) == Some(s);
  }

  lemma UnknownTokenIsRefused(cfg: Config, a: Db, now: int, token: string, binding: Result<()>)
    requires forall s | s in a.sessions :: a.sessions[s].token != token
    ensures ResolveBegin(cfg, a, now, token, binding) == Err(ErrUnauthenticated)
    ensures Revoke(a, now, token) == Err(if TrimSpace(token) == "" then ErrUnauthenticated else ErrNotFound)
  {
    hide TrimSpace;
  }

  ghost predicate IsTouched(
    cfg: Config, ss: map<SessionId, Session>, ss': map<SessionId, Session>, f: ResolveFlight)
  {
    && ss'.Keys == ss.Keys && ss' - {f.session} == ss - {f.session}
    && (f.session in ss ==>
          var row := ss[f.session];
          ss'[f.session] ==
            if (cfg.touch == 0 || f.readAt - f.seenAt >= cfg.touch) && row.revokedAt == None
               && row.lastSeenAt <= f.readAt - cfg.touch
            then row.(lastSeenAt := f.readAt) else row)
  }

  /** A resolution moves its session forward exactly if the interval had passed when it
      read the row, the row is still there and unrevoked, and nobody moved it since
      past the start of the interval. */
  lemma TouchAnswers(cfg: Config, ss: map<SessionId, Session>, f: ResolveFlight)
    ensures IsTouched(cfg, ss, ResolveTouch(cfg, ss, f), f)
  {}

  /** Revoking a token or an id marks its row, whatever state it is in, and no other. */
  lemma RevocationAnswers(a: Db, now: int, token: string, s: SessionId)
    requires s in a.sessions && a.sessions[s].token == token
    requires forall t | t in a.sessions && a.sessions[t].token == token :: t == s
    ensures var r := Revoke(a, now, token);
            && (r.Ok? <==> TrimSpace(token) != "")
            && (r.Err? ==> r.error == ErrUnauthenticated)
            && (r.Ok? ==> r.value.users == a.users && r.value.passwords == a.passwords
                          && IsRevoked(a.sessions, r.value.sessions, s, now))
    ensures RevokeRow(a.sessions, s, now).Ok? && IsRevoked(a.sessions, RevokeRow(a.sessions, s, now).value, s, now)
  {
    hide TrimSpace;
    assert ByToken(a.sessions, token) == Some(s);
  }

  ghost predicate IsRevoked(ss: map<SessionId, Session>, ss': map<SessionId, Session>, s: SessionId, now: int) {
    && s in ss && ss'.Keys == ss.Keys && ss' - {s} == ss - {s}
    && ss'[s] == ss[s].(revokedAt := Some(now), lastSeenAt := now)
  }

  lemma RevokingUsersAnswers(ss: map<SessionId, Session>, users: set<UserId>, now: int)
    ensures SessionsRevoked(ss, RevokeUsers(ss, users, now), users, now)
  {}

  lemma ExpiryAnswers(ss: map<SessionId, Session>, now: int, s: SessionId)
    ensures var after := WithoutExpired(ss, now);
            (s in after <==> s in ss && now < ss[s].expiresAt) && (s in after ==> after[s] == ss[s])
  {}

  // Accounts.

  /** A user is registered exactly if the policy allows the password, the user can be
      created and every default role exists; the user then has this password and
      exactly the default roles, and nobody else is affected. */
  lemma RegistrationAnswers(
    cfg: Config, a: Db, r: Rbac.Db, now: int, id: UserId, raw: string, state: UserState, policy: Result<()>,
    hash: PasswordHash)
    requires Rbac.Inv(a.users.Keys, r)
    ensures var result, users := Register(cfg, a, r, now, id, raw, state, policy, hash),
                                 CreateUser(a.users, now, id, raw, state);
            && (result.Ok? <==>
                  && policy.Ok? && users.Ok?
                  && forall i | 0 <= i < |cfg.defaultRoles| :: HasRow(r.roles, cfg.defaultRoles[i]))
            && (result.Err? ==>
                  if policy.Err? then result.error == policy.error
                  else if users.Err? then result.error == users.error
                  else result.error in {ErrInvalid, ErrNotFound})
            && (result.Ok? ==> IsRegistered(a, result.value.0, r, result.value.1, users.value, now, id, hash))
            && (result.Ok? ==> forall code ::
                  code in Rbac.RoleCodes(result.value.1, id) <==> Rbac.IsRequested(cfg.defaultRoles, code))
  {
    CreationAnswers(a.users, now, id, raw, state);
    hide CreateUser, Rbac.Inv, Rbac.RoleCodes, Rbac.IsRequested, Rbac.Code, Identifiers.Username;
    var users := CreateUser(a.users, now, id, raw, state);
    if users.Ok? {
      RolesAnswer(a.users.Keys, users.value.Keys, r, id, cfg.defaultRoles);
      hide Rbac.SetUserRoles;
    }
  }

  ghost predicate IsRegistered(
    a: Db, a': Db, r: Rbac.Db, r': Rbac.Db, users: map<UserId, User>, now: int, id: UserId, hash: PasswordHash)
  {
    && a'.users == users && a'.sessions == a.sessions && IsSet(a, a', now, id, hash)
    && (forall other | other != id :: Rbac.RoleCodes(r', other) == Rbac.RoleCodes(r, other))
    && r'.roles == r.roles && r'.permissions == r.permissions && r'.rolePermissions == r.rolePermissions
  }

  lemma RolesAnswer(users: set<UserId>, users': set<UserId>, r: Rbac.Db, id: UserId, codes: seq<string>)
    requires Rbac.Inv(users, r) && users <= users' && id in users' && id !in users
    ensures var result := Rbac.SetUserRoles(users', r, id, codes);
            && (result.Ok? <==> forall i | 0 <= i < |codes| :: HasRow(r.roles, codes[i]))
            && (result.Err? ==> result.error in {ErrInvalid, ErrNotFound})
            && (result.Ok? ==>
                  && (forall code :: code in Rbac.RoleCodes(result.value, id) <==> Rbac.IsRequested(codes, code))
                  && (forall other | other != id :: Rbac.RoleCodes(result.value, other) == Rbac.RoleCodes(r, other))
                  && result.value == r.(userRoles := result.value.userRoles))
    ensures Rbac.RoleCodes(r, id) == {} && forall code :: !Rbac.IsRequested([], code)
  {
    Rbac.MoreUsersKeeps(users, users', r);
    var result := Rbac.SetUserRoles(users', r, id, codes);
    if result.Ok? {
      Rbac.SetUserRolesIsExact(users', r, id, codes);
    }
    ResolvesIff(r.roles, codes);
    assert forall l | l in r.userRoles :: l.0 in users;
    hide Rbac.Code, Rbac.Inv;
  }

  /** A user is provisioned exactly with at least one code, all well formed and of
      existing roles, in the active state, with an allowed password. */
  lemma ProvisionAnswers(
    a: Db, r: Rbac.Db, now: int, id: UserId, raw: string, state: UserState, policy: Result<()>, hash: PasswordHash,
    codes: seq<string>)
    requires Rbac.Inv(a.users.Keys, r)
    ensures var result, users := Provision(a, r, now, id, raw, state, policy, hash, codes),
                                 CreateUser(a.users, now, id, raw, state);
            var wellFormed := forall i | 0 <= i < |codes| :: Rbac.Code(codes[i]).Ok?;
            && (result.Ok? <==>
                  && codes != [] && wellFormed && state == UserState.Active && policy.Ok?
                  && (forall i | 0 <= i < |codes| :: HasRow(r.roles, codes[i])) && users.Ok?)
            && (result.Err? ==>
                  if codes == [] || !wellFormed then result.error == ErrInvalid
                  else if state != UserState.Active then result.error == ErrInvalidState
                  else if policy.Err? then result.error == policy.error
                  else if !(forall i | 0 <= i < |codes| :: HasRow(r.roles, codes[i])) then result.error == ErrNotFound
                  else users == Err(result.error))
            && (result.Ok? ==> IsRegistered(a, result.value.0, r, result.value.1, users.value, now, id, hash))
  {
    hide CreateUser, Rbac.Inv, Rbac.RoleCodes, Rbac.IsRequested, Rbac.Code, Rbac.SetUserRoles, Rbac.Resolve, HasRow,
      Identifiers.Username;
    CreationAnswers(a.users, now, id, raw, state);
    Rbac.ResolveOkIff(r.roles, codes);
    ResolvesIff(r.roles, codes);
    var users := CreateUser(a.users, now, id, raw, state);
    if users.Ok? {
      RolesAnswer(a.users.Keys, users.value.Keys, r, id, codes);
    }
  }

  /** Registering with a login is registering and then opening a session, or neither. */
  lemma RegisterAndLoginAnswers(
    cfg: Config, a: Db, r: Rbac.Db, now: int, id: UserId, raw: string, state: UserState, policy: Result<()>,
    hash: PasswordHash, session: SessionId, token: string, binding: Result<()>)
    requires Rbac.Inv(a.users.Keys, r)
    ensures var result := RegisterAndLogin(cfg, a, r, now, id, raw, state, policy, hash, session, token, binding);
            var first := Register(cfg, a, r, now, id, raw, state, policy, hash);
            && (result.Ok? <==>
                  && first.Ok? && state == UserState.Active && binding.Ok? && IsNew(a.sessions, session, token))
            && (result.Err? && first.Ok? ==>
                  if state == Disabled then result.error == ErrDisabled
                  else if binding.Err? then result.error == binding.error
                  else result.error == ErrConflict)
            && (result.Err? && first.Err? ==> result.error == first.error)
            && (result.Ok? ==>
                  && IsOpened(cfg, first.value.0, result.value.0, now, id, session, token)
                  && result.value.0.passwords == first.value.0.passwords && result.value.1 == first.value.1)
  {
    RegistrationAnswers(cfg, a, r, now, id, raw, state, policy, hash);
    CreationAnswers(a.users, now, id, raw, state);
    hide Register, CreateUser, OpenSession, Rbac.Inv, Rbac.RoleCodes, Rbac.IsRequested, HasRow, Identifiers.Username;
    var first := Register(cfg, a, r, now, id, raw, state, policy, hash);
    if first.Ok? {
      OpeningAnswers(cfg, first.value.0, now, id, session, token, binding);
    }
  }
}
