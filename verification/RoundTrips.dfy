/** What one account operation means for the next: registering and logging in,
    setting a password and checking one, opening a session and resolving its token. */
module RoundTrips {
  import opened Types
  import opened Strings
  import opened Accounts
  import Encoding
  import Identifiers
  import Rbac
  import Repository

  // Registering.

  /** A user registered as active authenticates under the normalized username with
      exactly the password given, whatever contacts are bound. */
  lemma RegisteredAuthenticates(
    cfg: Config, a: Db, r: Rbac.Db, contacts: map<ContactId, Contact>, now: int, id: UserId, raw: string,
    policy: Result<()>, password: string, salt: Encoding.Bytes, value: string)
    requires cfg.Valid()
    requires Register(cfg, a, r, now, id, raw, Active, policy, cfg.hasher.Hash(password, salt)).Ok?
    ensures Identifiers.Username(raw).Ok?
    ensures var after := Register(cfg, a, r, now, id, raw, Active, policy, cfg.hasher.Hash(password, salt)).value.0;
            Identify(cfg.hasher, after, contacts, Identifiers.Username(raw).value, value)
            == if value == password then Ok(id) else Err(ErrUnauthenticated)
  {
    var after := Register(cfg, a, r, now, id, raw, Active, policy, cfg.hasher.Hash(password, salt)).value.0;
    var name := Identifiers.Username(raw).value;
    Identifiers.NormalizedUsername(raw);
    Identifiers.UsernameResolves(name);
    RegisteredUser(cfg, a, r, now, id, raw, policy, cfg.hasher.Hash(password, salt));
    hide Register, Identifiers.Username, Identifiers.NormalizeLoginIdentifier;
    var identifier := Identifiers.LoginIdentifier(Identifiers.ByUsername, name);
    assert Names(after.users, contacts, identifier, id);
    var found := Lookup(after.users, contacts, identifier);
    assert found == Some(id);
  }

  lemma RegisteredUser(
    cfg: Config, a: Db, r: Rbac.Db, now: int, id: UserId, raw: string, policy: Result<()>, hash: PasswordHash)
    requires Register(cfg, a, r, now, id, raw, Active, policy, hash).Ok?
    ensures Identifiers.Username(raw).Ok?
    ensures var after, name := Register(cfg, a, r, now, id, raw, Active, policy, hash).value.0,
                               Identifiers.Username(raw).value;
            && id in after.users && after.users[id].IsActive() && after.users[id].username == name
            && (forall u | u in after.users && after.users[u].username == name :: u == id)
            && id in after.passwords && after.passwords[id].hash == hash
  {
    hide Rbac.SetUserRoles, Identifiers.Username;
  }

  /** A provisioned user is active, has the password given and exactly the normalized
      requested roles; the roles of everyone else stay. */
  lemma ProvisionIsExact(
    cfg: Config, a: Db, r: Rbac.Db, now: int, id: UserId, raw: string, state: UserState, policy: Result<()>,
    password: string, salt: Encoding.Bytes, codes: seq<string>)
    requires cfg.Valid() && Rbac.Inv(a.users.Keys, r)
    requires Provision(a, r, now, id, raw, state, policy, cfg.hasher.Hash(password, salt), codes).Ok?
    ensures var (a1, r1) := Provision(a, r, now, id, raw, state, policy, cfg.hasher.Hash(password, salt), codes).value;
            && id !in a.users && id in a1.users && a1.users[id].IsActive() && a1.users - {id} == a.users
            && (forall value :: CheckPassword(cfg.hasher, a1, id, value).Ok? <==> value == password)
            && (forall code :: code in Rbac.RoleCodes(r1, id) <==> Rbac.IsRequested(codes, code))
            && (forall other | other != id :: Rbac.RoleCodes(r1, other) == Rbac.RoleCodes(r, other))
  {
    hide CreateUser, Rbac.SetUserRoles, Rbac.Code, Rbac.Resolve, Rbac.Inv, Rbac.RoleCodes, Rbac.IsRequested;
    CreatedUser(a.users, now, id, raw, state);
    var users := CreateUser(a.users, now, id, raw, state).value;
    Rbac.MoreUsersKeeps(a.users.Keys, users.Keys, r);
    Rbac.SetUserRolesIsExact(users.Keys, r, id, codes);
  }

  lemma CreatedUser(users: map<UserId, User>, now: int, id: UserId, raw: string, state: UserState)
    ensures var created := CreateUser(users, now, id, raw, state);
            created.Ok? ==>
              && id !in users && id in created.value && created.value - {id} == users
              && (created.value[id].IsActive() <==> state == Active)
              && created.value.Keys == users.Keys + {id}
  {
    hide Identifiers.Username;
  }

  // Passwords.

  /** A hash verifies exactly the value it was made from, and of the hashes that verify
      anything exactly those made by the current policy need no rehash. */
  lemma OnlyCurrentHashesStay(hasher: Hasher, hash: PasswordHash, value: string, salt: Encoding.Bytes)
    requires hasher.Valid()
    ensures hasher.Verify(hasher.Hash(value, salt), hash.secret) <==> hash.secret == value
    ensures !hasher.NeedsRehash(hasher.Hash(value, salt))
    ensures hasher.Verify(hash, value) ==>
              (!hasher.NeedsRehash(hash) <==> hash == hasher.Hash(value, hash.salt))
    ensures hash.scheme in hasher.fallbacks && hash.secret == value ==> hasher.Verify(hash, value)
  {}

  /** After a password is set, exactly it is accepted and no session of the user is
      live; nobody else's credential or session changed. */
  lemma SetPasswordIsExact(
    hasher: Hasher, a: Db, now: int, id: UserId, policy: Result<()>, next: string, salt: Encoding.Bytes)
    requires hasher.Valid() && ReplacePassword(a, now, id, policy, hasher.Hash(next, salt)).Ok?
    ensures var after := ReplacePassword(a, now, id, policy, hasher.Hash(next, salt)).value;
            && (forall value :: CheckPassword(hasher, after, id, value).Ok? <==> value == next)
            && after.users == a.users && after.passwords - {id} == a.passwords - {id}
            && after.sessions.Keys == a.sessions.Keys
            && (forall s | s in after.sessions && a.sessions[s].user == id :: after.sessions[s].revokedAt.Some?)
            && (forall s | s in after.sessions && a.sessions[s].user != id :: after.sessions[s] == a.sessions[s])
  {}

  /** Changing a password takes the current one and leaves the store as resetting it
      would. */
  lemma ChangeIsCheckedReset(
    hasher: Hasher, a: Db, now: int, id: UserId, current: string, salt: Encoding.Bytes, policy: Result<()>,
    next: string, nextSalt: Encoding.Bytes)
    requires hasher.Valid()
    ensures var change := ChangePassword(hasher, a, now, id, current, salt, policy, hasher.Hash(next, nextSalt));
            var reset := ResetPassword(a, now, id, policy, hasher.Hash(next, nextSalt));
            && (change.Ok? <==>
                  reset.Ok? && a.users[id].IsActive() && CheckPassword(hasher, a, id, current).Ok?)
            && (change.Ok? ==> change.value == reset.value)
  {
    if id in a.users && AuthenticateUser(hasher, a, now, id, current, salt).Ok? {
      var a1 := AuthenticateUser(hasher, a, now, id, current, salt).value;
      hide Hasher.Verify, Hasher.NeedsRehash, Hasher.Hash, RevokeUsers;
      var hash := hasher.Hash(next, nextSalt);
      if policy.Ok? {
        assert SetHash(a1, now, id, hash).value.passwords == SetHash(a, now, id, hash).value.passwords;
      }
    }
  }

  // Sessions.

  /** The moment from which an untouched session is refused. */
  function Deadline(cfg: Config, openedAt: int): int {
    if 0 < cfg.idle < cfg.ttl then openedAt + cfg.idle else openedAt + cfg.ttl
  }

  /** The token of a session just opened resolves to its user until the session runs
      out, by time to live or by idling, and is refused as expired from then on. */
  lemma IssuedTokenResolves(
    cfg: Config, a: Db, now: int, user: UserId, id: SessionId, token: string, binding: Result<()>, later: int)
    requires cfg.Valid() && TrimSpace(token) != "" && now <= later
    requires OpenSession(cfg, a, now, user, id, token, binding).Ok?
    ensures var after := OpenSession(cfg, a, now, user, id, token, binding).value;
            var r := ResolveBegin(cfg, after, later, token, Ok(()));
            && (if later < Deadline(cfg, now)
                then r.Ok? && r.value.user == user && r.value.session == id && r.value.expiresAt == now + cfg.ttl
                else r == Err(ErrExpired))
  {
    var after := OpenSession(cfg, a, now, user, id, token, binding).value;
    OpenedSession(cfg, a, now, user, id, token, binding);
    hide OpenSession, TrimSpace;
    assert id in after.sessions && after.sessions[id].token == token;
    var found := ByToken(after.sessions, token);
    assert found == Some(id);
  }

  lemma OpenedSession(
    cfg: Config, a: Db, now: int, user: UserId, id: SessionId, token: string, binding: Result<()>)
    requires OpenSession(cfg, a, now, user, id, token, binding).Ok?
    ensures var after := OpenSession(cfg, a, now, user, id, token, binding).value;
            && after.sessions == a.sessions[id := Session(user, token, now, now + cfg.ttl, now, None)]
            && user in after.users && after.users[user].IsActive()
    ensures forall s | s in a.sessions :: a.sessions[s].token != token
  {}

  /** A revoked token is refused as such, at any time and for any request. */
  lemma RevokedTokenIsRefused(cfg: Config, a: Db, now: int, token: string, later: int, binding: Result<()>)
    requires Repository.TokensUnique(a.sessions) && Revoke(a, now, token).Ok?
    ensures ResolveBegin(cfg, Revoke(a, now, token).value, later, token, binding) == Err(ErrRevoked)
  {
    hide TrimSpace;
    var id := ByToken(a.sessions, token).value;
    var after := Revoke(a, now, token).value;
    assert id in after.sessions && after.sessions[id].token == token;
    assert ByToken(after.sessions, token) == Some(id);
  }
}
