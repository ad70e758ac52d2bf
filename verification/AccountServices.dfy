/** The account services (`user.go`, `password.go`, `session.go`, `authorization.go`
    and `account.go` of `internal/identity/service`) as they run: statements in order,
    a transaction undone when its callback fails, events emitted after the commit.
    Each method is proved against the function of the same name in `Accounts` or
    `Rbac`, the meaning that the protocol is built from. */
module AccountServices {
  import opened Types
  import opened Strings
  import opened Repository
  import AccountOutcomes
  import Accounts
  import Claims
  import Encoding
  import Identifiers
  import Rbac

  /** The events whose number is at stake; the sink gets others besides. */
  datatype Event = UserCreated(user: UserId) | UserDeleted(user: UserId) | SessionCreated(session: SessionId)

  class EventSink {
    var events: seq<Event>

    constructor ()
      ensures events == []
    {
      events := [];
    }

    method Emit(event: Event)
      modifies this
      ensures events == old(events) + [event]
    {
      events := events + [event];
    }

    method EmitDeletions(users: seq<UserId>)
      modifies this
      ensures events == old(events) + Deletions(users)
    {
      for i := 0 to |users|
        invariant events == old(events) + Deletions(users[..i])
      {
        Emit(UserDeleted(users[i]));
      }
      assert users[..|users|] == users;
    }
  }

  function Deletions(ids: seq<UserId>): seq<Event> {
    seq(|ids|, i requires 0 <= i < |ids| => UserDeleted(ids[i]))
  }

  /** The ids without repetition, in first-occurrence order. */
  method NormalizeUserIds(ids: seq<UserId>) returns (out: seq<UserId>)
    ensures IsDistinct(out) && Accounts.AsSet(out) == Accounts.AsSet(ids)
    ensures out == [] <==> ids == []
    ensures |out| == |Accounts.AsSet(ids)|
  {
    out := [];
    var seen: set<UserId> := {};
    for i := 0 to |ids|
      invariant IsDistinct(out) && seen == Accounts.AsSet(out) == Accounts.AsSet(ids[..i])
      invariant |out| == |seen|
    {
      assert Accounts.AsSet(ids[..i + 1]) == Accounts.AsSet(ids[..i]) + {ids[i]};
      if ids[i] in seen {
        continue;
      }
      seen := seen + {ids[i]};
      out := out + [ids[i]];
    }
    assert ids[..|ids|] == ids;
    assert ids != [] ==> ids[0] in Accounts.AsSet(ids);
  }

  class UserService {
    const store: Store
    const events: EventSink?

    constructor (store: Store, events: EventSink?)
      ensures this.store == store && this.events == events
    {
      this.store, this.events := store, events;
    }

    method Create(now: int, id: UserId, raw: string, state: UserState) returns (r: Result<()>)
      requires store.Valid()
      modifies store`users, (if events == null then {} else {events})
      ensures store.Valid()
      ensures var created := Accounts.CreateUser(old(store.users), now, id, raw, state);
              && (r.Ok? <==> created.Ok?) && (r.Err? ==> r.error == created.error)
              && store.users == if created.Ok? then created.value else old(store.users)
      ensures events != null ==> events.events == old(events.events) + if r.Ok? then [UserCreated(id)] else []
    {
      hide ValidTables, Identifiers.Username;
      var username :- Identifiers.NormalizeUsername(raw);
      var disabledAt := if state == Disabled then Some(now) else None;
      r := store.CreateUser(id, User(username, state, disabledAt, now, None, now));
      if r.Ok? && events != null {
        events.Emit(UserCreated(id));
      }
    }

    method MarkLogin(now: int, id: UserId) returns (r: Result<()>)
      requires store.Valid()
      modifies store`users
      ensures store.Valid()
      ensures var marked := Accounts.MarkLogin(old(store.users), now, id);
              && (r.Ok? <==> marked.Ok?) && (r.Err? ==> r.error == marked.error)
              && store.users == if marked.Ok? then marked.value else old(store.users)
    {
      r := store.MarkUserLogin(id, now);
    }

    method SetState(now: int, ids: seq<UserId>, state: UserState) returns (r: Result<()>)
      requires store.Valid()
      modifies store
      ensures store.Valid()
      ensures var changed := Accounts.SetState(old(store.AccountTables()), now, ids, state);
              && (r.Ok? <==> changed.Ok?) && (r.Err? ==> r.error == changed.error)
              && store.Snapshot()
                 == if changed.Ok? then old(store.Snapshot()).(accounts := changed.value) else old(store.Snapshot())
      ensures r.Ok? ==>
                AccountOutcomes.IsStateSet(old(store.AccountTables()), store.AccountTables(), now, ids, state)
    {
      hide ValidTables, Accounts.WithState, Accounts.RevokeUsers, AccountOutcomes.IsStateSet;
      AccountOutcomes.StateIsWritten(store.AccountTables(), now, ids, state);
      if ids == [] {
        return Err(ErrEmptySelection);
      }
      var distinct := NormalizeUserIds(ids);
      var before := store.Snapshot();
      var updated := store.UpdateUserState(distinct, state, now);
      AllFoundIff(Accounts.AsSet(ids), before.accounts.users.Keys);
      if updated.value != |distinct| {
        store.Restore(before);
        return Err(ErrNotFound);
      }
      if state == Disabled {
        store.RevokeSessionsForUsers(distinct, now);
      }
      return Ok(());
    }

    method DeleteUsers(ids: seq<UserId>, participant: Result<()>) returns (r: Result<()>)
      requires store.Valid()
      modifies store, (if events == null then {} else {events})
      ensures store.Valid()
      ensures var deleted := Accounts.DeleteUsers(old(store.AccountTables()), ids, participant);
              && (r.Ok? <==> deleted.Ok?) && (r.Err? ==> r.error == deleted.error)
      ensures store.Snapshot()
           == if r.Ok? then WithoutUsers(old(store.Snapshot()), Accounts.AsSet(ids)) else old(store.Snapshot())
      ensures events != null ==>
                exists deleted: seq<UserId> :: IsDistinct(deleted)
                  && Accounts.AsSet(deleted) == (if r.Ok? then Accounts.AsSet(ids) else {})
                  && events.events == old(events.events) + Deletions(deleted)
    {
      hide ValidTables, WithoutUsers, Accounts.WithoutUsers;
      assert Deletions([]) == [];
      assert IsDistinct([]) && Accounts.AsSet([]) == {};
      if ids == [] {
        return Err(ErrEmptySelection);
      }
      var distinct := NormalizeUserIds(ids);
      var before := store.Snapshot();
      for i := 0 to |distinct|
        invariant Accounts.AsSet(distinct[..i]) <= before.accounts.users.Keys && store.Snapshot() == before
        invariant events != null ==> events.events == old(events.events)
      {
        assert Accounts.AsSet(distinct[..i + 1]) == Accounts.AsSet(distinct[..i]) + {distinct[i]};
        if distinct[i] !in store.users {
          assert distinct[i] in Accounts.AsSet(distinct);
          return Err(ErrNotFound);
        }
      }
      assert distinct[..|distinct|] == distinct;
      if participant.Err? {
        return participant;
      }
      r := store.DeleteUsers(distinct);
      if r.Ok? && events != null {
        events.EmitDeletions(distinct);
      }
    }
  }

  // Passwords.

  class PasswordService {
    const store: Store
    const hasher: Accounts.Hasher

    constructor (store: Store, hasher: Accounts.Hasher)
      ensures this.store == store && this.hasher == hasher
    {
      this.store, this.hasher := store, hasher;
    }

    method AuthenticateUser(now: int, id: UserId, value: string, salt: Encoding.Bytes) returns (r: Result<()>)
      requires store.Valid()
      modifies store`passwords
      ensures store.Valid()
      ensures var done := Accounts.AuthenticateUser(hasher, old(store.AccountTables()), now, id, value, salt);
              && (r.Ok? <==> done.Ok?) && (r.Err? ==> r.error == done.error)
              && store.AccountTables() == if done.Ok? then done.value else old(store.AccountTables())
    {
      hide ValidTables, Accounts.Rehash;
      if id !in store.passwords {
        return Err(ErrUnauthenticated);
      }
      var c := store.passwords[id];
      if !hasher.Verify(c.hash, value) {
        return Err(ErrUnauthenticated);
      }
      if hasher.NeedsRehash(c.hash) {
        var _ := store.UpdatePasswordCredentialIfMatch(id, c.hash, hasher.Hash(value, salt), c.changedAt, now);
      }
      return Ok(());
    }

    /** Who may be authenticated under an identifier. */
    method FindActive(raw: string) returns (r: Result<UserId>)
      requires store.Valid()
      ensures r.Err? ==> r.error == ErrUnauthenticated
      ensures forall value :: Accounts.Identify(hasher, store.AccountTables(), store.contacts, raw, value)
                == if r.Err? then Err(ErrUnauthenticated)
                   else if Accounts.CheckPassword(hasher, store.AccountTables(), r.value, value).Err?
                   then Err(ErrUnauthenticated) else r
      ensures r.Ok? ==> r.value in store.users
    {
      hide Identifiers.NormalizeLoginIdentifier, Identifiers.ValidateLoginIdentifier, ValidTables;
      var identifier := Identifiers.NormalizeLoginIdentifier(raw);
      if identifier.Err? {
        return Err(ErrUnauthenticated);
      }
      Identifiers.ProducedIsValid(raw);
      var user := store.GetUserByLoginIdentifier(identifier.value);
      if user.value.None? || !store.users[user.value.value].IsActive() {
        return Err(ErrUnauthenticated);
      }
      return Ok(user.value.value);
    }

    method Authenticate(now: int, raw: string, value: string, salt: Encoding.Bytes) returns (r: Result<UserId>)
      requires store.Valid()
      modifies store`passwords
      ensures store.Valid()
      ensures r == Accounts.Identify(hasher, old(store.AccountTables()), store.contacts, raw, value)
      ensures r.Err? ==> store.passwords == old(store.passwords)
      ensures r.Ok? ==>
                Ok(store.AccountTables())
                == Accounts.AuthenticateUser(hasher, old(store.AccountTables()), now, r.value, value, salt)
      ensures r.Ok? ==>
                && r.value in store.users && AccountOutcomes.Active(store.users[r.value])
                && AccountOutcomes.Accepts(hasher, old(store.AccountTables()), r.value, value)
    {
      hide ValidTables, Accounts.Identify, AccountOutcomes.Accepts;
      AccountOutcomes.IdentifiesActive(hasher, store.AccountTables(), store.contacts, raw, value);
      var user :- FindActive(raw);
      var checked := AuthenticateUser(now, user, value, salt);
      return if checked.Ok? then Ok(user) else Err(checked.error);
    }

    // Outside a transaction the two halves of a credential check can be overtaken.

    method AuthBegin(raw: string, value: string, salt: Encoding.Bytes) returns (r: Result<Option<Accounts.AuthFlight>>)
      requires store.Valid()
      ensures r == Accounts.AuthBegin(hasher, store.AccountTables(), store.contacts, raw, value, salt)
    {
      hide ValidTables, Accounts.Identify;
      var user :- FindActive(raw);
      if user !in store.passwords || !hasher.Verify(store.passwords[user].hash, value) {
        return Err(ErrUnauthenticated);
      }
      var c := store.passwords[user];
      if hasher.NeedsRehash(c.hash) {
        return Ok(Some(Accounts.AuthFlight(user, c.hash, hasher.Hash(value, salt), c.changedAt)));
      }
      return Ok(None);
    }

    method AuthFinish(now: int, flight: Accounts.AuthFlight)
      requires store.Valid()
      modifies store`passwords
      ensures store.Valid()
      ensures store.passwords
           == Accounts.Rehash(old(store.passwords), now, flight.user, flight.expected, flight.next, flight.changedAt)
    {
      var _ := store.UpdatePasswordCredentialIfMatch(flight.user, flight.expected, flight.next, flight.changedAt, now);
    }
  }

  // Sessions.

  class SessionService {
    const store: Store
    const cfg: Accounts.Config
    const events: EventSink?

    constructor (store: Store, cfg: Accounts.Config, events: EventSink?)
      ensures this.store == store && this.cfg == cfg && this.events == events
    {
      this.store, this.cfg, this.events := store, cfg, events;
    }

    method Create(now: int, user: UserId, id: SessionId, token: string, binding: Result<()>) returns (r: Result<()>)
      requires store.Valid()
      modifies store`sessions, (if events == null then {} else {events})
      ensures store.Valid()
      ensures var created := Accounts.CreateSession(cfg, old(store.AccountTables()), now, user, id, token, binding);
              && (r.Ok? <==> created.Ok?) && (r.Err? ==> r.error == created.error)
              && store.AccountTables() == if created.Ok? then created.value else old(store.AccountTables())
      ensures events != null ==> events.events == old(events.events) + if r.Ok? then [SessionCreated(id)] else []
    {
      hide ValidTables;
      if user !in store.users {
        return Err(ErrNotFound);
      }
      if !store.users[user].IsActive() {
        return Err(ErrDisabled);
      }
      if binding.Err? {
        return binding;
      }
      r := store.CreateSession(id, Accounts.Session(user, token, now, now + cfg.ttl, now, None));
      if r.Ok? && events != null {
        events.Emit(SessionCreated(id));
      }
    }

    /** Up to the touch. */
    method ResolveBegin(now: int, token: string, binding: Result<()>) returns (r: Result<Accounts.ResolveFlight>)
      requires store.Valid()
      ensures r == Accounts.ResolveBegin(cfg, store.AccountTables(), now, token, binding)
    {
      hide ValidTables;
      if TrimSpace(token) == "" {
        return Err(ErrUnauthenticated);
      }
      var found := store.GetSessionByTokenHash(token);
      if found.None? {
        return Err(ErrUnauthenticated);
      }
      var s := store.sessions[found.value];
      if s.revokedAt.Some? {
        return Err(ErrRevoked);
      }
      if s.expiresAt <= now {
        return Err(ErrExpired);
      }
      if cfg.idle > 0 && now - s.lastSeenAt >= cfg.idle {
        return Err(ErrExpired);
      }
      var _ :- binding;
      if s.user !in store.users || !store.users[s.user].IsActive() {
        return Err(ErrUnauthenticated);
      }
      return Ok(Accounts.ResolveFlight(found.value, s.user, store.users[s.user], s.createdAt, s.expiresAt, s.lastSeenAt,
                                       now));
    }

    method ResolveTouch(flight: Accounts.ResolveFlight)
      requires store.Valid()
      modifies store`sessions
      ensures store.Valid() && store.sessions == Accounts.ResolveTouch(cfg, old(store.sessions), flight)
    {
      hide ValidTables;
      if cfg.touch == 0 || flight.readAt - flight.seenAt >= cfg.touch {
        store.TouchSession(flight.session, flight.readAt - cfg.touch, flight.readAt);
      }
    }

    method Revoke(now: int, token: string) returns (r: Result<()>)
      requires store.Valid()
      modifies store`sessions
      ensures store.Valid()
      ensures var revoked := Accounts.Revoke(old(store.AccountTables()), now, token);
              && (r.Ok? <==> revoked.Ok?) && (r.Err? ==> r.error == revoked.error)
              && store.AccountTables() == if revoked.Ok? then revoked.value else old(store.AccountTables())
    {
      hide ValidTables;
      if TrimSpace(token) == "" {
        return Err(ErrUnauthenticated);
      }
      var found := store.GetSessionByTokenHash(token);
      if found.None? {
        return Err(ErrNotFound);
      }
      r := store.RevokeSession(found.value, now);
    }

    method RevokeById(now: int, id: SessionId) returns (r: Result<()>)
      requires store.Valid()
      modifies store`sessions
      ensures store.Valid()
      ensures var revoked := Accounts.RevokeRow(old(store.sessions), id, now);
              && (r.Ok? <==> revoked.Ok?) && (r.Err? ==> r.error == revoked.error)
              && store.sessions == if revoked.Ok? then revoked.value else old(store.sessions)
    {
      r := store.RevokeSession(id, now);
    }

    method DeleteExpired(now: int) returns (count: nat)
      requires store.Valid()
      modifies store`sessions
      ensures store.Valid() && store.sessions == Accounts.WithoutExpired(old(store.sessions), now)
      ensures count == |old(store.sessions)| - |store.sessions|
    {
      count := store.DeleteExpiredSessions(now);
    }

    method RevokeForUsers(now: int, ids: seq<UserId>)
      requires store.Valid()
      modifies store`sessions
      ensures store.Valid() && store.sessions == Accounts.RevokeUsers(old(store.sessions), Accounts.AsSet(ids), now)
    {
      var distinct := NormalizeUserIds(ids);
      store.RevokeSessionsForUsers(distinct, now);
    }
  }

  // Roles.

  class AuthorizationService {
    const store: Store
    const defaultRoles: seq<string>

    constructor (store: Store, defaultRoles: seq<string>)
      ensures this.store == store && this.defaultRoles == defaultRoles
    {
      this.store, this.defaultRoles := store, defaultRoles;
    }

    method ReplaceUserRoles(user: UserId, codes: seq<string>) returns (r: Result<()>)
      requires store.Valid()
      modifies store`userRoles
      ensures store.Valid()
      ensures var done := Rbac.SetUserRoles(store.users.Keys, old(store.RoleTables()), user, codes);
              && (r.Ok? <==> done.Ok?) && (r.Err? ==> r.error == done.error)
              && store.RoleTables() == if done.Ok? then done.value else old(store.RoleTables())
    {
      hide ValidTables, Rbac.Code;
      if user !in store.users {
        return Err(ErrNotFound);
      }
      var ids := [];
      var seen: set<RoleId> := {};
      for i := 0 to |codes|
        invariant Rbac.Resolve(store.roles, codes[..i]) == Ok(ids)
        invariant forall id :: id in seen <==> id in ids
        invariant store.Snapshot() == old(store.Snapshot())
      {
        Rbac.ResolveStep(store.roles, codes, i);
        var code := Rbac.NormalizeCode(codes[i]);
        if code.Err? {
          Rbac.ResolvePrefixFails(store.roles, codes, i + 1);
          return Err(code.error);
        }
        Rbac.CodeFixed(codes[i]);
        var role := store.GetRoleByCode(code.value);
        if role.None? {
          Rbac.ResolvePrefixFails(store.roles, codes, i + 1);
          return Err(ErrNotFound);
        }
        if role.value in seen {
          continue;
        }
        seen := seen + {role.value};
        ids := ids + [role.value];
      }
      assert codes[..|codes|] == codes;
      r := store.ReplaceUserRoles(user, ids);
    }

    method AssignDefaultRoles(user: UserId) returns (r: Result<()>)
      requires store.Valid()
      modifies store`userRoles
      ensures store.Valid()
      ensures var done := if defaultRoles == [] then Ok(old(store.RoleTables()))
                          else Rbac.SetUserRoles(store.users.Keys, old(store.RoleTables()), user, defaultRoles);
              && (r.Ok? <==> done.Ok?) && (r.Err? ==> r.error == done.error)
              && store.RoleTables() == if done.Ok? then done.value else old(store.RoleTables())
    {
      hide ValidTables, Rbac.SetUserRoles;
      if defaultRoles == [] {
        return Ok(());
      }
      r := ReplaceUserRoles(user, defaultRoles);
    }

    method CreateRole(id: nat, raw: string, system: bool) returns (r: Result<()>)
      requires store.Valid()
      modifies store`roles
      ensures store.Valid()
      ensures var done := Rbac.Create(old(store.roles), id, raw, system);
              && (r.Ok? <==> done.Ok?) && (r.Err? ==> r.error == done.error)
              && store.roles == if done.Ok? then done.value else old(store.roles)
    {
      hide ValidTables, Rbac.Code;
      var code :- Rbac.NormalizeCode(raw);
      r := store.CreateRole(id, CodeRow(code, system));
    }

    method CreatePermission(id: nat, raw: string, system: bool) returns (r: Result<()>)
      requires store.Valid()
      modifies store`permissions
      ensures store.Valid()
      ensures var done := Rbac.Create(old(store.permissions), id, raw, system);
              && (r.Ok? <==> done.Ok?) && (r.Err? ==> r.error == done.error)
              && store.permissions == if done.Ok? then done.value else old(store.permissions)
    {
      hide ValidTables, Rbac.Code;
      var code :- Rbac.NormalizeCode(raw);
      r := store.CreatePermission(id, CodeRow(code, system));
    }

    method EnsureRole(id: nat, raw: string, system: bool) returns (r: Result<()>)
      requires store.Valid()
      modifies store`roles
      ensures store.Valid()
      ensures var done := Rbac.Ensure(old(store.roles), id, raw, system);
              && (r.Ok? <==> done.Ok?) && (r.Err? ==> r.error == done.error)
              && store.roles == if done.Ok? then done.value else old(store.roles)
    {
      hide ValidTables, Rbac.Code;
      var code :- Rbac.NormalizeCode(raw);
      r := store.UpsertRole(id, CodeRow(code, system));
    }

    method EnsurePermission(id: nat, raw: string, system: bool) returns (r: Result<()>)
      requires store.Valid()
      modifies store`permissions
      ensures store.Valid()
      ensures var done := Rbac.Ensure(old(store.permissions), id, raw, system);
              && (r.Ok? <==> done.Ok?) && (r.Err? ==> r.error == done.error)
              && store.permissions == if done.Ok? then done.value else old(store.permissions)
    {
      hide ValidTables, Rbac.Code;
      var code :- Rbac.NormalizeCode(raw);
      r := store.UpsertPermission(id, CodeRow(code, system));
    }

    method UpdateRole(id: nat, raw: string) returns (r: Result<()>)
      requires store.Valid()
      modifies store`roles
      ensures store.Valid()
      ensures var done := Rbac.Update(old(store.roles), id, raw);
              && (r.Ok? <==> done.Ok?) && (r.Err? ==> r.error == done.error)
              && store.roles == if done.Ok? then done.value else old(store.roles)
    {
      hide ValidTables, Rbac.Code;
      var code :- Rbac.NormalizeCode(raw);
      r := store.UpdateRole(id, code);
    }

    method UpdatePermission(id: nat, raw: string) returns (r: Result<()>)
      requires store.Valid()
      modifies store`permissions
      ensures store.Valid()
      ensures var done := Rbac.Update(old(store.permissions), id, raw);
              && (r.Ok? <==> done.Ok?) && (r.Err? ==> r.error == done.error)
              && store.permissions == if done.Ok? then done.value else old(store.permissions)
    {
      hide ValidTables, Rbac.Code;
      var code :- Rbac.NormalizeCode(raw);
      r := store.UpdatePermission(id, code);
    }

    method ReplaceRolePermissions(role: RoleId, codes: seq<string>) returns (r: Result<()>)
      requires store.Valid()
      modifies store`rolePermissions
      ensures store.Valid()
      ensures var done := Rbac.SetRolePermissions(old(store.RoleTables()), role, codes);
              && (r.Ok? <==> done.Ok?) && (r.Err? ==> r.error == done.error)
              && store.RoleTables() == if done.Ok? then done.value else old(store.RoleTables())
    {
      hide ValidTables, Rbac.Code;
      if role !in store.roles {
        return Err(ErrNotFound);
      }
      var ids := [];
      var seen: set<PermissionId> := {};
      for i := 0 to |codes|
        invariant Rbac.Resolve(store.permissions, codes[..i]) == Ok(ids)
        invariant forall id :: id in seen <==> id in ids
        invariant store.Snapshot() == old(store.Snapshot())
      {
        Rbac.ResolveStep(store.permissions, codes, i);
        var code := Rbac.NormalizeCode(codes[i]);
        if code.Err? {
          Rbac.ResolvePrefixFails(store.permissions, codes, i + 1);
          return Err(code.error);
        }
        Rbac.CodeFixed(codes[i]);
        var permission := store.GetPermissionByCode(code.value);
        if permission.None? {
          Rbac.ResolvePrefixFails(store.permissions, codes, i + 1);
          return Err(ErrNotFound);
        }
        if permission.value in seen {
          continue;
        }
        seen := seen + {permission.value};
        ids := ids + [permission.value];
      }
      assert codes[..|codes|] == codes;
      r := store.ReplaceRolePermissions(role, ids);
    }

    method SetUserRoles(user: UserId, codes: seq<string>) returns (r: Result<()>)
      requires store.Valid()
      modifies store
      ensures store.Valid()
      ensures var done := Rbac.SetUserRoles(store.users.Keys, old(store.RoleTables()), user, codes);
              && (r.Ok? <==> done.Ok?) && (r.Err? ==> r.error == done.error)
              && store.Snapshot()
                 == if done.Ok? then old(store.Snapshot()).(roles := done.value) else old(store.Snapshot())
    {
      hide ValidTables, Rbac.SetUserRoles;
      var before := store.Snapshot();
      r := ReplaceUserRoles(user, codes);
      if r.Err? {
        store.Restore(before);
      }
    }

    method SetRolePermissions(role: RoleId, codes: seq<string>) returns (r: Result<()>)
      requires store.Valid()
      modifies store
      ensures store.Valid()
      ensures var done := Rbac.SetRolePermissions(old(store.RoleTables()), role, codes);
              && (r.Ok? <==> done.Ok?) && (r.Err? ==> r.error == done.error)
              && store.Snapshot()
                 == if done.Ok? then old(store.Snapshot()).(roles := done.value) else old(store.Snapshot())
    {
      hide ValidTables, Rbac.SetRolePermissions;
      var before := store.Snapshot();
      r := ReplaceRolePermissions(role, codes);
      if r.Err? {
        store.Restore(before);
      }
    }
  }

  /** The loop that `NewAuthorizationService` runs over the default roles, and
      `normalizeRequiredRoleCodes` over the requested ones. */
  method NormalizeCodes(codes: seq<string>) returns (r: Result<seq<string>>)
    ensures r.Err? <==> exists i :: 0 <= i < |codes| && Rbac.Code(codes[i]).Err?
    ensures r.Err? ==> r.error == ErrInvalid
    ensures r.Ok? ==> Claims.NoRepeats(r.value) && forall code :: code in r.value <==> Rbac.IsRequested(codes, code)
  {
    hide Rbac.Code;
    var normalized: seq<string> := [];
    var seen: set<string> := {};
    for i := 0 to |codes|
      invariant Claims.NoRepeats(normalized)
      invariant forall code :: code in seen <==> code in normalized
      invariant forall j :: 0 <= j < i ==> Rbac.Code(codes[j]).Ok?
      invariant forall code :: code in normalized <==> exists j :: 0 <= j < i && Rbac.Code(codes[j]) == Ok(code)
    {
      var code := Rbac.NormalizeCode(codes[i]);
      if code.Err? {
        Rbac.CodeErrors(codes[i]);
        return Err(code.error);
      }
      if code.value in seen {
        continue;
      }
      seen := seen + {code.value};
      normalized := normalized + [code.value];
    }
    return Ok(normalized);
  }

  /** The role codes of a provisioned user: normalized, without repetition, sorted.
      The trimming and lower-casing before `normalizeCode` is left out: by
      `Rbac.CodeFixed` it makes no difference. */
  method NormalizeRequiredRoleCodes(codes: seq<string>) returns (r: Result<seq<string>>)
    ensures r.Err? <==> codes == [] || exists i :: 0 <= i < |codes| && Rbac.Code(codes[i]).Err?
    ensures r.Err? ==> r.error == ErrInvalid
    ensures r.Ok? ==> Claims.IsAscending(r.value) && forall code :: code in r.value <==> Rbac.IsRequested(codes, code)
  {
    if codes == [] {
      return Err(ErrInvalid);
    }
    var normalized :- NormalizeCodes(codes);
    var sorted := Claims.SortStrings(normalized);
    return Ok(sorted);
  }

  // Accounts.

  class AccountService {
    const store: Store
    const cfg: Accounts.Config
    const events: EventSink

    constructor (store: Store, cfg: Accounts.Config, events: EventSink)
      ensures this.store == store && this.cfg == cfg && this.events == events
    {
      this.store, this.cfg, this.events := store, cfg, events;
    }

    /** The callback that `Register` and `RegisterAndLogin` share; on an error it may
        leave the store half way. */
    method RegisterInTx(
      now: int, id: UserId, raw: string, state: UserState, hash: Accounts.PasswordHash)
      returns (r: Result<()>)
      requires store.Valid()
      modifies store
      ensures store.Valid()
      ensures var done := Accounts.Register(cfg, old(store.AccountTables()), old(store.RoleTables()), now, id, raw,
                                            state, Ok(()), hash);
              && (r.Ok? <==> done.Ok?) && (r.Err? ==> r.error == done.error)
              && (r.Ok? ==> store.Snapshot() == Tables(done.value.0, old(store.ContactTables()), done.value.1))
    {
      hide ValidTables, Accounts.CreateUser, Rbac.SetUserRoles;
      var users := new UserService(store, null);
      var _ :- users.Create(now, id, raw, state);
      var authorization := new AuthorizationService(store, cfg.defaultRoles);
      var _ :- authorization.AssignDefaultRoles(id);
      r := store.UpsertPasswordCredential(id, hash, now);
    }

    method Register(
      now: int, id: UserId, raw: string, state: UserState, policy: Result<()>, password: string, salt: Encoding.Bytes)
      returns (r: Result<()>)
      requires store.Valid()
      modifies store, events
      ensures store.Valid()
      ensures var done := Accounts.Register(cfg, old(store.AccountTables()), old(store.RoleTables()), now, id, raw,
                                            state, policy, cfg.hasher.Hash(password, salt));
              && (r.Ok? <==> done.Ok?) && (r.Err? ==> r.error == done.error)
              && store.Snapshot() == if done.Ok? then Tables(done.value.0, old(store.ContactTables()), done.value.1)
                                     else old(store.Snapshot())
      ensures events.events == old(events.events) + if r.Ok? then [UserCreated(id)] else []
    {
      hide ValidTables;
      if policy.Err? {
        return policy;
      }
      assert policy.value == ();
      hide Accounts.Register;
      var before := store.Snapshot();
      r := RegisterInTx(now, id, raw, state, cfg.hasher.Hash(password, salt));
      if r.Err? {
        store.Restore(before);
        return;
      }
      events.Emit(UserCreated(id));
    }

    /** The roles that normalized codes name. */
    method GetRoleIds(codes: seq<string>) returns (r: Result<seq<RoleId>>)
      requires store.Valid()
      requires forall code | code in codes :: TrimSpace(code) == code
      ensures r.Ok? <==> forall code | code in codes :: Rbac.ByCode(store.roles, code).Some?
      ensures r.Err? ==> r.error == ErrNotFound
      ensures r.Ok? ==> forall id :: id in r.value <==> id in store.roles && store.roles[id].code in codes
    {
      var ids := [];
      for i := 0 to |codes|
        invariant forall j | 0 <= j < i :: Rbac.ByCode(store.roles, codes[j]).Some?
        invariant forall id :: id in ids <==> id in store.roles && store.roles[id].code in codes[..i]
      {
        var role := store.GetRoleByCode(codes[i]);
        if role.None? {
          assert codes[i] in codes;
          return Err(ErrNotFound);
        }
        ids := ids + [role.value];
        assert codes[..i + 1] == codes[..i] + [codes[i]];
      }
      assert codes[..|codes|] == codes;
      return Ok(ids);
    }

    /** The callback of `createUserWithRoles` once the roles are known. */
    method ProvisionInTx(
      now: int, id: UserId, raw: string, state: UserState, hash: Accounts.PasswordHash, ids: seq<RoleId>)
      returns (r: Result<()>)
      requires store.Valid() && forall role | role in ids :: role in store.roles
      modifies store
      ensures store.Valid()
      ensures var created := Accounts.CreateUser(old(store.users), now, id, raw, state);
              && (r.Ok? <==> created.Ok?) && (r.Err? ==> r.error == created.error)
              && (r.Ok? ==>
                    && id in created.value
                    && var done := Accounts.SetHash(old(store.AccountTables()).(users := created.value), now, id, hash);
                       && done.Ok? && store.AccountTables() == done.value
                       && store.ContactTables() == old(store.ContactTables())
                       && store.RoleTables() == old(store.RoleTables()).(
                            userRoles := Rbac.WithoutFrom(old(store.userRoles), id) + Rbac.Links(id, ids)))
    {
      hide ValidTables, Accounts.CreateUser, Rbac.Links, Rbac.WithoutFrom;
      CreatedExists(store.users, now, id, raw, state);
      var users := new UserService(store, null);
      var _ :- users.Create(now, id, raw, state);
      r := store.UpsertPasswordCredential(id, hash, now);
      if r.Err? {
        return;
      }
      r := store.ReplaceUserRoles(id, ids);
    }

    method ProvisionUser(
      now: int, id: UserId, raw: string, state: UserState, policy: Result<()>, password: string, salt: Encoding.Bytes,
      codes: seq<string>)
      returns (r: Result<()>)
      requires store.Valid()
      modifies store, events
      ensures store.Valid()
      ensures var done := Accounts.Provision(old(store.AccountTables()), old(store.RoleTables()), now, id, raw, state,
                                             policy, cfg.hasher.Hash(password, salt), codes);
              && (r.Ok? <==> done.Ok?) && (r.Err? ==> r.error == done.error)
              && store.Snapshot() == if done.Ok? then Tables(done.value.0, old(store.ContactTables()), done.value.1)
                                     else old(store.Snapshot())
      ensures events.events == old(events.events) + if r.Ok? then [UserCreated(id)] else []
    {
      hide ValidTables, Accounts.CreateUser, Accounts.SetHash, Rbac.Code, Rbac.Resolve, Rbac.Links, Rbac.WithoutFrom;
      var roleCodes :- NormalizeRequiredRoleCodes(codes);
      if state != Active {
        return Err(ErrInvalidState);
      }
      if policy.Err? {
        return policy;
      }
      var before := store.Snapshot();
      RequestedTrimmed(codes, roleCodes);
      var ids := GetRoleIds(roleCodes);
      ResolvesSorted(before, codes, roleCodes);
      if ids.Err? {
        return Err(ids.error);
      }
      SameLinks(id, ids.value, Rbac.Resolve(before.roles.roles, codes).value);
      r := ProvisionInTx(now, id, raw, state, cfg.hasher.Hash(password, salt), ids.value);
      if r.Err? {
        store.Restore(before);
        return;
      }
      events.Emit(UserCreated(id));
    }

    /** `Create` and `MarkLogin`, the end of every login. */
    method OpenSession(now: int, user: UserId, session: SessionId, token: string, binding: Result<()>)
      returns (r: Result<()>)
      requires store.Valid()
      modifies store
      ensures store.Valid()
      ensures var done := Accounts.OpenSession(cfg, old(store.AccountTables()), now, user, session, token, binding);
              && (r.Ok? <==> done.Ok?) && (r.Err? ==> r.error == done.error)
              && (r.Ok? ==> store.Snapshot() == old(store.Snapshot()).(accounts := done.value))
    {
      hide ValidTables, Accounts.CreateSession, Accounts.MarkLogin;
      var sessions := new SessionService(store, cfg, null);
      var _ :- sessions.Create(now, user, session, token, binding);
      var users := new UserService(store, null);
      r := users.MarkLogin(now, user);
    }

    method RegisterAndLogin(
      now: int, id: UserId, raw: string, state: UserState, policy: Result<()>, password: string, salt: Encoding.Bytes,
      session: SessionId, token: string, binding: Result<()>)
      returns (r: Result<()>)
      requires store.Valid()
      modifies store, events
      ensures store.Valid()
      ensures var hash := cfg.hasher.Hash(password, salt);
              var done := Accounts.RegisterAndLogin(cfg, old(store.AccountTables()), old(store.RoleTables()), now, id,
                                                    raw, state, policy, hash, session, token, binding);
              && (r.Ok? <==> done.Ok?) && (r.Err? ==> r.error == done.error)
              && store.Snapshot() == if done.Ok? then Tables(done.value.0, old(store.ContactTables()), done.value.1)
                                     else old(store.Snapshot())
      ensures events.events == old(events.events) + if r.Ok? then [UserCreated(id), SessionCreated(session)] else []
    {
      hide ValidTables, Accounts.OpenSession;
      if policy.Err? {
        return policy;
      }
      assert policy.value == ();
      hide Accounts.Register;
      var before := store.Snapshot();
      r := RegisterInTx(now, id, raw, state, cfg.hasher.Hash(password, salt));
      if r.Ok? {
        r := OpenSession(now, id, session, token, binding);
      }
      if r.Err? {
        store.Restore(before);
        return;
      }
      events.Emit(UserCreated(id));
      events.Emit(SessionCreated(session));
    }

    method Login(
      now: int, guard: Result<()>, raw: string, password: string, salt: Encoding.Bytes, session: SessionId,
      token: string, binding: Result<()>)
      returns (r: Result<UserId>)
      requires store.Valid()
      modifies store, events
      ensures store.Valid()
      ensures var done := Accounts.Login(cfg, old(store.AccountTables()), old(store.contacts), now, guard, raw,
                                         password, salt, session, token, binding);
              && (r.Ok? <==> done.Ok?) && (r.Err? ==> r.error == done.error) && (r.Ok? ==> r.value == done.value.1)
              && store.Snapshot() == if done.Ok? then old(store.Snapshot()).(accounts := done.value.0)
                                     else old(store.Snapshot())
      ensures events.events == old(events.events) + if r.Ok? then [SessionCreated(session)] else []
    {
      hide ValidTables, Accounts.OpenSession, Accounts.Identify, Accounts.AuthenticateUser;
      if guard.Err? {
        return Err(guard.error);
      }
      var before := store.Snapshot();
      var passwords := new PasswordService(store, cfg.hasher);
      var user := passwords.Authenticate(now, raw, password, salt);
      if user.Err? {
        store.Restore(before);
        return user;
      }
      var issued := OpenSession(now, user.value, session, token, binding);
      if issued.Err? {
        store.Restore(before);
        return Err(issued.error);
      }
      events.Emit(SessionCreated(session));
      return user;
    }

    method IssueSession(now: int, id: UserId, session: SessionId, token: string, binding: Result<()>)
      returns (r: Result<()>)
      requires store.Valid()
      modifies store, events
      ensures store.Valid()
      ensures var done := Accounts.OpenSession(cfg, old(store.AccountTables()), now, id, session, token, binding);
              && (r.Ok? <==> done.Ok?) && (r.Err? ==> r.error == done.error)
              && store.Snapshot() == if done.Ok? then old(store.Snapshot()).(accounts := done.value)
                                     else old(store.Snapshot())
      ensures events.events == old(events.events) + if r.Ok? then [SessionCreated(session)] else []
    {
      hide ValidTables;
      if id !in store.users {
        return Err(ErrNotFound);
      }
      if !store.users[id].IsActive() {
        return Err(ErrDisabled);
      }
      hide Accounts.OpenSession;
      var before := store.Snapshot();
      r := OpenSession(now, id, session, token, binding);
      if r.Err? {
        store.Restore(before);
        return;
      }
      events.Emit(SessionCreated(session));
    }

    /** Sets the hash and revokes the sessions. */
    method ReplacePassword(now: int, id: UserId, policy: Result<()>, hash: Accounts.PasswordHash)
      returns (r: Result<()>)
      requires store.Valid()
      modifies store`passwords, store`sessions
      ensures store.Valid()
      ensures var done := Accounts.ReplacePassword(old(store.AccountTables()), now, id, policy, hash);
              && (r.Ok? <==> done.Ok?) && (r.Err? ==> r.error == done.error)
              && store.AccountTables() == if done.Ok? then done.value else old(store.AccountTables())
    {
      hide ValidTables, Accounts.RevokeUsers, Accounts.SetHash;
      if policy.Err? {
        return policy;
      }
      var _ :- store.UpsertPasswordCredential(id, hash, now);
      store.RevokeSessionsForUsers([id], now);
      assert Accounts.AsSet([id]) == {id};
      return Ok(());
    }

    method ChangePassword(
      now: int, id: UserId, current: string, salt: Encoding.Bytes, policy: Result<()>, next: string,
      nextSalt: Encoding.Bytes)
      returns (r: Result<()>)
      requires store.Valid()
      modifies store
      ensures store.Valid()
      ensures var done := Accounts.ChangePassword(cfg.hasher, old(store.AccountTables()), now, id, current, salt,
                                                  policy, cfg.hasher.Hash(next, nextSalt));
              && (r.Ok? <==> done.Ok?) && (r.Err? ==> r.error == done.error)
              && store.Snapshot() == if done.Ok? then old(store.Snapshot()).(accounts := done.value)
                                     else old(store.Snapshot())
    {
      hide ValidTables, Accounts.AuthenticateUser, Accounts.ReplacePassword;
      if id !in store.users {
        return Err(ErrNotFound);
      }
      if !store.users[id].IsActive() {
        return Err(ErrDisabled);
      }
      var before := store.Snapshot();
      var passwords := new PasswordService(store, cfg.hasher);
      r := passwords.AuthenticateUser(now, id, current, salt);
      if r.Ok? {
        r := ReplacePassword(now, id, policy, cfg.hasher.Hash(next, nextSalt));
      }
      if r.Err? {
        store.Restore(before);
      }
    }

    method ResetPassword(now: int, id: UserId, policy: Result<()>, next: string, nextSalt: Encoding.Bytes)
      returns (r: Result<()>)
      requires store.Valid()
      modifies store
      ensures store.Valid()
      ensures var done := Accounts.ResetPassword(old(store.AccountTables()), now, id, policy,
                                                 cfg.hasher.Hash(next, nextSalt));
              && (r.Ok? <==> done.Ok?) && (r.Err? ==> r.error == done.error)
              && store.Snapshot() == if done.Ok? then old(store.Snapshot()).(accounts := done.value)
                                     else old(store.Snapshot())
    {
      hide ValidTables, Accounts.ReplacePassword;
      if id !in store.users {
        return Err(ErrNotFound);
      }
      var before := store.Snapshot();
      r := ReplacePassword(now, id, policy, cfg.hasher.Hash(next, nextSalt));
      if r.Err? {
        store.Restore(before);
      }
    }
  }

  lemma RequestedTrimmed(codes: seq<string>, sorted: seq<string>)
    requires forall code :: code in sorted ==> Rbac.IsRequested(codes, code)
    ensures forall code | code in sorted :: TrimSpace(code) == code
  {
    hide Rbac.Code;
    forall code | code in sorted
      ensures TrimSpace(code) == code
    {
      var i :| 0 <= i < |codes| && Rbac.Code(codes[i]) == Ok(code);
      Rbac.CodeFixed(codes[i]);
    }
  }

  /** Resolving the requested codes in their own order, with repetitions, finds the
      rows that have one of the sorted codes. */
  lemma ResolvesSorted(t: Tables, codes: seq<string>, sorted: seq<string>)
    requires ValidTables(t)
    requires forall i :: 0 <= i < |codes| ==> Rbac.Code(codes[i]).Ok?
    requires forall code :: code in sorted <==> Rbac.IsRequested(codes, code)
    ensures var r := Rbac.Resolve(t.roles.roles, codes);
            && (r.Ok? <==> forall code | code in sorted :: Rbac.ByCode(t.roles.roles, code).Some?)
            && (r.Err? ==> r.error == ErrNotFound)
            && (r.Ok? ==> forall id :: id in r.value <==> id in t.roles.roles && t.roles.roles[id].code in sorted)
  {
    hide Rbac.Code, Rbac.Resolve;
    var rows := t.roles.roles;
    Rbac.ResolveOkIff(rows, codes);
    if Rbac.Resolve(rows, codes).Ok? {
      Rbac.ResolveIsExact(rows, codes);
    }
    if forall code | code in sorted :: Rbac.ByCode(rows, code).Some? {
      forall i | 0 <= i < |codes|
        ensures Rbac.ByCode(rows, Rbac.Code(codes[i]).value).Some?
      {
        assert Rbac.IsRequested(codes, Rbac.Code(codes[i]).value);
      }
    }
  }

  lemma SameLinks(user: UserId, ids: seq<RoleId>, others: seq<RoleId>)
    requires forall id :: id in ids <==> id in others
    ensures Rbac.Links(user, ids) == Rbac.Links(user, others)
  {}

  lemma CreatedExists(users: map<UserId, User>, now: int, id: UserId, raw: string, state: UserState)
    ensures var created := Accounts.CreateUser(users, now, id, raw, state); created.Ok? ==> id in created.value
  {
    hide Identifiers.Username;
  }

  /** Counting the rows changed tells whether every id was found. */
  lemma AllFoundIff(ids: set<UserId>, users: set<UserId>)
    ensures |ids * users| == |ids| <==> ids <= users
  {
    assert ids == ids * users + (ids - users);
    if ids <= users {
      assert ids * users == ids;
    } else {
      assert ids - users != {};
    }
  }
}
