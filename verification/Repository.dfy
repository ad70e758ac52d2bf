/** The SQL store: one field a table, one method a repository operation, one
    assignment a statement (`store.go`, `contact_store.go` and
    `authorization_store.go` of `internal/identity/repository`).

    `Valid` is what the unique indexes of `schema.go` and the references to users
    enforce.  A statement that would break one is refused and changes nothing; what
    earlier statements of the same operation changed stays, until the transaction
    around it is rolled back with `Restore`. */
module Repository {
  import opened Types
  import opened Strings
  import Accounts
  import Contacts
  import Identifiers
  import Rbac

  datatype Tables = Tables(accounts: Accounts.Db, contacts: Contacts.Db, roles: Rbac.Db)

  ghost predicate UsernamesUnique(users: map<UserId, User>) {
    forall a, b | a in users && b in users && users[a].username == users[b].username :: a == b
  }

  ghost predicate TokensUnique(ss: map<SessionId, Accounts.Session>) {
    forall a, b | a in ss && b in ss && ss[a].token == ss[b].token :: a == b
  }

  /** Every reference leads to a user. */
  ghost predicate UsersExist(users: set<UserId>, t: Tables) {
    && (forall c | c in t.contacts.contacts :: t.contacts.contacts[c].user in users)
    && (forall v | v in t.contacts.verifications :: t.contacts.verifications[v].user in users)
    && (forall u | u in t.accounts.passwords :: u in users)
    && (forall s | s in t.accounts.sessions :: t.accounts.sessions[s].user in users)
  }

  ghost predicate ValidTables(t: Tables) {
    && UsernamesUnique(t.accounts.users) && TokensUnique(t.accounts.sessions)
    && Contacts.ContactsUnique(t.contacts.contacts)
    && Rbac.CodesUnique(t.roles.roles) && Rbac.CodesUnique(t.roles.permissions)
    && UsersExist(t.accounts.users.Keys, t)
  }

  function SessionsNotOf(ss: map<SessionId, Accounts.Session>, user: UserId): map<SessionId, Accounts.Session> {
    map s | s in ss && ss[s].user != user :: ss[s]
  }

  function VerificationsNotOf(vs: map<VerificationId, Verification>, user: UserId): map<VerificationId, Verification> {
    map v | v in vs && vs[v].user != user :: vs[v]
  }

  function ContactsNotOf(cs: map<ContactId, Contact>, user: UserId): map<ContactId, Contact> {
    map c | c in cs && cs[c].user != user :: cs[c]
  }

  function ExpiredAt(ss: map<SessionId, Accounts.Session>, now: int): set<SessionId> {
    set s | s in ss && ss[s].expiresAt <= now
  }

  lemma ExpiredRows(ss: map<SessionId, Accounts.Session>, now: int)
    ensures ss - ExpiredAt(ss, now) == Accounts.WithoutExpired(ss, now)
    ensures |ExpiredAt(ss, now)| == |ss| - |ss - ExpiredAt(ss, now)|
  {
    var expired := ExpiredAt(ss, now);
    assert ss.Keys == (ss - expired).Keys + expired;
  }

  class Store {
    var users: map<UserId, User>
    var contacts: map<ContactId, Contact>
    var verifications: map<VerificationId, Verification>
    var passwords: map<UserId, Accounts.Credential>
    var sessions: map<SessionId, Accounts.Session>
    var roles: map<RoleId, CodeRow>
    var permissions: map<PermissionId, CodeRow>
    var userRoles: set<(UserId, RoleId)>
    var rolePermissions: set<(RoleId, PermissionId)>

    ghost predicate Valid()
      reads this
    {
      ValidTables(Snapshot())
    }

    function AccountTables(): Accounts.Db
      reads this
    {
      Accounts.Db(users, passwords, sessions)
    }

    function ContactTables(): Contacts.Db
      reads this
    {
      Contacts.Db(contacts, verifications)
    }

    function RoleTables(): Rbac.Db
      reads this
    {
      Rbac.Db(roles, permissions, userRoles, rolePermissions)
    }

    function Snapshot(): Tables
      reads this
    {
      Tables(AccountTables(), ContactTables(), RoleTables())
    }

    /** What the end of a failed transaction does. */
    method Restore(before: Tables)
      modifies this
      ensures Snapshot() == before
    {
      users, passwords, sessions := before.accounts.users, before.accounts.passwords, before.accounts.sessions;
      contacts, verifications := before.contacts.contacts, before.contacts.verifications;
      roles, permissions := before.roles.roles, before.roles.permissions;
      userRoles, rolePermissions := before.roles.userRoles, before.roles.rolePermissions;
    }

    // Users.

    method CreateUser(id: UserId, row: User) returns (r: Result<()>)
      requires Valid()
      modifies this`users
      ensures Valid()
      ensures r == if id in old(users) then Err(ErrConflict)
                   else if Accounts.UsernameTaken(old(users), row.username) then Err(ErrUsernameTaken)
                   else Ok(())
      ensures users == if r.Ok? then old(users)[id := row] else old(users)
    {
      if id in users {
        return Err(ErrConflict);
      }
      if Accounts.UsernameTaken(users, row.username) {
        return Err(ErrUsernameTaken);
      }
      users := users[id := row];
      return Ok(());
    }

    /** The join of users and contacts on one value. */
    method OwnerOf(kind: Kind, value: string) returns (r: Option<UserId>)
      requires Valid()
      ensures r == Accounts.Lookup(users, contacts, Identifiers.ContactIdentifier(kind, value))
    {
      if c :| c in contacts && contacts[c].kind == kind && contacts[c].value == value && contacts[c].user in users {
        assert contacts[c] == Contact(contacts[c].user, kind, value, contacts[c].verifiedAt);
        LookupFinds(users, contacts, Identifiers.ContactIdentifier(kind, value), contacts[c].user);
        return Some(contacts[c].user);
      }
      return None;
    }

    method GetUserByLoginIdentifier(identifier: Identifiers.LoginIdentifier) returns (r: Result<Option<UserId>>)
      requires Valid()
      ensures r == if !Identifiers.ValidateLoginIdentifier(identifier) then Err(ErrInvalidIdentifier)
                   else Ok(Accounts.Lookup(users, contacts, identifier))
    {
      if !Identifiers.ValidateLoginIdentifier(identifier) {
        return Err(ErrInvalidIdentifier);
      }
      hide Identifiers.ValidateLoginIdentifier;
      match identifier.kind
      case ByUsername =>
        if u :| u in users && users[u].username == identifier.value {
          LookupFinds(users, contacts, identifier, u);
          return Ok(Some(u));
        }
        return Ok(None);
      case ByPhone =>
        var u := OwnerOf(Phone, identifier.value);
        return Ok(u);
      case ByEmail =>
        var u := OwnerOf(Email, identifier.value);
        return Ok(u);
    }

    method UpdateUserState(ids: seq<UserId>, state: UserState, now: int) returns (r: Result<nat>)
      requires Valid()
      modifies this`users
      ensures Valid()
      ensures ids == [] ==> r == Err(ErrEmptySelection) && users == old(users)
      ensures ids != [] ==>
                && users == Accounts.WithState(old(users), now, Accounts.AsSet(ids), state)
                && r == Ok(|Accounts.AsSet(ids) * old(users).Keys|)
      ensures users.Keys == old(users).Keys
      ensures forall u | u in old(users) && u !in ids :: users[u] == old(users)[u]
      ensures forall u | u in users && u in ids ::
                users[u].state == state && users[u].disabledAt == if state == Disabled then Some(now) else None
    {
      hide ValidTables;
      if ids == [] {
        return Err(ErrEmptySelection);
      }
      var matched := set u | u in users && u in ids;
      assert matched == Accounts.AsSet(ids) * users.Keys;
      var disabledAt := if state == Disabled then Some(now) else None;
      ghost var before := Snapshot();
      var us := users;
      users := map u | u in us ::
        if u in ids then us[u].(state := state, disabledAt := disabledAt, updatedAt := now) else us[u];
      assert users == Accounts.WithState(before.accounts.users, now, Accounts.AsSet(ids), state);
      SameNamesValid(before, users);
      return Ok(|matched|);
    }

    method MarkUserLogin(id: UserId, now: int) returns (r: Result<()>)
      requires Valid()
      modifies this`users
      ensures Valid()
      ensures r == if id in old(users) then Ok(()) else Err(ErrNotFound)
      ensures var marked := Accounts.MarkLogin(old(users), now, id);
              users == if marked.Ok? then marked.value else old(users)
    {
      hide ValidTables;
      if id !in users {
        return Err(ErrNotFound);
      }
      ghost var before := Snapshot();
      users := users[id := users[id].(lastLoginAt := Some(now), updatedAt := now)];
      SameNamesValid(before, users);
      return Ok(());
    }

    method DeleteUser(id: UserId) returns (found: bool)
      requires Valid()
      modifies this
      ensures Valid() && Snapshot() == WithoutUsers(old(Snapshot()), {id})
      ensures found <==> id in old(users)
    {
      hide ValidTables, WithoutUsers, SessionsNotOf, VerificationsNotOf, ContactsNotOf, Rbac.WithoutFrom;
      ghost var t := Snapshot();
      WithoutUsersValid(t, {id});
      sessions := SessionsNotOf(sessions, id);
      passwords := passwords - {id};
      userRoles := Rbac.WithoutFrom(userRoles, id);
      verifications := VerificationsNotOf(verifications, id);
      contacts := ContactsNotOf(contacts, id);
      found := id in users;
      users := users - {id};
      WithoutOne(t, Snapshot(), id);
    }

    /** One user after the other, each with the rows that refer to it.  An unknown or
        repeated id stops the loop half way, for the transaction to roll back. */
    method DeleteUsers(ids: seq<UserId>) returns (r: Result<()>)
      requires Valid()
      modifies this
      ensures Valid()
      ensures r.Ok? <==> ids != [] && IsDistinct(ids) && Accounts.AsSet(ids) <= old(users).Keys
      ensures r.Ok? ==> Snapshot() == WithoutUsers(old(Snapshot()), Accounts.AsSet(ids))
      ensures r.Err? ==> r.error == if ids == [] then ErrEmptySelection else ErrNotFound
    {
      hide ValidTables;
      if ids == [] {
        return Err(ErrEmptySelection);
      }
      ghost var before := Snapshot();
      WithoutNobody(before);
      for i := 0 to |ids|
        invariant Valid()
        invariant IsDistinct(ids[..i]) && Accounts.AsSet(ids[..i]) <= before.accounts.users.Keys
        invariant Snapshot() == WithoutUsers(before, Accounts.AsSet(ids[..i]))
      {
        var id := ids[i];
        var found := DeleteUser(id);
        WithoutOneMore(before, ids, i);
        if !found {
          return Err(ErrNotFound);
        }
      }
      assert ids[..|ids|] == ids;
      return Ok(());
    }

    // Passwords.

    method UpsertPasswordCredential(id: UserId, hash: Accounts.PasswordHash, now: int) returns (r: Result<()>)
      requires Valid()
      modifies this`passwords
      ensures Valid()
      ensures var written := Accounts.SetHash(old(AccountTables()), now, id, hash);
              && (r.Ok? <==> written.Ok?) && (r.Err? ==> r.error == written.error)
              && AccountTables() == if written.Ok? then written.value else old(AccountTables())
    {
      hide ValidTables;
      if id !in users {
        return Err(ErrConflict);
      }
      ghost var t := Snapshot();
      if id in passwords {
        passwords := passwords[id := passwords[id].(hash := hash, changedAt := now, updatedAt := now)];
      } else {
        passwords := passwords[id := Accounts.Credential(hash, now, now, now)];
      }
      PasswordsValid(t, passwords);
      return Ok(());
    }

    method UpdatePasswordCredentialIfMatch(
      id: UserId, expected: Accounts.PasswordHash, next: Accounts.PasswordHash, changedAt: int, now: int)
      returns (updated: bool)
      requires Valid()
      modifies this`passwords
      ensures Valid()
      ensures passwords == Accounts.Rehash(old(passwords), now, id, expected, next, changedAt)
      ensures updated <==> id in old(passwords) && old(passwords)[id].hash == expected
    {
      hide ValidTables;
      updated := id in passwords && passwords[id].hash == expected;
      if updated {
        ghost var t := Snapshot();
        passwords := passwords[id := passwords[id].(hash := next, changedAt := changedAt, updatedAt := now)];
        PasswordsValid(t, passwords);
      }
    }

    // Sessions.

    method CreateSession(id: SessionId, row: Accounts.Session) returns (r: Result<()>)
      requires Valid()
      modifies this`sessions
      ensures Valid()
      ensures r == if id in old(sessions) || row.user !in users
                      || (exists s :: s in old(sessions) && old(sessions)[s].token == row.token)
                   then Err(ErrConflict) else Ok(())
      ensures sessions == if r.Ok? then old(sessions)[id := row] else old(sessions)
    {
      hide ValidTables;
      if id in sessions || row.user !in users || exists s :: s in sessions && sessions[s].token == row.token {
        return Err(ErrConflict);
      }
      ghost var t := Snapshot();
      sessions := sessions[id := row];
      SessionInsertValid(t, id, row);
      return Ok(());
    }

    method GetSessionByTokenHash(token: string) returns (r: Option<SessionId>)
      requires Valid()
      ensures r == Accounts.ByToken(sessions, token)
    {
      if s :| s in sessions && sessions[s].token == token {
        return Some(s);
      }
      return None;
    }

    method TouchSession(id: SessionId, seenBefore: int, now: int)
      requires Valid()
      modifies this`sessions
      ensures Valid() && sessions == Accounts.TouchRow(old(sessions), id, seenBefore, now)
    {
      hide ValidTables;
      if id in sessions && sessions[id].lastSeenAt <= seenBefore && sessions[id].revokedAt == None {
        ghost var t := Snapshot();
        sessions := sessions[id := sessions[id].(lastSeenAt := now)];
        SessionsValid(t, sessions);
      }
    }

    method RevokeSession(id: SessionId, now: int) returns (r: Result<()>)
      requires Valid()
      modifies this`sessions
      ensures Valid() && r == if id in old(sessions) then Ok(()) else Err(ErrNotFound)
      ensures var revoked := Accounts.RevokeRow(old(sessions), id, now);
              sessions == if revoked.Ok? then revoked.value else old(sessions)
    {
      hide ValidTables;
      if id !in sessions {
        return Err(ErrNotFound);
      }
      ghost var t := Snapshot();
      sessions := sessions[id := sessions[id].(revokedAt := Some(now), lastSeenAt := now)];
      SessionsValid(t, sessions);
      return Ok(());
    }

    method RevokeSessionsForUsers(ids: seq<UserId>, now: int)
      requires Valid()
      modifies this`sessions
      ensures Valid() && sessions == Accounts.RevokeUsers(old(sessions), Accounts.AsSet(ids), now)
    {
      hide ValidTables;
      ghost var t := Snapshot();
      if ids != [] {
        var ss := sessions;
        sessions := map s | s in ss ::
          if ss[s].user in ids && ss[s].revokedAt == None then ss[s].(revokedAt := Some(now)) else ss[s];
      }
      assert sessions == Accounts.RevokeUsers(t.accounts.sessions, Accounts.AsSet(ids), now);
      SessionsValid(t, sessions);
    }

    method DeleteExpiredSessions(before: int) returns (count: nat)
      requires Valid()
      modifies this`sessions
      ensures Valid() && sessions == Accounts.WithoutExpired(old(sessions), before)
      ensures count == |old(sessions)| - |sessions|
    {
      hide ValidTables, ExpiredAt, Accounts.WithoutExpired;
      ghost var t := Snapshot();
      ExpiredRows(sessions, before);
      var expired := ExpiredAt(sessions, before);
      count := |expired|;
      sessions := sessions - expired;
      SessionsValid(t, sessions);
    }

    // Contacts.

    /** Deletes, then inserts; a refused insert leaves the deletion for the transaction
        to roll back. */
    method ReplaceUserContact(id: ContactId, row: Contact) returns (r: Result<()>)
      requires Valid() && id !in contacts
      modifies this`contacts
      ensures Valid()
      ensures var replaced := Contacts.ReplaceContact(users.Keys, old(contacts), id, row);
              && (r.Ok? <==> replaced.Ok?)
              && (r.Ok? ==> contacts == replaced.value)
              && (r.Err? ==> r.error == replaced.error)
              && (r.Err? ==> contacts in {old(contacts), Contacts.WithoutContact(old(contacts), row.user, row.kind)})
      ensures r.Ok? ==> id in contacts && contacts[id] == row
      ensures r.Ok? ==> forall c | c != id ::
                && (c in contacts <==>
                      c in old(contacts) && !(old(contacts)[c].user == row.user && old(contacts)[c].kind == row.kind))
                && (c in contacts ==> contacts[c] == old(contacts)[c])
    {
      hide ValidTables;
      if TrimSpace(row.value) == "" {
        return Err(ErrInvalid);
      }
      ghost var t := Snapshot();
      var cs := contacts;
      contacts := map c | c in cs && !(cs[c].user == row.user && cs[c].kind == row.kind) :: cs[c];
      assert contacts == Contacts.WithoutContact(t.contacts.contacts, row.user, row.kind);
      FewerContactsValid(t, contacts);
      if row.user !in users {
        return Err(ErrConflict);
      }
      if Contacts.ValueTaken(contacts, row.kind, row.value) {
        return Err(ErrContactTaken);
      }
      ContactInsertValid(Snapshot(), id, row);
      contacts := contacts[id := row];
      return Ok(());
    }

    method DeleteUserContact(user: UserId, kind: Kind) returns (r: Result<()>)
      requires Valid()
      modifies this`contacts
      ensures Valid() && contacts == Contacts.WithoutContact(old(contacts), user, kind)
      ensures r == if Contacts.HasContact(old(contacts), user, kind) then Ok(()) else Err(ErrContactNotFound)
    {
      hide ValidTables;
      ghost var t := Snapshot();
      var matched := set c | c in contacts && contacts[c].user == user && contacts[c].kind == kind;
      contacts := contacts - matched;
      assert contacts == Contacts.WithoutContact(t.contacts.contacts, user, kind);
      FewerContactsValid(t, contacts);
      if matched == {} {
        assert forall c | c in t.contacts.contacts :: c !in matched;
        return Err(ErrContactNotFound);
      }
      var c :| c in matched;
      return Ok(());
    }

    method GetPendingContactVerification(user: UserId, kind: Kind) returns (r: Option<VerificationId>)
      ensures r.Some? ==> Contacts.IsLatestPending(verifications, user, kind, r.value)
      ensures r.None? ==> Contacts.LatestPending(verifications, user, kind).None?
    {
      ghost var latest := Contacts.LatestPending(verifications, user, kind);
      assert latest.Some? ==> Contacts.IsLatestPending(verifications, user, kind, latest.value);
      if v :| v in verifications && Contacts.IsLatestPending(verifications, user, kind, v) {
        return Some(v);
      }
      return None;
    }

    method CreateContactVerification(id: VerificationId, row: Verification) returns (r: Result<()>)
      requires Valid() && id !in verifications
      modifies this`verifications
      ensures Valid()
      ensures var inserted := Contacts.Insert(users.Keys, old(verifications), id, row);
              && (r.Ok? <==> inserted.Ok?) && (r.Err? ==> r.error == inserted.error)
              && verifications == if inserted.Ok? then inserted.value else old(verifications)
    {
      hide ValidTables;
      if row.user !in users || Contacts.ChallengeTaken(verifications, row.provider, row.challenge) {
        return Err(ErrConflict);
      }
      ghost var t := Snapshot();
      verifications := verifications[id := row];
      VerificationsValid(t, verifications);
      return Ok(());
    }

    /** Writes three columns. */
    method UpdateContactVerification(id: VerificationId, row: Verification) returns (r: Result<()>)
      requires Valid()
      modifies this`verifications
      ensures Valid()
      ensures r == if id in old(verifications) then Ok(()) else Err(ErrVerificationNotFound)
      ensures verifications == if r.Err? then old(verifications) else old(verifications)[id :=
                old(verifications)[id].(status := row.status, attempts := row.attempts, consumedAt := row.consumedAt)]
    {
      hide ValidTables;
      if id !in verifications {
        return Err(ErrVerificationNotFound);
      }
      ghost var t := Snapshot();
      verifications := verifications[id :=
        verifications[id].(status := row.status, attempts := row.attempts, consumedAt := row.consumedAt)];
      VerificationsValid(t, verifications);
      return Ok(());
    }

    method RecordContactVerificationFailure(id: VerificationId, maxAttempts: int, now: int)
      returns (r: Option<Verification>)
      requires Valid()
      modifies this`verifications
      ensures Valid()
      ensures verifications == Contacts.RecordFailure(old(verifications), id, Max(maxAttempts, 1), now)
      ensures r == if id in verifications then Some(verifications[id]) else None
    {
      hide ValidTables;
      var limit := Max(maxAttempts, 1);
      if id in verifications && verifications[id].status == Pending && verifications[id].expiresAt > now {
        ghost var t := Snapshot();
        var row := verifications[id];
        var status := if row.attempts + 1 >= limit then Failed else row.status;
        verifications := verifications[id := row.(attempts := row.attempts + 1, status := status)];
        VerificationsValid(t, verifications);
      }
      return if id in verifications then Some(verifications[id]) else None;
    }

    method CancelPendingContactVerifications(user: UserId, kind: Kind, except: Option<VerificationId>)
      requires Valid()
      modifies this`verifications
      ensures Valid() && verifications == Contacts.CancelPending(old(verifications), user, kind, except)
    {
      hide ValidTables;
      ghost var t := Snapshot();
      var vs := verifications;
      verifications := map v | v in vs ::
        if vs[v].user == user && vs[v].kind == kind && vs[v].status == Pending && except != Some(v)
        then vs[v].(status := Cancelled) else vs[v];
      assert verifications == Contacts.CancelPending(t.contacts.verifications, user, kind, except);
      VerificationsValid(t, verifications);
    }

    // Roles and permissions.

    method GetRoleByCode(code: string) returns (r: Option<RoleId>)
      requires Valid()
      ensures r == Rbac.ByCode(roles, TrimSpace(code))
    {
      var wanted := TrimSpace(code);
      if id :| id in roles && roles[id].code == wanted {
        return Some(id);
      }
      return None;
    }

    method GetPermissionByCode(code: string) returns (r: Option<PermissionId>)
      requires Valid()
      ensures r == Rbac.ByCode(permissions, TrimSpace(code))
    {
      var wanted := TrimSpace(code);
      if id :| id in permissions && permissions[id].code == wanted {
        return Some(id);
      }
      return None;
    }

    /** Deletes the links of the user, then inserts one row for each distinct role. */
    method ReplaceUserRoles(user: UserId, ids: seq<RoleId>) returns (r: Result<()>)
      requires Valid()
      modifies this`userRoles
      ensures Valid()
      ensures r == if ids == [] || (user in users && forall id | id in ids :: id in roles) then Ok(())
                   else Err(ErrConflict)
      ensures userRoles == Rbac.WithoutFrom(old(userRoles), user) + (if r.Ok? then Rbac.Links(user, ids) else {})
    {
      userRoles := Rbac.WithoutFrom(userRoles, user);
      if ids == [] {
        assert Rbac.Links(user, ids) == {};
        return Ok(());
      }
      var rows := DistinctRows(user, ids);
      if user !in users || exists row :: row in rows && row.1 !in roles {
        assert user in users ==> exists id :: id in ids && id !in roles;
        return Err(ErrConflict);
      }
      userRoles := userRoles + (set row | row in rows);
      assert forall id | id in ids :: (user, id) in rows;
      return Ok(());
    }

    method ReplaceRolePermissions(role: RoleId, ids: seq<PermissionId>) returns (r: Result<()>)
      requires Valid()
      modifies this`rolePermissions
      ensures Valid()
      ensures r == if ids == [] || (role in roles && forall id | id in ids :: id in permissions) then Ok(())
                   else Err(ErrConflict)
      ensures rolePermissions
           == Rbac.WithoutFrom(old(rolePermissions), role) + (if r.Ok? then Rbac.Links(role, ids) else {})
    {
      rolePermissions := Rbac.WithoutFrom(rolePermissions, role);
      if ids == [] {
        assert Rbac.Links(role, ids) == {};
        return Ok(());
      }
      var rows := DistinctRows(role, ids);
      if role !in roles || exists row :: row in rows && row.1 !in permissions {
        assert role in roles ==> exists id :: id in ids && id !in permissions;
        return Err(ErrConflict);
      }
      rolePermissions := rolePermissions + (set row | row in rows);
      assert forall id | id in ids :: (role, id) in rows;
      return Ok(());
    }

    method CreateRole(id: RoleId, row: CodeRow) returns (r: Result<()>)
      requires Valid()
      modifies this`roles
      ensures Valid()
      ensures r.Ok? <==> id !in old(roles) && Rbac.ByCode(old(roles), row.code).None?
      ensures r.Err? ==> r.error == ErrConflict
      ensures roles == if r.Ok? then old(roles)[id := row] else old(roles)
    {
      hide ValidTables;
      ghost var t := Snapshot();
      RowsUnique(t);
      var written := InsertCodeRow(roles, id, row);
      if written.Err? {
        return Err(written.error);
      }
      roles := written.value;
      RewrittenValid(t, RoleTables());
      return Ok(());
    }

    method CreatePermission(id: PermissionId, row: CodeRow) returns (r: Result<()>)
      requires Valid()
      modifies this`permissions
      ensures Valid()
      ensures r.Ok? <==> id !in old(permissions) && Rbac.ByCode(old(permissions), row.code).None?
      ensures r.Err? ==> r.error == ErrConflict
      ensures permissions == if r.Ok? then old(permissions)[id := row] else old(permissions)
    {
      hide ValidTables;
      ghost var t := Snapshot();
      RowsUnique(t);
      var written := InsertCodeRow(permissions, id, row);
      if written.Err? {
        return Err(written.error);
      }
      permissions := written.value;
      RewrittenValid(t, RoleTables());
      return Ok(());
    }

    /** Inserts, or rewrites the row that has the code. */
    method UpsertRole(id: RoleId, row: CodeRow) returns (r: Result<()>)
      requires Valid()
      modifies this`roles
      ensures Valid()
      ensures var existing := Rbac.ByCode(old(roles), row.code);
              && r == (if existing.None? && id in old(roles) then Err(ErrConflict) else Ok(()))
              && roles == if r.Err? then old(roles)
                          else old(roles)[if existing.Some? then existing.value else id := row]
    {
      hide ValidTables;
      ghost var t := Snapshot();
      RowsUnique(t);
      var written := UpsertCodeRow(roles, id, row);
      if written.Err? {
        return Err(written.error);
      }
      roles := written.value;
      RewrittenValid(t, RoleTables());
      return Ok(());
    }

    method UpsertPermission(id: PermissionId, row: CodeRow) returns (r: Result<()>)
      requires Valid()
      modifies this`permissions
      ensures Valid()
      ensures var existing := Rbac.ByCode(old(permissions), row.code);
              && r == (if existing.None? && id in old(permissions) then Err(ErrConflict) else Ok(()))
              && permissions == if r.Err? then old(permissions)
                                else old(permissions)[if existing.Some? then existing.value else id := row]
    {
      hide ValidTables;
      ghost var t := Snapshot();
      RowsUnique(t);
      var written := UpsertCodeRow(permissions, id, row);
      if written.Err? {
        return Err(written.error);
      }
      permissions := written.value;
      RewrittenValid(t, RoleTables());
      return Ok(());
    }

    /** Renames a row; the system flag stays. */
    method UpdateRole(id: RoleId, code: string) returns (r: Result<()>)
      requires Valid()
      modifies this`roles
      ensures Valid()
      ensures r == if id !in old(roles) then Err(ErrNotFound)
                   else if Rbac.ByCode(old(roles), code) in [None, Some(id)] then Ok(()) else Err(ErrConflict)
      ensures roles == if r.Err? then old(roles) else old(roles)[id := old(roles)[id].(code := code)]
    {
      hide ValidTables;
      ghost var t := Snapshot();
      RowsUnique(t);
      var written := RenameCodeRow(roles, id, code);
      if written.Err? {
        return Err(written.error);
      }
      roles := written.value;
      RewrittenValid(t, RoleTables());
      return Ok(());
    }

    method UpdatePermission(id: PermissionId, code: string) returns (r: Result<()>)
      requires Valid()
      modifies this`permissions
      ensures Valid()
      ensures r == if id !in old(permissions) then Err(ErrNotFound)
                   else if Rbac.ByCode(old(permissions), code) in [None, Some(id)] then Ok(()) else Err(ErrConflict)
      ensures permissions == if r.Err? then old(permissions)
                             else old(permissions)[id := old(permissions)[id].(code := code)]
    {
      hide ValidTables;
      ghost var t := Snapshot();
      RowsUnique(t);
      var written := RenameCodeRow(permissions, id, code);
      if written.Err? {
        return Err(written.error);
      }
      permissions := written.value;
      RewrittenValid(t, RoleTables());
      return Ok(());
    }

    method DeleteRole(id: RoleId) returns (r: Result<()>)
      requires Valid()
      modifies this`roles, this`userRoles, this`rolePermissions
      ensures Valid()
      ensures var deleted := Rbac.DeleteRole(old(RoleTables()), id);
              && (r.Ok? <==> deleted.Ok?) && (r.Err? ==> r.error == deleted.error)
              && RoleTables() == if deleted.Ok? then deleted.value else old(RoleTables())
    {
      hide ValidTables;
      if id !in roles {
        return Err(ErrNotFound);
      }
      if roles[id].system {
        return Err(ErrConflict);
      }
      ghost var t := Snapshot();
      rolePermissions := Rbac.WithoutFrom(rolePermissions, id);
      userRoles := Rbac.WithoutTo(userRoles, id);
      roles := roles - {id};
      RolesValid(t, RoleTables());
      return Ok(());
    }

    method DeletePermission(id: PermissionId) returns (r: Result<()>)
      requires Valid()
      modifies this`permissions, this`rolePermissions
      ensures Valid()
      ensures var deleted := Rbac.DeletePermission(old(RoleTables()), id);
              && (r.Ok? <==> deleted.Ok?) && (r.Err? ==> r.error == deleted.error)
              && RoleTables() == if deleted.Ok? then deleted.value else old(RoleTables())
    {
      hide ValidTables;
      if id !in permissions {
        return Err(ErrNotFound);
      }
      if permissions[id].system {
        return Err(ErrConflict);
      }
      ghost var t := Snapshot();
      rolePermissions := Rbac.WithoutTo(rolePermissions, id);
      permissions := permissions - {id};
      RolesValid(t, RoleTables());
      return Ok(());
    }
  }

  // The statements that roles and permissions share, on the rows of either table.

  method InsertCodeRow(rows: map<nat, CodeRow>, id: nat, row: CodeRow) returns (r: Result<map<nat, CodeRow>>)
    ensures r == if id !in rows && Rbac.ByCode(rows, row.code).None? then Ok(rows[id := row]) else Err(ErrConflict)
    ensures r.Ok? && Rbac.CodesUnique(rows) ==> Rbac.CodesUnique(r.value)
  {
    if id in rows || exists other :: other in rows && rows[other].code == row.code {
      return Err(ErrConflict);
    }
    return Ok(rows[id := row]);
  }

  method UpsertCodeRow(rows: map<nat, CodeRow>, id: nat, row: CodeRow) returns (r: Result<map<nat, CodeRow>>)
    requires Rbac.CodesUnique(rows)
    ensures var existing := Rbac.ByCode(rows, row.code);
            r == if existing.Some? then Ok(rows[existing.value := row])
                 else if id in rows then Err(ErrConflict) else Ok(rows[id := row])
    ensures r.Ok? ==> Rbac.CodesUnique(r.value)
  {
    if other :| other in rows && rows[other].code == row.code {
      return Ok(rows[other := row]);
    }
    r := InsertCodeRow(rows, id, row);
  }

  method RenameCodeRow(rows: map<nat, CodeRow>, id: nat, code: string) returns (r: Result<map<nat, CodeRow>>)
    requires Rbac.CodesUnique(rows)
    ensures r == if id !in rows then Err(ErrNotFound)
                 else if Rbac.ByCode(rows, code) in [None, Some(id)] then Ok(rows[id := rows[id].(code := code)])
                 else Err(ErrConflict)
    ensures r.Ok? ==> Rbac.CodesUnique(r.value)
  {
    if id !in rows {
      return Err(ErrNotFound);
    }
    if exists other :: other in rows && other != id && rows[other].code == code {
      return Err(ErrConflict);
    }
    return Ok(rows[id := rows[id].(code := code)]);
  }

  /** The rows of one owner, without repetition. */
  method DistinctRows(owner: nat, ids: seq<nat>) returns (rows: seq<(nat, nat)>)
    ensures forall row :: row in rows <==> row.0 == owner && row.1 in ids
    ensures forall i, j :: 0 <= i < j < |rows| ==> rows[i] != rows[j]
  {
    rows := [];
    var seen: set<nat> := {};
    for i := 0 to |ids|
      invariant forall id :: id in seen <==> id in ids[..i]
      invariant forall row :: row in rows <==> row.0 == owner && row.1 in seen
      invariant forall j, k :: 0 <= j < k < |rows| ==> rows[j] != rows[k]
    {
      assert ids[..i + 1] == ids[..i] + [ids[i]];
      if ids[i] in seen {
        continue;
      }
      seen := seen + {ids[i]};
      rows := rows + [(owner, ids[i])];
    }
    assert ids[..|ids|] == ids;
  }

  predicate IsDistinct(ids: seq<nat>) {
    forall i, j :: 0 <= i < j < |ids| ==> ids[i] != ids[j]
  }

  function WithoutUsers(t: Tables, gone: set<UserId>): Tables {
    Tables(Accounts.WithoutUsers(t.accounts, gone), Contacts.WithoutUsers(t.contacts, gone),
           Rbac.WithoutUsers(t.roles, gone))
  }

  lemma WithoutNobody(t: Tables)
    ensures WithoutUsers(t, {}) == t
  {
    assert Accounts.WithoutUsers(t.accounts, {}) == t.accounts;
    assert Contacts.WithoutUsers(t.contacts, {}) == t.contacts;
    assert Rbac.WithoutUsers(t.roles, {}).userRoles == t.roles.userRoles;
  }

  lemma WithoutOne(t: Tables, t': Tables, id: UserId)
    requires t'.accounts.users == t.accounts.users - {id} && t'.accounts.passwords == t.accounts.passwords - {id}
    requires t'.accounts.sessions == SessionsNotOf(t.accounts.sessions, id)
    requires t'.contacts.contacts == ContactsNotOf(t.contacts.contacts, id)
    requires t'.contacts.verifications == VerificationsNotOf(t.contacts.verifications, id)
    requires t'.roles == t.roles.(userRoles := Rbac.WithoutFrom(t.roles.userRoles, id))
    ensures t' == WithoutUsers(t, {id})
  {
    assert t'.accounts == Accounts.WithoutUsers(t.accounts, {id});
    assert t'.contacts == Contacts.WithoutUsers(t.contacts, {id});
    assert t'.roles == Rbac.WithoutUsers(t.roles, {id});
  }

  lemma WithoutOneMore(t: Tables, ids: seq<UserId>, i: nat)
    requires i < |ids| && IsDistinct(ids[..i]) && Accounts.AsSet(ids[..i]) <= t.accounts.users.Keys
    ensures WithoutUsers(WithoutUsers(t, Accounts.AsSet(ids[..i])), {ids[i]})
         == WithoutUsers(t, Accounts.AsSet(ids[..i + 1]))
    ensures ids[i] in WithoutUsers(t, Accounts.AsSet(ids[..i])).accounts.users
       <==> IsDistinct(ids[..i + 1]) && Accounts.AsSet(ids[..i + 1]) <= t.accounts.users.Keys
  {
    var gone := Accounts.AsSet(ids[..i]);
    assert ids[..i + 1] == ids[..i] + [ids[i]];
    assert Accounts.AsSet(ids[..i + 1]) == gone + {ids[i]};
    WithoutMore(t, gone, {ids[i]});
  }

  lemma WithoutMore(t: Tables, gone: set<UserId>, more: set<UserId>)
    ensures WithoutUsers(WithoutUsers(t, gone), more) == WithoutUsers(t, gone + more)
  {}

  // What keeps a store valid.

  lemma SameNamesValid(t: Tables, users: map<UserId, User>)
    requires ValidTables(t)
    requires users.Keys == t.accounts.users.Keys
    requires forall u | u in users :: users[u].username == t.accounts.users[u].username
    ensures ValidTables(t.(accounts := t.accounts.(users := users)))
  {}

  lemma PasswordsValid(t: Tables, passwords: map<UserId, Accounts.Credential>)
    requires ValidTables(t)
    requires passwords.Keys <= t.accounts.users.Keys + t.accounts.passwords.Keys
    ensures ValidTables(t.(accounts := t.accounts.(passwords := passwords)))
  {}

  lemma SessionsValid(t: Tables, ss: map<SessionId, Accounts.Session>)
    requires ValidTables(t)
    requires ss.Keys <= t.accounts.sessions.Keys
    requires forall s | s in ss ::
               ss[s].user == t.accounts.sessions[s].user && ss[s].token == t.accounts.sessions[s].token
    ensures ValidTables(t.(accounts := t.accounts.(sessions := ss)))
  {}

  lemma SessionInsertValid(t: Tables, id: SessionId, row: Accounts.Session)
    requires ValidTables(t) && row.user in t.accounts.users
    requires forall s | s in t.accounts.sessions :: t.accounts.sessions[s].token != row.token
    ensures ValidTables(t.(accounts := t.accounts.(sessions := t.accounts.sessions[id := row])))
  {}

  lemma FewerContactsValid(t: Tables, cs: map<ContactId, Contact>)
    requires ValidTables(t)
    requires forall c | c in cs :: c in t.contacts.contacts && cs[c] == t.contacts.contacts[c]
    ensures ValidTables(t.(contacts := t.contacts.(contacts := cs)))
  {}

  lemma ContactInsertValid(t: Tables, id: ContactId, row: Contact)
    requires ValidTables(t) && row.user in t.accounts.users
    requires !Contacts.ValueTaken(t.contacts.contacts, row.kind, row.value)
    requires !Contacts.HasContact(t.contacts.contacts, row.user, row.kind)
    ensures ValidTables(t.(contacts := t.contacts.(contacts := t.contacts.contacts[id := row])))
  {}

  lemma VerificationsValid(t: Tables, vs: map<VerificationId, Verification>)
    requires ValidTables(t)
    requires forall v | v in vs ::
               vs[v].user in t.accounts.users
               || (v in t.contacts.verifications && vs[v].user == t.contacts.verifications[v].user)
    ensures ValidTables(t.(contacts := t.contacts.(verifications := vs)))
  {}

  lemma RolesValid(t: Tables, r: Rbac.Db)
    requires ValidTables(t)
    requires forall id | id in r.roles :: id in t.roles.roles && r.roles[id] == t.roles.roles[id]
    requires forall id | id in r.permissions ::
               id in t.roles.permissions && r.permissions[id] == t.roles.permissions[id]
    ensures ValidTables(t.(roles := r))
  {}

  lemma RowsUnique(t: Tables)
    requires ValidTables(t)
    ensures Rbac.CodesUnique(t.roles.roles) && Rbac.CodesUnique(t.roles.permissions)
  {}

  lemma RewrittenValid(t: Tables, r: Rbac.Db)
    requires ValidTables(t) && Rbac.CodesUnique(r.roles) && Rbac.CodesUnique(r.permissions)
    ensures ValidTables(t.(roles := r))
  {}

  lemma WithoutUsersValid(t: Tables, gone: set<UserId>)
    requires ValidTables(t)
    ensures ValidTables(WithoutUsers(t, gone))
  {}

  lemma LookupFinds(
    users: map<UserId, User>, contacts: map<ContactId, Contact>, identifier: Identifiers.LoginIdentifier, u: UserId)
    requires UsernamesUnique(users) && Contacts.ContactsUnique(contacts)
    requires Accounts.Names(users, contacts, identifier, u)
    ensures Accounts.Lookup(users, contacts, identifier) == Some(u)
  {
    var found := Accounts.Lookup(users, contacts, identifier);
  }
}
