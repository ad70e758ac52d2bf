/** Roles, permissions and the two link tables
    (`internal/identity/repository/authorization_store.go`,
    `internal/identity/service/authorization.go`). */
module Rbac {
  import opened Types
  import opened Strings

  const MAX_CODE_LENGTH := 128

  datatype Db = Db(
    roles: map<RoleId, CodeRow>,
    permissions: map<PermissionId, CodeRow>,
    userRoles: set<(UserId, RoleId)>,
    rolePermissions: set<(RoleId, PermissionId)>)

  predicate IsCodeHead(c: char) {
    'a' <= c <= 'z' || '0' <= c <= '9'
  }

  predicate IsCodeChar(c: char) {
    IsCodeHead(c) || c == '.' || c == '_' || c == '-' || c == ':'
  }

  predicate IsCode(s: string) {
    && 1 <= |s| <= MAX_CODE_LENGTH
    && IsCodeHead(s[0])
    && forall i :: 0 <= i < |s| ==> IsCodeChar(s[i])
  }

  function Code(raw: string): Result<string> {
    var value := ToLower(TrimSpace(raw));
    if IsCode(value) then Ok(value) else Err(ErrInvalid)
  }

  method NormalizeCode(raw: string) returns (r: Result<string>)
    ensures r == Code(raw)
  {
    var value := ToLower(TrimSpace(raw));
    if value == "" || |value| > MAX_CODE_LENGTH {
      return Err(ErrInvalid);
    }
    for i := 0 to |value|
      invariant i > 0 ==> IsCodeHead(value[0])
      invariant forall j :: 0 <= j < i ==> IsCodeChar(value[j])
    {
      if IsCodeChar(value[i]) {
        if i == 0 && !IsCodeHead(value[i]) {
          return Err(ErrInvalid);
        }
        continue;
      }
      return Err(ErrInvalid);
    }
    return Ok(value);
  }

  /** A code is read from exactly the texts that have it, in either case, between white
      space. */
  lemma CodeAcceptedIff(raw: string, code: string)
    ensures Code(raw) == Ok(code) <==>
              IsCode(code) && exists text :: IsTrimmed(text) && Surrounded(raw, text) && ToLower(text) == code
    ensures Code(raw).Err? ==> Code(raw).error == ErrInvalid
  {
    TrimSpaceIff(raw, TrimSpace(raw));
    if text :| IsTrimmed(text) && Surrounded(raw, text) && ToLower(text) == code {
      TrimSpaceIff(raw, text);
    }
  }

  /** Normalizing twice changes nothing, with or without trimming and lower-casing in
      between. */
  lemma CodeFixed(raw: string)
    ensures Code(ToLower(TrimSpace(raw))) == Code(raw)
    ensures Code(raw).Ok? ==> Code(Code(raw).value) == Code(raw) && TrimSpace(Code(raw).value) == Code(raw).value
  {
    var value := ToLower(TrimSpace(raw));
    ToLowerTrimmed(TrimSpace(raw));
    TrimSpaceFixed(value);
    ToLowerIdempotent(TrimSpace(raw));
  }

  lemma CodeErrors(raw: string)
    ensures Code(raw).Err? ==> Code(raw).error == ErrInvalid
  {}

  /** The row a code selects; the unique index leaves at most one. */
  ghost function ByCode(rows: map<nat, CodeRow>, code: string): (r: Option<nat>)
    ensures r.Some? ==> r.value in rows && rows[r.value].code == code
    ensures r.None? <==> forall id | id in rows :: rows[id].code != code
  {
    if id :| id in rows && rows[id].code == code then Some(id) else None
  }

  ghost predicate CodesUnique(rows: map<nat, CodeRow>) {
    forall a, b | a in rows && b in rows && rows[a].code == rows[b].code :: a == b
  }

  ghost predicate CodesNormal(rows: map<nat, CodeRow>) {
    forall id | id in rows :: IsCode(rows[id].code)
  }

  ghost predicate LinksResolve(users: set<UserId>, db: Db) {
    && (forall l | l in db.userRoles :: l.0 in users && l.1 in db.roles)
    && (forall l | l in db.rolePermissions :: l.0 in db.roles && l.1 in db.permissions)
  }

  ghost predicate Inv(users: set<UserId>, db: Db) {
    && CodesUnique(db.roles) && CodesUnique(db.permissions)
    && CodesNormal(db.roles) && CodesNormal(db.permissions)
    && LinksResolve(users, db)
  }

  // Writing.

  /** The ids that codes select, without repetition, in first-occurrence order. */
  ghost function Resolve(rows: map<nat, CodeRow>, codes: seq<string>): (r: Result<seq<nat>>)
    ensures r.Ok? ==> forall id | id in r.value :: id in rows
  {
    if codes == [] then Ok([])
    else
      var ids :- Resolve(rows, codes[..|codes| - 1]);
      var code :- Code(codes[|codes| - 1]);
      match ByCode(rows, code)
      case None => Err(ErrNotFound)
      case Some(id) => Ok(if id in ids then ids else ids + [id])
  }

  function Links(from: nat, ids: seq<nat>): set<(nat, nat)> {
    set id | id in ids :: (from, id)
  }

  function WithoutFrom(links: set<(nat, nat)>, from: nat): set<(nat, nat)> {
    set l | l in links && l.0 != from
  }

  function WithoutTo(links: set<(nat, nat)>, to: nat): set<(nat, nat)> {
    set l | l in links && l.1 != to
  }

  ghost function SetUserRoles(users: set<UserId>, db: Db, user: UserId, codes: seq<string>): Result<Db> {
    if user !in users then Err(ErrNotFound)
    else
      var ids :- Resolve(db.roles, codes);
      Ok(db.(userRoles := WithoutFrom(db.userRoles, user) + Links(user, ids)))
  }

  ghost function SetRolePermissions(db: Db, role: RoleId, codes: seq<string>): Result<Db> {
    if role !in db.roles then Err(ErrNotFound)
    else
      var ids :- Resolve(db.permissions, codes);
      Ok(db.(rolePermissions := WithoutFrom(db.rolePermissions, role) + Links(role, ids)))
  }

  ghost function Create(rows: map<nat, CodeRow>, id: nat, raw: string, system: bool): Result<map<nat, CodeRow>> {
    var code :- Code(raw);
    if id in rows || ByCode(rows, code).Some? then Err(ErrConflict) else Ok(rows[id := CodeRow(code, system)])
  }

  /** Insert, or update the row that already has the code. */
  ghost function Ensure(rows: map<nat, CodeRow>, id: nat, raw: string, system: bool): Result<map<nat, CodeRow>> {
    var code :- Code(raw);
    match ByCode(rows, code)
    case None => if id in rows then Err(ErrConflict) else Ok(rows[id := CodeRow(code, system)])
    case Some(existing) => Ok(rows[existing := CodeRow(code, system)])
  }

  /** Renaming keeps the system flag. */
  ghost function Update(rows: map<nat, CodeRow>, id: nat, raw: string): Result<map<nat, CodeRow>> {
    var code :- Code(raw);
    if id !in rows then Err(ErrNotFound)
    else if ByCode(rows, code).Some? && ByCode(rows, code) != Some(id) then Err(ErrConflict)
    else Ok(rows[id := rows[id].(code := code)])
  }

  function DeleteRole(db: Db, role: RoleId): Result<Db> {
    if role !in db.roles then Err(ErrNotFound)
    else if db.roles[role].system then Err(ErrConflict)
    else Ok(Db(db.roles - {role}, db.permissions, WithoutTo(db.userRoles, role), WithoutFrom(db.rolePermissions, role)))
  }

  function DeletePermission(db: Db, permission: PermissionId): Result<Db> {
    if permission !in db.permissions then Err(ErrNotFound)
    else if db.permissions[permission].system then Err(ErrConflict)
    else Ok(db.(permissions := db.permissions - {permission},
                rolePermissions := WithoutTo(db.rolePermissions, permission)))
  }

  function WithoutUsers(db: Db, gone: set<UserId>): Db {
    db.(userRoles := set l | l in db.userRoles && l.0 !in gone)
  }

  // Reading.

  function RoleCodes(db: Db, user: UserId): set<string> {
    set l | l in db.userRoles && l.0 == user && l.1 in db.roles && db.roles[l.1].code != "" :: db.roles[l.1].code
  }

  function PermissionCodes(db: Db, user: UserId): set<string> {
    set l, k | l in db.userRoles && k in db.rolePermissions && l.0 == user && l.1 in db.roles
                 && k.0 == l.1 && k.1 in db.permissions && db.permissions[k.1].code != ""
      :: db.permissions[k.1].code
  }

  /** A permission is reached through a role of the user. */
  ghost predicate Reaches(db: Db, user: UserId, code: string) {
    code != "" &&
    exists r, p :: (user, r) in db.userRoles && r in db.roles && (r, p) in db.rolePermissions
                   && p in db.permissions && db.permissions[p].code == code
  }

  /** Stored codes have no outer white space. */
  lemma ReachedIsTrimmed(users: set<UserId>, db: Db, user: UserId, code: string)
    requires Inv(users, db) && Reaches(db, user, code)
    ensures IsTrimmed(code)
  {
    var p :| p in db.permissions && db.permissions[p].code == code;
    assert IsCode(code) && IsCodeChar(code[0]) && IsCodeChar(code[|code| - 1]);
  }

  lemma PermissionCodesAreReached(db: Db, user: UserId, code: string)
    ensures code in PermissionCodes(db, user) <==> Reaches(db, user, code)
  {
    if code in PermissionCodes(db, user) {
      var l, k :| l in db.userRoles && k in db.rolePermissions && l.0 == user && l.1 in db.roles
                  && k.0 == l.1 && k.1 in db.permissions && db.permissions[k.1].code == code;
      assert l == (user, l.1) && k == (l.1, k.1);
    }
    if Reaches(db, user, code) {
      var r, p :| (user, r) in db.userRoles && r in db.roles && (r, p) in db.rolePermissions
                  && p in db.permissions && db.permissions[p].code == code;
      assert (user, r).0 == user && (r, p).0 == r;
    }
  }

  /** The rows left when links with a missing end are dropped. */
  function Pruned(users: set<UserId>, db: Db): Db {
    db.(userRoles := (set l | l in db.userRoles && l.0 in users && l.1 in db.roles),
        rolePermissions := (set l | l in db.rolePermissions && l.0 in db.roles && l.1 in db.permissions))
  }

  /** Dangling links are invisible to claims. */
  lemma ClaimsIgnoreDanglingLinks(users: set<UserId>, db: Db, user: UserId)
    requires user in users
    ensures RoleCodes(Pruned(users, db), user) == RoleCodes(db, user)
    ensures PermissionCodes(Pruned(users, db), user) == PermissionCodes(db, user)
  {
    var pruned := Pruned(users, db);
    forall code
      ensures code in PermissionCodes(pruned, user) <==> code in PermissionCodes(db, user)
    {
      PermissionCodesAreReached(pruned, user, code);
      PermissionCodesAreReached(db, user, code);
    }
  }

  ghost predicate IsRequested(codes: seq<string>, code: string) {
    exists i :: 0 <= i < |codes| && Code(codes[i]) == Ok(code)
  }

  lemma RequestedLast(codes: seq<string>, code: string)
    requires codes != []
    ensures IsRequested(codes, code)
       <==> IsRequested(codes[..|codes| - 1], code) || Code(codes[|codes| - 1]) == Ok(code)
  {
    hide Code;
    var rest := codes[..|codes| - 1];
    if i :| 0 <= i < |rest| && Code(rest[i]) == Ok(code) {
      assert Code(codes[i]) == Ok(code);
    }
    if i :| 0 <= i < |codes| && Code(codes[i]) == Ok(code) {
      assert i < |rest| ==> Code(rest[i]) == Ok(code);
    }
  }

  lemma {:induction false} ResolveIsExact(rows: map<nat, CodeRow>, codes: seq<string>)
    requires CodesUnique(rows) && Resolve(rows, codes).Ok?
    ensures forall id | id in rows :: id in Resolve(rows, codes).value <==> IsRequested(codes, rows[id].code)
    ensures forall code | IsRequested(codes, code) :: ByCode(rows, code).Some?
  {
    hide Code;
    if codes != [] {
      ResolveIsExact(rows, codes[..|codes| - 1]);
      var ids := Resolve(rows, codes[..|codes| - 1]).value;
      var code := Code(codes[|codes| - 1]).value;
      forall other
        ensures IsRequested(codes, other) <==> IsRequested(codes[..|codes| - 1], other) || code == other
      {
        RequestedLast(codes, other);
      }
      assert forall id | id in rows :: id in Resolve(rows, codes).value <==> id in ids || rows[id].code == code;
    }
  }

  /** Resolving succeeds exactly if every code is well formed and names a row. */
  lemma {:induction false} ResolveOkIff(rows: map<nat, CodeRow>, codes: seq<string>)
    ensures Resolve(rows, codes).Ok?
       <==> forall i :: 0 <= i < |codes| ==> Code(codes[i]).Ok? && ByCode(rows, Code(codes[i]).value).Some?
    ensures Resolve(rows, codes).Err? && (forall i :: 0 <= i < |codes| ==> Code(codes[i]).Ok?) ==>
              Resolve(rows, codes).error == ErrNotFound
  {
    hide Code;
    if codes != [] {
      var front := codes[..|codes| - 1];
      ResolveOkIff(rows, front);
      assert forall i :: 0 <= i < |front| ==> front[i] == codes[i];
    }
  }

  /** The first code that fails decides the error. */
  lemma {:induction false} ResolvePrefixFails(rows: map<nat, CodeRow>, codes: seq<string>, k: nat)
    requires k <= |codes| && Resolve(rows, codes[..k]).Err?
    ensures Resolve(rows, codes) == Resolve(rows, codes[..k])
  {
    hide Code;
    if k < |codes| {
      assert codes[..|codes| - 1][..k] == codes[..k];
      ResolvePrefixFails(rows, codes[..|codes| - 1], k);
    } else {
      assert codes[..k] == codes;
    }
  }

  /** One turn of the resolving loop. */
  lemma ResolveStep(rows: map<nat, CodeRow>, codes: seq<string>, i: nat)
    requires i < |codes| && Resolve(rows, codes[..i]).Ok?
    ensures var ids, code := Resolve(rows, codes[..i]).value, Code(codes[i]);
            Resolve(rows, codes[..i + 1])
            == if code.Err? then Err(code.error)
               else if ByCode(rows, code.value).None? then Err(ErrNotFound)
               else
                 var id := ByCode(rows, code.value).value;
                 Ok(if id in ids then ids else ids + [id])
  {
    hide Code;
    assert codes[..i + 1][..i] == codes[..i];
  }

  /** After `SetUserRoles` the user's role codes are exactly the normalized
      requested ones, and nobody else's roles changed. */
  lemma SetUserRolesIsExact(users: set<UserId>, db: Db, user: UserId, codes: seq<string>)
    requires Inv(users, db) && SetUserRoles(users, db, user, codes).Ok?
    ensures var after := SetUserRoles(users, db, user, codes).value;
            && (forall code :: code in RoleCodes(after, user) <==> IsRequested(codes, code))
            && (forall other | other != user :: RoleCodes(after, other) == RoleCodes(db, other))
  {
    var after := SetUserRoles(users, db, user, codes).value;
    var ids := Resolve(db.roles, codes).value;
    ResolveIsExact(db.roles, codes);
    forall code
      ensures code in RoleCodes(after, user) <==> IsRequested(codes, code)
    {
      if IsRequested(codes, code) {
        var id := ByCode(db.roles, code).value;
        assert id in ids && (user, id) in after.userRoles && (user, id).0 == user;
        assert IsCode(code);
      }
      if code in RoleCodes(after, user) {
        var l :| l in after.userRoles && l.0 == user && l.1 in db.roles && db.roles[l.1].code == code;
        assert l.1 in ids;
      }
    }
    forall other | other != user
      ensures RoleCodes(after, other) == RoleCodes(db, other)
    {
      assert forall l: (nat, nat) | l.0 == other :: l in after.userRoles <==> l in db.userRoles;
    }
  }

  /** The user reaches the permission through some role other than this one. */
  ghost predicate ReachesWithout(db: Db, role: RoleId, user: UserId, code: string) {
    Reaches(db.(userRoles := WithoutTo(db.userRoles, role)), user, code)
  }

  lemma ReachesSplit(db: Db, role: RoleId, user: UserId, code: string)
    ensures Reaches(db, user, code) <==>
              || ReachesWithout(db, role, user, code)
              || (&& code != "" && (user, role) in db.userRoles && role in db.roles
                  && exists p :: (role, p) in db.rolePermissions && p in db.permissions
                                 && db.permissions[p].code == code)
  {
    if Reaches(db, user, code) {
      var r, p :| (user, r) in db.userRoles && r in db.roles && (r, p) in db.rolePermissions
                  && p in db.permissions && db.permissions[p].code == code;
      assert r != role ==> (user, r) in WithoutTo(db.userRoles, role);
    }
  }

  /** After `SetRolePermissions` the users of the role reach through it exactly the
      normalized requested permissions; what is reached otherwise stays. */
  lemma SetRolePermissionsIsExact(
    users: set<UserId>, db: Db, role: RoleId, codes: seq<string>, user: UserId, code: string)
    requires Inv(users, db) && SetRolePermissions(db, role, codes).Ok?
    ensures var after := SetRolePermissions(db, role, codes).value;
            Reaches(after, user, code) <==>
              ReachesWithout(db, role, user, code) || ((user, role) in db.userRoles && IsRequested(codes, code))
  {
    hide Code;
    var after := SetRolePermissions(db, role, codes).value;
    var ids := Resolve(db.permissions, codes).value;
    ResolveIsExact(db.permissions, codes);
    ReachesSplit(after, role, user, code);
    OtherRolesReach(db, after, role, user, code);
    hide Reaches, ReachesWithout, Resolve;
    if IsRequested(codes, code) {
      var id := ByCode(db.permissions, code).value;
      assert id in ids && (role, id) in after.rolePermissions;
      assert IsCode(db.permissions[id].code);
    }
    if p :| (role, p) in after.rolePermissions && p in db.permissions && db.permissions[p].code == code {
      assert p in ids;
    }
  }

  lemma OtherRolesReach(db: Db, after: Db, role: RoleId, user: UserId, code: string)
    requires after == db.(rolePermissions := after.rolePermissions)
    requires forall l: (nat, nat) | l.0 != role :: l in after.rolePermissions <==> l in db.rolePermissions
    ensures ReachesWithout(after, role, user, code) <==> ReachesWithout(db, role, user, code)
  {
    var links := WithoutTo(db.userRoles, role);
    var cut, cut' := db.(userRoles := links), after.(userRoles := links);
    if Reaches(cut, user, code) {
      var r, p :| (user, r) in cut.userRoles && r in cut.roles && (r, p) in cut.rolePermissions
                  && p in cut.permissions && cut.permissions[p].code == code;
      assert (user, r).1 != role && (r, p).0 != role;
      assert (r, p) in cut'.rolePermissions;
    }
    if Reaches(cut', user, code) {
      var r, p :| (user, r) in cut'.userRoles && r in cut'.roles && (r, p) in cut'.rolePermissions
                  && p in cut'.permissions && cut'.permissions[p].code == code;
      assert (user, r).1 != role && (r, p).0 != role;
      assert (r, p) in cut.rolePermissions;
    }
  }

  /** Deleting a permission takes exactly its code from every user. */
  lemma DeletePermissionIsExact(users: set<UserId>, db: Db, permission: PermissionId, user: UserId, code: string)
    requires Inv(users, db) && DeletePermission(db, permission).Ok?
    ensures var after := DeletePermission(db, permission).value;
            Reaches(after, user, code) <==> Reaches(db, user, code) && code != db.permissions[permission].code
  {
    var after := DeletePermission(db, permission).value;
    if Reaches(db, user, code) && code != db.permissions[permission].code {
      var r, p :| (user, r) in db.userRoles && r in db.roles && (r, p) in db.rolePermissions
                  && p in db.permissions && db.permissions[p].code == code;
      assert (r, p).1 != permission;
      assert (r, p) in after.rolePermissions;
    }
  }

  /** Renaming a permission renames it for everyone who reaches it, and nothing else. */
  lemma RenamePermissionIsExact(
    users: set<UserId>, db: Db, permission: PermissionId, raw: string, user: UserId, code: string)
    requires Inv(users, db) && Update(db.permissions, permission, raw).Ok?
    ensures Code(raw).Ok?
    ensures var after := db.(permissions := Update(db.permissions, permission, raw).value);
            var before, renamed := db.permissions[permission].code, Code(raw).value;
            Reaches(after, user, code) <==>
              (code == renamed && Reaches(db, user, before))
              || (code != before && code != renamed && Reaches(db, user, code))
  {
    var rows := Update(db.permissions, permission, raw).value;
    var after := db.(permissions := rows);
    var before, renamed := db.permissions[permission].code, Code(raw).value;
    assert IsCode(renamed) && IsCode(before);
    hide Code, IsCode;
    assert rows == db.permissions[permission := db.permissions[permission].(code := renamed)];
    assert forall p | p in rows && p != permission :: rows[p].code != renamed && rows[p].code != before;
    if code == renamed {
      SameRowReached(db, after, permission, user);
    } else if code != before {
      OtherRowsReached(db, after, permission, user, code);
    }
  }

  lemma SameRowReached(db: Db, after: Db, permission: PermissionId, user: UserId)
    requires after == db.(permissions := after.permissions) && after.permissions.Keys == db.permissions.Keys
    requires permission in db.permissions
    requires db.permissions[permission].code != "" && after.permissions[permission].code != ""
    requires forall p | p in db.permissions && p != permission ::
               && after.permissions[p] == db.permissions[p]
               && after.permissions[p].code != after.permissions[permission].code
               && after.permissions[p].code != db.permissions[permission].code
    ensures Reaches(after, user, after.permissions[permission].code)
       <==> Reaches(db, user, db.permissions[permission].code)
  {}

  lemma OtherRowsReached(db: Db, after: Db, permission: PermissionId, user: UserId, code: string)
    requires after == db.(permissions := after.permissions) && after.permissions.Keys == db.permissions.Keys
    requires permission in db.permissions
    requires forall p | p in db.permissions && p != permission :: after.permissions[p] == db.permissions[p]
    requires code != db.permissions[permission].code && code != after.permissions[permission].code
    ensures Reaches(after, user, code) <==> Reaches(db, user, code)
  {}

  /** Deleting a role takes its code, and the permissions only it led to, from
      every user. */
  lemma DeleteRoleIsExact(users: set<UserId>, db: Db, role: RoleId, user: UserId, code: string)
    requires Inv(users, db) && DeleteRole(db, role).Ok?
    ensures var after := DeleteRole(db, role).value;
            && Inv(users, after)
            && RoleCodes(after, user) == RoleCodes(db, user) - {db.roles[role].code}
            && (Reaches(after, user, code) <==>
                Reaches(Db(db.roles - {role}, db.permissions, db.userRoles, db.rolePermissions), user, code))
  {
    var after := DeleteRole(db, role).value;
    var cut := Db(db.roles - {role}, db.permissions, db.userRoles, db.rolePermissions);
    if Reaches(cut, user, code) {
      var r, p :| (user, r) in cut.userRoles && r in cut.roles && (r, p) in cut.rolePermissions
                  && p in cut.permissions && cut.permissions[p].code == code;
      assert (user, r).1 != role && (r, p).0 != role;
      assert (user, r) in after.userRoles && (r, p) in after.rolePermissions;
    }
    assert forall l | l in db.userRoles && l.1 != role :: l in after.userRoles;
  }

  // The invariant.

  /** Creating, ensuring and renaming keep codes normal and unique. */
  lemma WriteRowsKeeps(rows: map<nat, CodeRow>, id: nat, raw: string, system: bool)
    requires CodesUnique(rows) && CodesNormal(rows)
    ensures forall r | r in [Create(rows, id, raw, system), Ensure(rows, id, raw, system), Update(rows, id, raw)]
              && r.Ok? :: CodesUnique(r.value) && CodesNormal(r.value) && rows.Keys <= r.value.Keys
  {
    if Code(raw).Ok? {
      var code := Code(raw).value;
      hide Code;
      var target := if ByCode(rows, code).Some? then ByCode(rows, code).value else id;
      WriteCodeKeeps(rows, target, code, system);
      WriteCodeKeeps(rows, target, code, id in rows && rows[id].system);
    }
  }

  lemma WriteCodeKeeps(rows: map<nat, CodeRow>, id: nat, code: string, system: bool)
    requires CodesUnique(rows) && CodesNormal(rows) && IsCode(code)
    requires ByCode(rows, code) in [None, Some(id)]
    ensures CodesUnique(rows[id := CodeRow(code, system)]) && CodesNormal(rows[id := CodeRow(code, system)])
  {}

  lemma LinkKeeps(users: set<UserId>, db: Db, from: nat, codes: seq<string>)
    requires Inv(users, db)
    ensures SetUserRoles(users, db, from, codes).Ok? ==> Inv(users, SetUserRoles(users, db, from, codes).value)
    ensures SetRolePermissions(db, from, codes).Ok? ==> Inv(users, SetRolePermissions(db, from, codes).value)
  {}

  lemma DeleteKeeps(users: set<UserId>, db: Db, id: nat, gone: set<UserId>)
    requires Inv(users, db)
    ensures DeleteRole(db, id).Ok? ==> Inv(users, DeleteRole(db, id).value)
    ensures DeletePermission(db, id).Ok? ==> Inv(users, DeletePermission(db, id).value)
    ensures Inv(users - gone, WithoutUsers(db, gone))
  {}

  lemma MoreUsersKeeps(users: set<UserId>, users': set<UserId>, db: Db)
    requires Inv(users, db) && users <= users'
    ensures Inv(users', db)
  {}
}
