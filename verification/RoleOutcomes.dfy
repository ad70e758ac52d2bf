/** What every operation on roles, permissions and their links answers and leaves in the
    tables, row by row and without the functions that compute it. */
module RoleOutcomes {
  import opened Types
  import opened Rbac

  /** The code is well formed and some row has it. */
  ghost predicate HasRow(rows: map<nat, CodeRow>, raw: string) {
    Code(raw).Ok? && exists id :: id in rows && rows[id].code == Code(raw).value
  }

  /** The row `id` is this one and no other changed. */
  ghost predicate Wrote(rows: map<nat, CodeRow>, rows': map<nat, CodeRow>, id: nat, row: CodeRow) {
    rows'.Keys == rows.Keys + {id} && rows'[id] == row && rows' - {id} == rows - {id}
  }

  // Rows.

  /** A role or permission is created exactly if its code is well formed and nobody has
      the code or the id. */
  lemma CreationAnswers(rows: map<nat, CodeRow>, id: nat, raw: string, system: bool)
    ensures var r := Create(rows, id, raw, system);
            && (r.Ok? <==> Code(raw).Ok? && id !in rows && !HasRow(rows, raw))
            && (r.Err? ==> r.error == if Code(raw).Err? then ErrInvalid else ErrConflict)
            && (r.Ok? ==> Wrote(rows, r.value, id, CodeRow(Code(raw).value, system)))
  {}

  /** Ensuring writes the row that has the code, or a new one if none does. */
  lemma EnsuringAnswers(rows: map<nat, CodeRow>, id: nat, raw: string, system: bool)
    requires CodesUnique(rows)
    ensures var r := Ensure(rows, id, raw, system);
            && (r.Ok? <==> Code(raw).Ok? && (HasRow(rows, raw) || id !in rows))
            && (r.Err? ==> r.error == if Code(raw).Err? then ErrInvalid else ErrConflict)
            && (r.Ok? && !HasRow(rows, raw) ==> Wrote(rows, r.value, id, CodeRow(Code(raw).value, system)))
            && (r.Ok? ==> forall e | e in rows && rows[e].code == Code(raw).value ::
                  Wrote(rows, r.value, e, CodeRow(rows[e].code, system)))
  {}

  /** A row is renamed exactly if it exists and no other row has the code; what it is
      renamed from does not matter, and its system flag stays. */
  lemma RenamingAnswers(rows: map<nat, CodeRow>, id: nat, raw: string)
    requires CodesUnique(rows)
    ensures var r := Update(rows, id, raw);
            && (r.Ok? <==>
                  Code(raw).Ok? && id in rows && forall e | e in rows && e != id :: rows[e].code != Code(raw).value)
            && (r.Err? ==>
                  if Code(raw).Err? then r.error == ErrInvalid
                  else r.error == if id in rows then ErrConflict else ErrNotFound)
            && (r.Ok? ==> Wrote(rows, r.value, id, CodeRow(Code(raw).value, rows[id].system)))
  {}

  /** A role is deleted exactly if it exists and is no system role, with its links on
      both sides and nothing else. */
  lemma RoleDeletionAnswers(db: Db, role: RoleId)
    ensures var r := DeleteRole(db, role);
            && (r.Ok? <==> role in db.roles && !db.roles[role].system)
            && (r.Err? ==> r.error == if role in db.roles then ErrConflict else ErrNotFound)
            && (r.Ok? ==>
                  && r.value.roles == db.roles - {role} && r.value.permissions == db.permissions
                  && (forall u, o :: (u, o) in r.value.userRoles <==> (u, o) in db.userRoles && o != role)
                  && (forall o, p :: (o, p) in r.value.rolePermissions <==> (o, p) in db.rolePermissions && o != role))
  {}

  /** A permission is deleted exactly if it exists and is no system permission, with its
      links and nothing else. */
  lemma PermissionDeletionAnswers(db: Db, permission: PermissionId)
    ensures var r := DeletePermission(db, permission);
            && (r.Ok? <==> permission in db.permissions && !db.permissions[permission].system)
            && (r.Err? ==> r.error == if permission in db.permissions then ErrConflict else ErrNotFound)
            && (r.Ok? ==>
                  && r.value.permissions == db.permissions - {permission} && r.value.roles == db.roles
                  && r.value.userRoles == db.userRoles
                  && (forall o, p ::
                        (o, p) in r.value.rolePermissions <==> (o, p) in db.rolePermissions && p != permission))
  {}

  // Links.

  lemma ResolvesIff(rows: map<nat, CodeRow>, codes: seq<string>)
    ensures Resolve(rows, codes).Ok? <==> forall i | 0 <= i < |codes| :: HasRow(rows, codes[i])
    ensures Resolve(rows, codes).Err? ==> Resolve(rows, codes).error in {ErrInvalid, ErrNotFound}
  {
    hide Code;
    ResolveOkIff(rows, codes);
    forall i | 0 <= i < |codes|
      ensures HasRow(rows, codes[i]) <==> Code(codes[i]).Ok? && ByCode(rows, Code(codes[i]).value).Some?
    {
      if Code(codes[i]).Ok? {
        var found := ByCode(rows, Code(codes[i]).value);
      }
    }
    if Resolve(rows, codes).Err? {
      var i := FirstFailure(rows, codes);
    }
  }

  /** A refusal is about the first code that selects no row. */
  lemma {:induction false} FirstFailure(rows: map<nat, CodeRow>, codes: seq<string>)
    returns (i: nat)
    requires Resolve(rows, codes).Err?
    ensures i < |codes| && !HasRow(rows, codes[i]) && forall j | 0 <= j < i :: HasRow(rows, codes[j])
    ensures Resolve(rows, codes).error == if Code(codes[i]).Err? then ErrInvalid else ErrNotFound
  {
    hide Code;
    var front := codes[..|codes| - 1];
    if Resolve(rows, front).Err? {
      i := FirstFailure(rows, front);
    } else {
      i := |front|;
      ResolveOkIff(rows, front);
      CodeErrors(codes[i]);
      forall j | 0 <= j < i
        ensures HasRow(rows, codes[j])
      {
        assert front[j] == codes[j];
        var found := ByCode(rows, Code(codes[j]).value);
      }
    }
  }

  /** The links of `from` are to exactly the rows the codes name; no other link changes. */
  ghost predicate Relinked(
    links: set<(nat, nat)>, links': set<(nat, nat)>, from: nat, rows: map<nat, CodeRow>, codes: seq<string>)
  {
    && (forall f, t | f != from :: (f, t) in links' <==> (f, t) in links)
    && (forall t :: (from, t) in links' <==> t in rows && IsRequested(codes, rows[t].code))
  }

  /** Roles are set exactly if the user exists and every code names a role. */
  lemma SettingRolesAnswers(users: set<UserId>, db: Db, user: UserId, codes: seq<string>)
    requires CodesUnique(db.roles)
    ensures var r := SetUserRoles(users, db, user, codes);
            && (r.Ok? <==> user in users && forall i | 0 <= i < |codes| :: HasRow(db.roles, codes[i]))
            && (r.Err? ==> r.error == if user !in users then ErrNotFound else Resolve(db.roles, codes).error)
            && (r.Ok? ==>
                  && r.value == db.(userRoles := r.value.userRoles)
                  && Relinked(db.userRoles, r.value.userRoles, user, db.roles, codes))
  {
    ResolvesIff(db.roles, codes);
    if Resolve(db.roles, codes).Ok? {
      ResolveIsExact(db.roles, codes);
    }
    hide Resolve, IsRequested, HasRow;
  }

  /** Permissions are set exactly if the role exists and every code names a permission. */
  lemma SettingPermissionsAnswers(db: Db, role: RoleId, codes: seq<string>)
    requires CodesUnique(db.permissions)
    ensures var r := SetRolePermissions(db, role, codes);
            && (r.Ok? <==> role in db.roles && forall i | 0 <= i < |codes| :: HasRow(db.permissions, codes[i]))
            && (r.Err? ==> r.error == if role !in db.roles then ErrNotFound else Resolve(db.permissions, codes).error)
            && (r.Ok? ==>
                  && r.value == db.(rolePermissions := r.value.rolePermissions)
                  && Relinked(db.rolePermissions, r.value.rolePermissions, role, db.permissions, codes))
  {
    ResolvesIff(db.permissions, codes);
    if Resolve(db.permissions, codes).Ok? {
      ResolveIsExact(db.permissions, codes);
    }
    hide Resolve, IsRequested, HasRow;
  }
}
