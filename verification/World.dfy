/** The whole identity store: contact verification, accounts and roles interleave in
    one run over a shared user table and a clock that never goes back. */
module World {
  import opened Types
  import Accounts
  import Contacts
  import Rbac
  import A = AccountProtocol
  import C = ContactProtocol

  datatype Config = Config(contact: Contacts.Config, account: Accounts.Config)
  {
    predicate Valid() {
      contact.Valid() && account.Valid()
    }
  }

  datatype World = World(now: int, contact: C.State, account: A.State, rbac: Rbac.Db)
  {
    function Users(): map<UserId, User> {
      account.db.users
    }
  }

  datatype RoleStep =
    | SetUserRoles(user: UserId, codes: seq<string>)
    | SetRolePermissions(role: RoleId, codes: seq<string>)
    | CreateRole(id: nat, code: string, system: bool)
    | EnsureRole(id: nat, code: string, system: bool)
    | UpdateRole(id: nat, code: string)
    | DeleteRole(id: nat)
    | CreatePermission(id: nat, code: string, system: bool)
    | EnsurePermission(id: nat, code: string, system: bool)
    | UpdatePermission(id: nat, code: string)
    | DeletePermission(id: nat)

  datatype Step =
    | Wait(time: nat)
    | ContactStep(contactStep: C.Step)
    | AccountStep(accountStep: A.Step)
    | ChangeRoles(roleStep: RoleStep)

  predicate Enabled(w: World, step: Step) {
    match step
    case ContactStep(s) => C.Enabled(w.contact, s)
    case AccountStep(s) => A.Enabled(w.account, s)
    case _ => true
  }

  ghost function ApplyRoles(users: set<UserId>, r: Rbac.Db, step: RoleStep): Result<Rbac.Db> {
    match step
    case SetUserRoles(user, codes) => Rbac.SetUserRoles(users, r, user, codes)
    case SetRolePermissions(role, codes) => Rbac.SetRolePermissions(r, role, codes)
    case CreateRole(id, code, system) =>
      var roles :- Rbac.Create(r.roles, id, code, system);
      Ok(r.(roles := roles))
    case EnsureRole(id, code, system) =>
      var roles :- Rbac.Ensure(r.roles, id, code, system);
      Ok(r.(roles := roles))
    case UpdateRole(id, code) =>
      var roles :- Rbac.Update(r.roles, id, code);
      Ok(r.(roles := roles))
    case DeleteRole(id) => Rbac.DeleteRole(r, id)
    case CreatePermission(id, code, system) =>
      var permissions :- Rbac.Create(r.permissions, id, code, system);
      Ok(r.(permissions := permissions))
    case EnsurePermission(id, code, system) =>
      var permissions :- Rbac.Ensure(r.permissions, id, code, system);
      Ok(r.(permissions := permissions))
    case UpdatePermission(id, code) =>
      var permissions :- Rbac.Update(r.permissions, id, code);
      Ok(r.(permissions := permissions))
    case DeletePermission(id) => Rbac.DeletePermission(r, id)
  }

  ghost function Apply(cfg: Config, w: World, step: Step): World
    requires Enabled(w, step)
  {
    match step
    case Wait(time) => w.(now := w.now + time)
    case ContactStep(s) => w.(contact := C.Apply(cfg.contact, w.now, w.Users(), w.contact, s))
    case AccountStep(s) =>
      var (account, rbac) := A.Apply(cfg.account, w.now, w.contact.db.contacts, w.rbac, w.account, s);
      var gone := A.Gone(w.account, s);
      World(w.now, w.contact.(db := Contacts.WithoutUsers(w.contact.db, gone)), account, rbac)
    case ChangeRoles(s) =>
      match ApplyRoles(w.Users().Keys, w.rbac, s)
      case Err(_) => w
      case Ok(rbac) => w.(rbac := rbac)
  }

  /** A store with consistent users, credentials and roles, and nothing else. */
  ghost predicate Init(w: World) {
    var db := w.account.db;
    && w.contact == C.State(Contacts.Db(map[], map[]), map[], map[], C.Log({}, map[], {}))
    && db.sessions == map[] && w.account.auths == map[] && w.account.resolves == map[]
    && A.UsersOk(db.users, w.account.usedUsers) && db.passwords.Keys <= db.users.Keys
    && w.account.sessionLog == A.SessionLog(map[], map[], map[], {})
    && w.account.events == A.EventLog(multiset(db.users.Keys), multiset{}, multiset{})
    && Rbac.Inv(db.users.Keys, w.rbac)
  }

  ghost predicate Run(cfg: Config, ws: seq<World>, steps: seq<Step>) {
    && |ws| == |steps| + 1
    && Init(ws[0])
    && forall i | 0 <= i < |steps| :: Enabled(ws[i], steps[i]) && ws[i + 1] == Apply(cfg, ws[i], steps[i])
  }

  ghost predicate Inv(cfg: Config, w: World) {
    && C.Inv(cfg.contact.maxAttempts, w.Users().Keys, w.contact)
    && C.ValuesNormal(w.contact)
    && A.Inv(cfg.account, w.now, w.account)
    && Rbac.Inv(w.Users().Keys, w.rbac)
  }

  lemma AccountInv(cfg: Config, w: World)
    requires Inv(cfg, w)
    ensures A.Inv(cfg.account, w.now, w.account)
  {}

  /** What a later world may have made of the rows of an earlier one: no row comes
      back, a verification that has left `pending` stays as it is, and a session
      keeps its identity, only moves forward, and stays revoked. */
  ghost predicate Follows(w: World, w': World) {
    && w.now <= w'.now
    && w.contact.log.usedVerifications <= w'.contact.log.usedVerifications
    && (forall v | v in w'.contact.db.verifications && v in w.contact.log.usedVerifications ::
          && v in w.contact.db.verifications
          && VerificationFollows(w.contact.db.verifications[v], w'.contact.db.verifications[v]))
    && w.account.sessionLog.openedBy.Keys <= w'.account.sessionLog.openedBy.Keys
    && (forall s | s in w'.account.db.sessions && s in w.account.sessionLog.openedBy ::
          s in w.account.db.sessions && A.RowEvolves(w.account.db.sessions[s], w'.account.db.sessions[s]))
  }

  predicate VerificationFollows(r: Verification, r': Verification) {
    && r' == r.(status := r'.status, attempts := r'.attempts, consumedAt := r'.consumedAt)
    && (r.status != Pending ==> r' == r)
  }

  // One step.

  lemma RolesKeep(users: set<UserId>, r: Rbac.Db, step: RoleStep)
    requires Rbac.Inv(users, r) && ApplyRoles(users, r, step).Ok?
    ensures Rbac.Inv(users, ApplyRoles(users, r, step).value)
  {
    match step
    case SetUserRoles(user, codes) => Rbac.LinkKeeps(users, r, user, codes);
    case SetRolePermissions(role, codes) => Rbac.LinkKeeps(users, r, role, codes);
    case CreateRole(id, code, system) => RoleRowsKeep(users, r, id, code, system);
    case EnsureRole(id, code, system) => RoleRowsKeep(users, r, id, code, system);
    case UpdateRole(id, code) => RoleRowsKeep(users, r, id, code, false);
    case DeleteRole(id) => Rbac.DeleteKeeps(users, r, id, {});
    case CreatePermission(id, code, system) => RoleRowsKeep(users, r, id, code, system);
    case EnsurePermission(id, code, system) => RoleRowsKeep(users, r, id, code, system);
    case UpdatePermission(id, code) => RoleRowsKeep(users, r, id, code, false);
    case DeletePermission(id) => Rbac.DeleteKeeps(users, r, id, {});
  }

  lemma RoleRowsKeep(users: set<UserId>, r: Rbac.Db, id: nat, code: string, system: bool)
    requires Rbac.Inv(users, r)
    ensures forall rows | rows in [Rbac.Create(r.roles, id, code, system), Rbac.Ensure(r.roles, id, code, system),
                                   Rbac.Update(r.roles, id, code)] && rows.Ok?
              :: Rbac.Inv(users, r.(roles := rows.value))
    ensures forall rows | rows in [Rbac.Create(r.permissions, id, code, system),
                                   Rbac.Ensure(r.permissions, id, code, system),
                                   Rbac.Update(r.permissions, id, code)] && rows.Ok?
              :: Rbac.Inv(users, r.(permissions := rows.value))
  {
    hide Rbac.Create, Rbac.Ensure, Rbac.Update, Rbac.CodesUnique, Rbac.CodesNormal;
    Rbac.WriteRowsKeeps(r.roles, id, code, system);
    Rbac.WriteRowsKeeps(r.permissions, id, code, system);
  }

  lemma ContactStepFollows(cfg: Config, w: World, step: C.Step)
    requires cfg.Valid() && Inv(cfg, w) && C.Enabled(w.contact, step)
    ensures var w' := Apply(cfg, w, ContactStep(step)); Inv(cfg, w') && Follows(w, w')
  {
    hide C.Inv, C.ValuesNormal, C.Apply, A.Inv, Rbac.Inv, C.TableEvolves;
    var w' := Apply(cfg, w, ContactStep(step));
    C.StepKeeps(cfg.contact, w.now, w.Users(), w.contact, step);
    C.StepKeepsNormal(cfg.contact, w.now, w.Users(), w.contact, step);
    VerificationsFollow(w.contact.log.usedVerifications, w.contact.db.verifications, w'.contact.db.verifications);
    SessionsStay(cfg.account, w.now, w.account);
  }

  lemma VerificationsFollow(
    used: set<VerificationId>, vs: map<VerificationId, Verification>, vs': map<VerificationId, Verification>)
    requires C.TableEvolves(used, vs, vs')
    ensures forall v | v in vs' && v in used :: v in vs && VerificationFollows(vs[v], vs'[v])
  {
    forall v | v in vs' && v in used
      ensures v in vs && VerificationFollows(vs[v], vs'[v])
    {
      assert v in vs ==> C.RowEvolves(vs[v], vs'[v]);
    }
  }

  lemma SessionsStay(cfg: Accounts.Config, now: int, s: A.State)
    ensures forall id | id in s.db.sessions :: A.RowEvolves(s.db.sessions[id], s.db.sessions[id])
  {}

  lemma AccountStepFollows(cfg: Config, w: World, step: A.Step)
    requires cfg.Valid() && Inv(cfg, w) && A.Enabled(w.account, step)
    ensures var w' := Apply(cfg, w, AccountStep(step)); Inv(cfg, w') && Follows(w, w')
  {
    hide C.Inv, C.ValuesNormal, A.Inv, A.Apply, A.Gone, Rbac.Inv;
    var w' := Apply(cfg, w, AccountStep(step));
    var gone := A.Gone(w.account, step);
    A.StepKeeps(cfg.account, w.now, w.contact.db.contacts, w.rbac, w.account, step);
    C.WithoutUsersKeeps(cfg.contact.maxAttempts, w.Users().Keys, w.contact, gone);
    C.MoreUsersKeeps(cfg.contact.maxAttempts, w.Users().Keys - gone, w'.Users().Keys, w'.contact);
    NormalWithoutUsers(w.contact, gone);
  }

  lemma NormalWithoutUsers(s: C.State, gone: set<UserId>)
    requires C.ValuesNormal(s)
    ensures C.ValuesNormal(s.(db := Contacts.WithoutUsers(s.db, gone)))
  {}

  /** Every step of every part keeps the invariant and never revives a row. */
  lemma StepFollows(cfg: Config, w: World, step: Step)
    requires cfg.Valid() && Inv(cfg, w) && Enabled(w, step)
    ensures Inv(cfg, Apply(cfg, w, step)) && Follows(w, Apply(cfg, w, step))
  {
    hide C.Inv, C.ValuesNormal, A.Inv, Rbac.Inv, C.Apply, A.Apply;
    match step
    case Wait(time) => A.TimePasses(cfg.account, w.now, w.now + time, w.account);
    case ContactStep(s) => ContactStepFollows(cfg, w, s);
    case AccountStep(s) => AccountStepFollows(cfg, w, s);
    case ChangeRoles(s) =>
      if ApplyRoles(w.Users().Keys, w.rbac, s).Ok? {
        RolesKeep(w.Users().Keys, w.rbac, s);
      }
  }

  lemma InitContacts(maxAttempts: int, users: set<UserId>)
    ensures var s := C.State(Contacts.Db(map[], map[]), map[], map[], C.Log({}, map[], {}));
            C.Inv(maxAttempts, users, s) && C.ValuesNormal(s)
  {}

  lemma InitInv(cfg: Config, w: World)
    requires Init(w)
    ensures Inv(cfg, w)
  {
    hide C.Inv, C.ValuesNormal, A.UsersOk, Rbac.Inv;
    InitContacts(cfg.contact.maxAttempts, w.Users().Keys);
  }

  lemma FollowsTransitive(a: World, b: World, c: World)
    requires Follows(a, b) && Follows(b, c)
    ensures Follows(a, c)
  {
    forall v | v in c.contact.db.verifications && v in a.contact.log.usedVerifications
      ensures v in a.contact.db.verifications
      ensures VerificationFollows(a.contact.db.verifications[v], c.contact.db.verifications[v])
    {
      assert v in b.contact.log.usedVerifications;
    }
    forall s | s in c.account.db.sessions && s in a.account.sessionLog.openedBy
      ensures s in a.account.db.sessions && A.RowEvolves(a.account.db.sessions[s], c.account.db.sessions[s])
    {
      assert s in b.account.sessionLog.openedBy;
    }
  }

  // Whole runs.

  lemma {:induction false} RunInv(cfg: Config, ws: seq<World>, steps: seq<Step>, i: nat)
    requires cfg.Valid() && Run(cfg, ws, steps) && i < |ws|
    ensures Inv(cfg, ws[i])
  {
    hide Inv, Init, Apply;
    if i == 0 {
      InitInv(cfg, ws[0]);
    } else {
      RunInv(cfg, ws, steps, i - 1);
      StepFollows(cfg, ws[i - 1], steps[i - 1]);
    }
  }

  /** Any later world follows any earlier one. */
  lemma {:induction false} RunFollows(cfg: Config, ws: seq<World>, steps: seq<Step>, i: nat, j: nat)
    requires cfg.Valid() && Run(cfg, ws, steps) && i < j < |ws|
    ensures Follows(ws[i], ws[j])
    decreases j
  {
    hide Inv, Init, Apply, Follows;
    RunInv(cfg, ws, steps, j - 1);
    StepFollows(cfg, ws[j - 1], steps[j - 1]);
    if i < j - 1 {
      RunFollows(cfg, ws, steps, i, j - 1);
      FollowsTransitive(ws[i], ws[j - 1], ws[j]);
    }
  }
}
