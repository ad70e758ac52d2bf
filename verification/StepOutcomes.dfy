/** What every step of a run brings about in the store: it takes effect exactly when it
    may, and then the effect is the whole of it. */
module StepOutcomes {
  import opened Types
  import opened World
  import Accounts
  import Contacts
  import Encoding
  import Identifiers
  import Rbac
  import Strings
  import A = AccountProtocol
  import C = ContactProtocol
  import AO = AccountOutcomes
  import AccountOrigins
  import AccountTheorems
  import CO = ContactOutcomes
  import ContactOrigins
  import ContactTheorems
  import RO = RoleOutcomes

  // Contact steps.

  ghost predicate ContactDone(
    cfg: Contacts.Config, now: int, users: map<UserId, User>, s: C.State, s': C.State, step: C.Step)
    requires C.Enabled(s, step)
  {
    match step
    case BeginStart(request, user, kind, raw) =>
      request in s'.starts <==> CO.MayStart(cfg, now, users, s.db, user, kind, raw)
    case FinishStart(request, reply, v) =>
      && request !in s'.starts
      && (v in s'.db.verifications <==> CO.MayStore(users.Keys, s.db, s.starts[request], reply))
    case BeginConfirm(request, user, kind, v, code) =>
      request in s'.confirms <==> CO.MayAsk(cfg, now, s.db, user, kind, v, code)
    case FinishConfirm(request, reply, c) =>
      && request !in s'.confirms
      && (c in s'.db.contacts <==> reply == Contacts.Accepted && CO.MayBind(now, users.Keys, s.db, s.confirms[request]))
    case RemoveContact(user, kind) =>
      if CO.HasBound(s.db, user, kind) then CO.Unbinds(s.db, s'.db, user, kind) else s'.db == s.db
  }

  /** Every contact step takes effect exactly when it may. */
  lemma ContactStepDoes(cfg: Config, w: World, step: C.Step)
    requires cfg.Valid() && Inv(cfg, w) && C.Enabled(w.contact, step)
    ensures ContactDone(cfg.contact, w.now, w.Users(), w.contact, Apply(cfg, w, ContactStep(step)).contact, step)
  {
    hide Inv, Contacts.StartBegin, Contacts.StartFinish, Contacts.ConfirmBegin, Contacts.ConfirmFinish,
      Contacts.Unbind, CO.MayStart, CO.MayStore, CO.MayAsk, CO.MayBind, CO.HasBound, CO.Unbinds;
    var db := w.contact.db;
    match step
    case BeginStart(request, user, kind, raw) =>
      ContactTheorems.PendingFacts(cfg, w, user, kind);
      hide C.PendingUnique;
      CO.StartAnswers(cfg.contact, w.now, w.Users(), db, user, kind, raw);
    case FinishStart(request, reply, v) =>
      if v in db.verifications {
        ContactTheorems.UsedWhenStored(cfg, w, v);
      }
      StoresIff(cfg.contact, w.Users().Keys, db, w.contact.starts[request], reply, v);
    case BeginConfirm(request, user, kind, v, code) =>
      CO.ConfirmAnswers(cfg.contact, w.now, db, user, kind, v, code);
    case FinishConfirm(request, reply, c) =>
      if c in db.contacts {
        ContactOrigins.StoredIsNotFresh(cfg, w, c);
      }
      BindsIff(cfg.contact, w.now, w.Users().Keys, db, w.contact.confirms[request], reply, c);
    case RemoveContact(user, kind) =>
      CO.UnbindAnswers(db, user, kind);
  }

  lemma StoresIff(
    cfg: Contacts.Config, users: set<UserId>, db: Contacts.Db, flight: Contacts.StartFlight,
    reply: Contacts.StartReply, v: VerificationId)
    requires cfg.Valid() && v !in db.verifications
    ensures v in Contacts.StartFinish(cfg, users, db, flight, reply, v).0.verifications
       <==> CO.MayStore(users, db, flight, reply)
  {
    hide Contacts.StartFinish, CO.MayStore, Strings.TrimSpace;
    CO.StartStoresIff(cfg, users, db, flight, reply, v);
    if CO.MayStore(users, db, flight, reply) {
      CO.StartStores(cfg, users, db, flight, reply, v);
    }
  }

  lemma BindsIff(
    cfg: Contacts.Config, now: int, users: set<UserId>, db: Contacts.Db, flight: Contacts.ConfirmFlight,
    reply: Contacts.VerifyReply, c: ContactId)
    requires c !in db.contacts
    ensures c in Contacts.ConfirmFinish(cfg, now, users, db, flight, reply, c).0.contacts
       <==> reply == Contacts.Accepted && CO.MayBind(now, users, db, flight)
  {
    hide Contacts.ConfirmFinish, CO.MayBind;
    match reply
    case Rejected(e) => CO.RefusalAnswers(cfg, now, users, db, flight, e, c);
    case Accepted =>
      CO.AcceptanceAnswers(cfg, now, users, db, flight, c);
      if CO.MayBind(now, users, db, flight) {
        CO.BindingStores(cfg, now, users, db, flight, reply, c);
      }
  }

  // Role steps.

  ghost predicate RowsDone(
    rows: map<nat, CodeRow>, rows': map<nat, CodeRow>, may: bool, id: nat, raw: string, system: bool)
  {
    if may && Rbac.Code(raw).Ok? then RO.Wrote(rows, rows', id, CodeRow(Rbac.Code(raw).value, system))
    else rows' == rows
  }

  /** The row an upsert goes to, and whether there is one. */
  ghost predicate EnsureDone(rows: map<nat, CodeRow>, rows': map<nat, CodeRow>, id: nat, raw: string, system: bool) {
    if RO.HasRow(rows, raw)
    then forall e | e in rows && rows[e].code == Rbac.Code(raw).value ::
           RO.Wrote(rows, rows', e, CodeRow(rows[e].code, system))
    else RowsDone(rows, rows', id !in rows, id, raw, system)
  }

  ghost predicate RenameDone(rows: map<nat, CodeRow>, rows': map<nat, CodeRow>, id: nat, raw: string) {
    if id in rows
    then RowsDone(rows, rows', forall e | e in rows && e != id :: Rbac.Code(raw) != Ok(rows[e].code), id, raw,
                  rows[id].system)
    else rows' == rows
  }

  ghost predicate AllNamed(rows: map<nat, CodeRow>, codes: seq<string>) {
    forall i | 0 <= i < |codes| :: RO.HasRow(rows, codes[i])
  }

  ghost predicate RolesDone(users: set<UserId>, r: Rbac.Db, r': Rbac.Db, step: RoleStep) {
    match step
    case SetUserRoles(user, codes) =>
      && r' == r.(userRoles := r'.userRoles)
      && if user in users && AllNamed(r.roles, codes) then RO.Relinked(r.userRoles, r'.userRoles, user, r.roles, codes)
         else r' == r
    case SetRolePermissions(role, codes) =>
      && r' == r.(rolePermissions := r'.rolePermissions)
      && if role in r.roles && AllNamed(r.permissions, codes)
         then RO.Relinked(r.rolePermissions, r'.rolePermissions, role, r.permissions, codes)
         else r' == r
    case CreateRole(id, code, system) =>
      && r' == r.(roles := r'.roles)
      && RowsDone(r.roles, r'.roles, id !in r.roles && !RO.HasRow(r.roles, code), id, code, system)
    case EnsureRole(id, code, system) =>
      r' == r.(roles := r'.roles) && EnsureDone(r.roles, r'.roles, id, code, system)
    case UpdateRole(id, code) =>
      r' == r.(roles := r'.roles) && RenameDone(r.roles, r'.roles, id, code)
    case CreatePermission(id, code, system) =>
      && r' == r.(permissions := r'.permissions)
      && RowsDone(r.permissions, r'.permissions, id !in r.permissions && !RO.HasRow(r.permissions, code), id, code,
                  system)
    case EnsurePermission(id, code, system) =>
      r' == r.(permissions := r'.permissions) && EnsureDone(r.permissions, r'.permissions, id, code, system)
    case UpdatePermission(id, code) =>
      r' == r.(permissions := r'.permissions) && RenameDone(r.permissions, r'.permissions, id, code)
    case DeleteRole(id) =>
      if id in r.roles && !r.roles[id].system
      then && r'.roles == r.roles - {id} && r'.permissions == r.permissions
           && (forall u, o :: (u, o) in r'.userRoles <==> (u, o) in r.userRoles && o != id)
           && (forall o, p :: (o, p) in r'.rolePermissions <==> (o, p) in r.rolePermissions && o != id)
      else r' == r
    case DeletePermission(id) =>
      if id in r.permissions && !r.permissions[id].system
      then && r'.permissions == r.permissions - {id} && r'.roles == r.roles && r'.userRoles == r.userRoles
           && (forall o, p :: (o, p) in r'.rolePermissions <==> (o, p) in r.rolePermissions && p != id)
      else r' == r
  }

  /** The rows a write leaves. */
  function Left(rows: map<nat, CodeRow>, r: Result<map<nat, CodeRow>>): map<nat, CodeRow> {
    if r.Ok? then r.value else rows
  }

  lemma RowsAreWritten(rows: map<nat, CodeRow>, id: nat, raw: string, system: bool)
    requires Rbac.CodesUnique(rows)
    ensures RowsDone(rows, Left(rows, Rbac.Create(rows, id, raw, system)), id !in rows && !RO.HasRow(rows, raw), id,
                     raw, system)
    ensures EnsureDone(rows, Left(rows, Rbac.Ensure(rows, id, raw, system)), id, raw, system)
    ensures RenameDone(rows, Left(rows, Rbac.Update(rows, id, raw)), id, raw)
  {
    hide Rbac.Create, Rbac.Ensure, Rbac.Update, Rbac.Code, RO.Wrote;
    RO.CreationAnswers(rows, id, raw, system);
    RO.EnsuringAnswers(rows, id, raw, system);
    RO.RenamingAnswers(rows, id, raw);
    hide Rbac.CodesUnique;
  }

  /** Every step on roles takes effect exactly when it may, and changes nothing else. */
  lemma RoleStepDoes(cfg: Config, w: World, step: RoleStep)
    requires Inv(cfg, w)
    ensures var w' := Apply(cfg, w, ChangeRoles(step));
            w' == w.(rbac := w'.rbac) && RolesDone(w.Users().Keys, w.rbac, w'.rbac, step)
  {
    hide Inv, ApplyRoles, RolesDone, Rbac.Inv;
    AccountOrigins.RolesInv(cfg, w);
    if step.SetUserRoles? || step.SetRolePermissions? || step.DeleteRole? || step.DeletePermission? {
      LinksAreWritten(w.Users().Keys, w.rbac, step);
    } else {
      CodesAreWritten(w.Users().Keys, w.rbac, step);
    }
  }

  ghost function RolesLeft(users: set<UserId>, r: Rbac.Db, step: RoleStep): Rbac.Db {
    if ApplyRoles(users, r, step).Ok? then ApplyRoles(users, r, step).value else r
  }

  lemma LinksAreWritten(users: set<UserId>, r: Rbac.Db, step: RoleStep)
    requires Rbac.Inv(users, r)
    requires step.SetUserRoles? || step.SetRolePermissions? || step.DeleteRole? || step.DeletePermission?
    ensures RolesDone(users, r, RolesLeft(users, r, step), step)
  {
    hide Rbac.SetUserRoles, Rbac.SetRolePermissions, Rbac.DeleteRole, Rbac.DeletePermission, Rbac.Resolve, RO.HasRow,
      RO.Relinked;
    match step
    case SetUserRoles(user, codes) => RO.SettingRolesAnswers(users, r, user, codes);
    case SetRolePermissions(role, codes) => RO.SettingPermissionsAnswers(r, role, codes);
    case DeleteRole(id) => RO.RoleDeletionAnswers(r, id);
    case DeletePermission(id) => RO.PermissionDeletionAnswers(r, id);
  }

  lemma CodesAreWritten(users: set<UserId>, r: Rbac.Db, step: RoleStep)
    requires Rbac.Inv(users, r)
    requires !(step.SetUserRoles? || step.SetRolePermissions? || step.DeleteRole? || step.DeletePermission?)
    ensures RolesDone(users, r, RolesLeft(users, r, step), step)
  {
    var id, code := step.id, step.code;
    var system := if step.UpdateRole? || step.UpdatePermission? then false else step.system;
    RowsAreWritten(r.roles, id, code, system);
    RowsAreWritten(r.permissions, id, code, system);
    hide Rbac.Create, Rbac.Ensure, Rbac.Update, Rbac.Inv, RowsDone, EnsureDone, RenameDone, RO.HasRow;
  }

  // Account steps.

  /** A user may be created under the name. */
  ghost predicate MayCreate(users: map<UserId, User>, raw: string) {
    Identifiers.Username(raw).Ok? && !AO.HasName(users, Identifiers.Username(raw).value)
  }

  ghost predicate AccountDone(cfg: Accounts.Config, now: int, r: Rbac.Db, s: A.State, s': A.State, step: A.Step)
    requires A.Enabled(s, step)
  {
    match step
    case Create(id, raw, state) =>
      if MayCreate(s.db.users, raw)
      then && s'.db == s.db.(users := s'.db.users) && AO.IsCreated(s.db.users, s'.db.users, now, id, state)
           && Ok(s'.db.users[id].username) == Identifiers.Username(raw)
      else s'.db == s.db
    case RegisterUser(id, raw, state, policy, password, salt) =>
      if policy.Ok? && MayCreate(s.db.users, raw) && AllNamed(r.roles, cfg.defaultRoles)
      then HasAccount(cfg, now, s.db, s'.db, id, raw, state, password, salt)
      else s'.db == s.db
    case ProvisionUser(id, raw, state, policy, password, salt, codes) =>
      if policy.Ok? && MayCreate(s.db.users, raw) && codes != [] && AllNamed(r.roles, codes) && state == Active
      then HasAccount(cfg, now, s.db, s'.db, id, raw, state, password, salt)
      else s'.db == s.db
    case Change(id, password, salt, policy, next, nextSalt) =>
      if id in s.db.users && AO.Active(s.db.users[id]) && AO.Accepts(cfg.hasher, s.db, id, password) && policy.Ok?
      then HasPassword(cfg, now, s.db, s'.db, id, next, nextSalt)
      else s'.db == s.db
    case Reset(id, policy, next, nextSalt) =>
      if id in s.db.users && policy.Ok? then HasPassword(cfg, now, s.db, s'.db, id, next, nextSalt)
      else s'.db == s.db
    case BeginAuth(_, _, _, _) => s'.db == s.db
    case FinishAuth(request) =>
      var f := s.auths[request];
      && request !in s'.auths && s'.db == s.db.(passwords := s'.db.passwords)
      && if f.user in s.db.passwords && s.db.passwords[f.user].hash == f.expected
         then && s'.db.passwords.Keys == s.db.passwords.Keys
              && s'.db.passwords - {f.user} == s.db.passwords - {f.user}
              && s'.db.passwords[f.user].hash == f.next
         else s'.db == s.db
    case BeginResolve(request, token, binding) =>
      && s'.db == s.db
      && (request in s'.resolves <==>
            && binding.Ok? && Strings.TrimSpace(token) != ""
            && exists id :: AO.MayResolve(cfg, s.db, now, id) && s.db.sessions[id].token == token)
    case FinishResolve(request) =>
      && request !in s'.resolves && s'.db == s.db.(sessions := s'.db.sessions)
      && AO.IsTouched(cfg, s.db.sessions, s'.db.sessions, s.resolves[request])
    case RevokeToken(token) =>
      && s'.db == s.db.(sessions := s'.db.sessions)
      && (forall id | id in s.db.sessions && s.db.sessions[id].token == token && Strings.TrimSpace(token) != "" ::
            AO.IsRevoked(s.db.sessions, s'.db.sessions, id, now))
      && ((forall id | id in s.db.sessions :: s.db.sessions[id].token != token) ==> s'.db == s.db)
    case RevokeById(id) =>
      && s'.db == s.db.(sessions := s'.db.sessions)
      && if id in s.db.sessions then AO.IsRevoked(s.db.sessions, s'.db.sessions, id, now) else s'.db == s.db
    case RevokeForUsers(ids) =>
      && s'.db == s.db.(sessions := s'.db.sessions)
      && AO.SessionsRevoked(s.db.sessions, s'.db.sessions, (set u | u in ids), now)
    case DeleteExpired =>
      && s'.db == s.db.(sessions := s'.db.sessions)
      && forall id :: && (id in s'.db.sessions <==> id in s.db.sessions && now < s.db.sessions[id].expiresAt)
                      && (id in s'.db.sessions ==> s'.db.sessions[id] == s.db.sessions[id])
    case ChangeState(ids, state) =>
      if ids != [] && forall id | id in ids :: id in s.db.users then AO.IsStateSet(s.db, s'.db, now, ids, state)
      else s'.db == s.db
    case _ => true
  }

  /** The user exists as asked for, under the password. */
  ghost predicate HasAccount(
    cfg: Accounts.Config, now: int, a: Accounts.Db, a': Accounts.Db, id: UserId, raw: string, state: UserState,
    password: string, salt: Encoding.Bytes)
  {
    && AO.IsCreated(a.users, a'.users, now, id, state) && Ok(a'.users[id].username) == Identifiers.Username(raw)
    && AO.IsSet(a, a', now, id, cfg.hasher.Hash(password, salt)) && a'.sessions == a.sessions
  }

  /** The user has the password, and no session is left live. */
  ghost predicate HasPassword(
    cfg: Accounts.Config, now: int, a: Accounts.Db, a': Accounts.Db, id: UserId, password: string,
    salt: Encoding.Bytes)
  {
    && a'.users == a.users && AO.IsSet(a, a', now, id, cfg.hasher.Hash(password, salt))
    && AO.SessionsRevoked(a.sessions, a'.sessions, {id}, now)
  }

  /** Every account step takes effect exactly when it may.  Steps that open a session are
      in `SessionsAreOpened`, deletions in `AccountTheorems.DeletionIsExact`. */
  lemma AccountStepDoes(cfg: Config, w: World, step: A.Step)
    requires cfg.Valid() && Inv(cfg, w) && A.Enabled(w.account, step)
    ensures AccountDone(cfg.account, w.now, w.rbac, w.account, Apply(cfg, w, AccountStep(step)).account, step)
  {
    hide Inv, A.Apply, AccountDone, Rbac.Inv;
    AccountOrigins.RolesInv(cfg, w);
    FreshUser(cfg, w, step);
    var cs := w.contact.db.contacts;
    if step.Create? || step.RegisterUser? || step.ProvisionUser? {
      UsersAreMade(cfg.account, w.now, cs, w.rbac, w.account, step);
    } else if step.Change? || step.Reset? || step.FinishAuth? || step.BeginAuth? || step.ChangeState? {
      PasswordsAreSet(cfg.account, w.now, cs, w.rbac, w.account, step);
    } else if step.BeginResolve? {
      TokensUnique(cfg, w);
      TokensAreResolved(cfg.account, w.now, cs, w.rbac, w.account, step);
    } else if step.RevokeToken? {
      TokensUnique(cfg, w);
      TokensAreRevoked(cfg.account, w.now, cs, w.rbac, w.account, step);
    } else {
      SessionsAreChanged(cfg.account, w.now, cs, w.rbac, w.account, step);
    }
  }

  lemma FreshUser(cfg: Config, w: World, step: A.Step)
    requires Inv(cfg, w) && A.Enabled(w.account, step)
    ensures step.Create? || step.RegisterUser? || step.ProvisionUser? || step.RegisterWithLogin? ==>
              step.id !in w.Users()
  {
    hide C.Inv, C.ValuesNormal, Rbac.Inv;
  }

  lemma TokensUnique(cfg: Config, w: World)
    requires Inv(cfg, w)
    ensures forall a, b | a in w.account.db.sessions && b in w.account.db.sessions
                          && w.account.db.sessions[a].token == w.account.db.sessions[b].token :: a == b
  {
    hide C.Inv, C.ValuesNormal, Rbac.Inv;
    hide A.RowOk, A.LiveOk;
  }

  lemma UsersAreMade(
    cfg: Accounts.Config, now: int, cs: map<ContactId, Contact>, r: Rbac.Db, s: A.State, step: A.Step)
    requires A.Enabled(s, step) && Rbac.Inv(s.db.users.Keys, r)
    requires (step.Create? || step.RegisterUser? || step.ProvisionUser?) && step.id !in s.db.users
    ensures AccountDone(cfg, now, r, s, A.Apply(cfg, now, cs, r, s, step).0, step)
  {
    hide Accounts.CreateUser, Accounts.Register, Accounts.Provision, Rbac.Inv, Rbac.Code, RO.HasRow,
      Identifiers.Username, Rbac.RoleCodes, Rbac.IsRequested, AO.IsSet, AO.IsCreated;
    AO.CreationAnswers(s.db.users, now, step.id, step.raw, step.state);
    match step
    case Create(id, raw, state) =>
    case RegisterUser(id, raw, state, policy, password, salt) =>
      AO.RegistrationAnswers(cfg, s.db, r, now, id, raw, state, policy, cfg.hasher.Hash(password, salt));
    case ProvisionUser(id, raw, state, policy, password, salt, codes) =>
      AO.ProvisionAnswers(s.db, r, now, id, raw, state, policy, cfg.hasher.Hash(password, salt), codes);
      NamedIsWellFormed(r.roles, codes);
  }

  lemma NamedIsWellFormed(rows: map<nat, CodeRow>, codes: seq<string>)
    ensures AllNamed(rows, codes) ==> forall i | 0 <= i < |codes| :: Rbac.Code(codes[i]).Ok?
  {
    hide Rbac.Code;
    assert forall i | 0 <= i < |codes| :: RO.HasRow(rows, codes[i]) ==> Rbac.Code(codes[i]).Ok?;
  }

  lemma PasswordsAreSet(
    cfg: Accounts.Config, now: int, cs: map<ContactId, Contact>, r: Rbac.Db, s: A.State, step: A.Step)
    requires cfg.Valid() && A.Enabled(s, step)
    requires step.Change? || step.Reset? || step.FinishAuth? || step.BeginAuth? || step.ChangeState?
    ensures AccountDone(cfg, now, r, s, A.Apply(cfg, now, cs, r, s, step).0, step)
  {
    hide Accounts.ChangePassword, Accounts.ResetPassword, Accounts.SetState, Accounts.AuthBegin, AO.Accepts, AO.IsSet,
      AO.IsStateSet, AO.SessionsRevoked, Accounts.Hasher.Hash;
    match step
    case Change(id, password, salt, policy, next, nextSalt) =>
      AO.ChangeAnswers(cfg.hasher, s.db, now, id, password, salt, policy, cfg.hasher.Hash(next, nextSalt));
    case Reset(id, policy, next, nextSalt) =>
      AO.ResetAnswers(s.db, now, id, policy, cfg.hasher.Hash(next, nextSalt));
    case ChangeState(ids, state) => AO.StateIsSet(s.db, now, ids, state);
    case FinishAuth(request) =>
    case BeginAuth(_, _, _, _) =>
  }

  lemma TokensAreResolved(
    cfg: Accounts.Config, now: int, cs: map<ContactId, Contact>, r: Rbac.Db, s: A.State, step: A.Step)
    requires A.Enabled(s, step) && step.BeginResolve?
    requires forall a, b | a in s.db.sessions && b in s.db.sessions
                           && s.db.sessions[a].token == s.db.sessions[b].token :: a == b
    ensures AccountDone(cfg, now, r, s, A.Apply(cfg, now, cs, r, s, step).0, step)
  {
    hide Strings.TrimSpace, Accounts.ResolveBegin;
    if id :| id in s.db.sessions && s.db.sessions[id].token == step.token {
      AO.ResolutionAnswers(cfg, s.db, now, step.token, step.binding, id);
    } else {
      AO.UnknownTokenIsRefused(cfg, s.db, now, step.token, step.binding);
    }
  }

  lemma TokensAreRevoked(
    cfg: Accounts.Config, now: int, cs: map<ContactId, Contact>, r: Rbac.Db, s: A.State, step: A.Step)
    requires A.Enabled(s, step) && step.RevokeToken?
    requires forall a, b | a in s.db.sessions && b in s.db.sessions
                           && s.db.sessions[a].token == s.db.sessions[b].token :: a == b
    ensures AccountDone(cfg, now, r, s, A.Apply(cfg, now, cs, r, s, step).0, step)
  {
    hide Strings.TrimSpace, Accounts.Revoke, AO.IsRevoked;
    if id :| id in s.db.sessions && s.db.sessions[id].token == step.token {
      AO.RevocationAnswers(s.db, now, step.token, id);
    } else {
      AO.UnknownTokenIsRefused(cfg, s.db, now, step.token, Ok(()));
    }
  }

  lemma SessionsAreChanged(
    cfg: Accounts.Config, now: int, cs: map<ContactId, Contact>, r: Rbac.Db, s: A.State, step: A.Step)
    requires A.Enabled(s, step)
    requires !(step.Create? || step.RegisterUser? || step.ProvisionUser?) && !step.BeginResolve? && !step.RevokeToken?
    requires !(step.Change? || step.Reset? || step.FinishAuth? || step.BeginAuth? || step.ChangeState?)
    ensures AccountDone(cfg, now, r, s, A.Apply(cfg, now, cs, r, s, step).0, step)
  {
    hide Accounts.ResolveTouch, Accounts.RevokeUsers, AO.IsTouched, AO.SessionsRevoked;
    match step
    case FinishResolve(request) => AO.TouchAnswers(cfg, s.db.sessions, s.resolves[request]);
    case RevokeForUsers(ids) => AO.RevokingUsersAnswers(s.db.sessions, Accounts.AsSet(ids), now);
    case _ =>
  }

  /** A step that may open a session does so exactly if it is entitled to. */
  lemma SessionsAreOpened(cfg: Config, w: World, step: A.Step)
    requires cfg.Valid() && Inv(cfg, w) && A.Enabled(w.account, step)
    requires step.PasswordLogin? || step.RegisterWithLogin? || step.Issue?
    ensures step.session in AccountOrigins.SessionsAfter(cfg, w, step)
       <==> exists user :: AccountOrigins.Entitles(cfg, w, step, user)
  {
    hide Inv, AccountOrigins.SessionsAfter, AccountOrigins.Entitles;
    NewSession(cfg, w, step);
    AccountOrigins.RolesInv(cfg, w);
    FreshUser(cfg, w, step);
    hide Rbac.Inv;
    if step.session in AccountOrigins.SessionsAfter(cfg, w, step) {
      if step.PasswordLogin? {
        AccountOrigins.LoginGrants(cfg, w, step, step.session);
      } else if step.RegisterWithLogin? {
        AccountOrigins.RegistrationGrants(cfg, w, step, step.session);
      } else {
        AccountOrigins.IssueGrants(cfg, w, step, step.session);
      }
    }
    if user :| AccountOrigins.Entitles(cfg, w, step, user) {
      EntitledOpens(cfg, w, step, user);
    }
  }

  lemma NewSession(cfg: Config, w: World, step: A.Step)
    requires Inv(cfg, w) && A.Enabled(w.account, step)
    requires step.PasswordLogin? || step.RegisterWithLogin? || step.Issue?
    ensures AO.IsNew(w.account.db.sessions, step.session, step.token)
  {
    forall s | s in w.account.db.sessions
      ensures s in w.account.sessionLog.openedBy && w.account.db.sessions[s].token in w.account.sessionLog.tokens
    {
      AccountTheorems.Rows(cfg, w, s);
    }
    hide Inv;
  }

  lemma EntitledOpens(cfg: Config, w: World, step: A.Step, user: UserId)
    requires cfg.Valid() && Inv(cfg, w) && Rbac.Inv(w.Users().Keys, w.rbac) && A.Enabled(w.account, step)
    requires step.PasswordLogin? || step.RegisterWithLogin? || step.Issue?
    requires AO.IsNew(w.account.db.sessions, step.session, step.token) && AccountOrigins.Entitles(cfg, w, step, user)
    requires step.RegisterWithLogin? ==> step.id !in w.Users()
    ensures step.session in AccountOrigins.SessionsAfter(cfg, w, step)
  {
    hide Inv, Accounts.Login, Accounts.RegisterAndLogin, Accounts.Register, Accounts.CreateUser, Accounts.OpenSession,
      Accounts.Identify, Rbac.Inv, Rbac.RoleCodes, Rbac.IsRequested, RO.HasRow, Identifiers.Username, AO.Accepts,
      AO.NamedBy, AO.OnlyName, AO.IsChecked;
    var a, cs, cfg1 := w.account.db, w.contact.db.contacts, cfg.account;
    match step
    case PasswordLogin(guard, raw, password, salt, session, token, binding) =>
      AccountOrigins.NamesAtMostOne(cfg, w, raw);
      AO.AuthenticatesIff(cfg1.hasher, a, cs, raw, password, user);
      AO.LoginAnswers(cfg1, a, cs, w.now, guard, raw, password, salt, session, token, binding);
    case RegisterWithLogin(id, raw, state, policy, password, salt, session, token, binding) =>
      var hash := cfg1.hasher.Hash(password, salt);
      AO.CreationAnswers(a.users, w.now, id, raw, state);
      AO.RegistrationAnswers(cfg1, a, w.rbac, w.now, id, raw, state, policy, hash);
      AO.RegisterAndLoginAnswers(cfg1, a, w.rbac, w.now, id, raw, state, policy, hash, session, token, binding);
    case Issue(id, session, token, binding) =>
      AO.OpeningAnswers(cfg1, a, w.now, id, session, token, binding);
  }

  /** A check outside a transaction that meets a stale hash is left with an upgrade to
      write, which takes effect if nothing replaces the hash in between. */
  lemma UpgradesAreBegun(
    cfg: Config, w: World, request: A.RequestId, raw: string, password: string, salt: Encoding.Bytes, user: UserId)
    requires cfg.Valid() && Inv(cfg, w)
    requires AO.NamedBy(w.Users(), w.contact.db.contacts, raw, user)
    requires user in w.Users() && AO.Active(w.Users()[user])
    requires AO.Accepts(cfg.account.hasher, w.account.db, user, password)
    requires cfg.account.hasher.NeedsRehash(w.account.db.passwords[user].hash)
    ensures var auths := Apply(cfg, w, AccountStep(A.BeginAuth(request, raw, password, salt))).account.auths;
            && request in auths && auths[request].user == user
            && auths[request].expected == w.account.db.passwords[user].hash
            && auths[request].next == cfg.account.hasher.Hash(password, salt)
            && !cfg.account.hasher.NeedsRehash(auths[request].next)
            && cfg.account.hasher.Verify(auths[request].next, password)
  {
    hide Inv, Accounts.AuthBegin, Accounts.Identify;
    var a, cs, hasher := w.account.db, w.contact.db.contacts, cfg.account.hasher;
    AccountOrigins.NamesAtMostOne(cfg, w, raw);
    AO.AuthenticatesIff(hasher, a, cs, raw, password, user);
    AO.LateUpgrade(hasher, a, cs, raw, password, salt);
    hide AO.OnlyName, AO.NamedBy;
  }
}
