/** Who gets in, over whole runs: every session goes back to a step that was entitled to
    open it, and only active users authenticate. */
module AccountOrigins {
  import opened Types
  import opened World
  import opened AccountTheorems
  import opened SessionTheorems
  import Accounts
  import AccountOutcomes
  import A = AccountProtocol
  import C = ContactProtocol
  import ContactTheorems
  import Identifiers
  import Rbac
  import RoleOutcomes

  // Authentication.

  /** In a reachable world an identifier and a password authenticate a user exactly if
      the identifier names the user, the user is active and the password is accepted. */
  lemma AuthenticatesExactly(
    cfg: Config, ws: seq<World>, steps: seq<Step>, i: nat, raw: string, value: string, user: UserId)
    requires cfg.Valid() && Run(cfg, ws, steps) && i < |ws|
    ensures var w := ws[i];
            Accounts.Identify(cfg.account.hasher, w.account.db, w.contact.db.contacts, raw, value) == Ok(user) <==>
              && AccountOutcomes.NamedBy(w.Users(), w.contact.db.contacts, raw, user)
              && user in w.Users() && AccountOutcomes.Active(w.Users()[user])
              && AccountOutcomes.Accepts(cfg.account.hasher, w.account.db, user, value)
  {
    hide Inv, Accounts.Identify;
    RunInv(cfg, ws, steps, i);
    hide Run;
    NamesAtMostOne(cfg, ws[i], raw);
    AccountOutcomes.AuthenticatesIff(cfg.account.hasher, ws[i].account.db, ws[i].contact.db.contacts, raw, value, user);
  }

  lemma NamesAtMostOne(cfg: Config, w: World, raw: string)
    requires Inv(cfg, w)
    ensures AccountOutcomes.OnlyName(w.Users(), w.contact.db.contacts, raw)
  {
    hide Inv, Accounts.Names, Identifiers.NormalizeLoginIdentifier;
    forall id, u, v | Identifiers.NormalizeLoginIdentifier(raw) == Ok(id)
                      && Accounts.Names(w.Users(), w.contact.db.contacts, id, u)
                      && Accounts.Names(w.Users(), w.contact.db.contacts, id, v)
      ensures u == v
    {
      ContactTheorems.NamesOne(cfg, w, id, u, v);
    }
  }

  // Sessions.

  /** The step may open a session for the user: its binding is good, and it is a login
      whose guard let it and whose input authenticates the user, or the registration of
      the user under a free name, an allowed password and default roles that exist, or an issue for an active user. */
  ghost predicate Entitles(cfg: Config, w: World, step: A.Step, user: UserId) {
    match step
    case PasswordLogin(guard, raw, password, _, _, _, binding) =>
      && guard.Ok? && binding.Ok?
      && AccountOutcomes.NamedBy(w.Users(), w.contact.db.contacts, raw, user)
      && user in w.Users() && AccountOutcomes.Active(w.Users()[user])
      && AccountOutcomes.Accepts(cfg.account.hasher, w.account.db, user, password)
    case RegisterWithLogin(id, raw, state, policy, _, _, _, _, binding) =>
      && user == id && id !in w.Users() && state == Active && policy.Ok? && binding.Ok?
      && Identifiers.Username(raw).Ok? && !AccountOutcomes.HasName(w.Users(), Identifiers.Username(raw).value)
      && forall i | 0 <= i < |cfg.account.defaultRoles| ::
           RoleOutcomes.HasRow(w.rbac.roles, cfg.account.defaultRoles[i])
    case Issue(id, _, _, binding) =>
      user == id && user in w.Users() && AccountOutcomes.Active(w.Users()[user]) && binding.Ok?
    case _ => false
  }

  /** The row a step inserts for a session: the step's token, live from its clock for the
      time to live, for a user it is entitled to. */
  ghost predicate GrantedAt(
    cfg: Config, ws: seq<World>, steps: seq<Step>, s: SessionId, row: Accounts.Session, k: nat)
  {
    && k < |steps| && OpensAt(ws, s, k) && steps[k].AccountStep?
    && Entitles(cfg, ws[k], steps[k].accountStep, row.user)
    && steps[k].accountStep.session == s && steps[k].accountStep.token == row.token
    && row.createdAt == ws[k].now && row.expiresAt == ws[k].now + cfg.account.ttl
  }

  lemma StepGrants(cfg: Config, ws: seq<World>, steps: seq<Step>, s: SessionId, k: nat)
    requires cfg.Valid() && k < |steps| && OpensAt(ws, s, k) && Inv(cfg, ws[k]) && Enabled(ws[k], steps[k])
    requires ws[k + 1] == Apply(cfg, ws[k], steps[k])
    ensures GrantedAt(cfg, ws, steps, s, Sessions(ws[k + 1])[s], k)
  {
    hide Inv, C.Apply, ApplyRoles, A.Apply, Entitles;
    RolesInv(cfg, ws[k]);
    hide Rbac.Inv;
    var w := ws[k];
    if steps[k].AccountStep? {
      var step := steps[k].accountStep;
      if step.PasswordLogin? {
        LoginGrants(cfg, w, step, s);
      } else if step.RegisterWithLogin? {
        RegistrationGrants(cfg, w, step, s);
      } else if step.Issue? {
        IssueGrants(cfg, w, step, s);
      } else {
        OthersGrantNothing(cfg, w, step, s);
      }
    }
  }

  lemma RolesInv(cfg: Config, w: World)
    requires Inv(cfg, w)
    ensures Rbac.Inv(w.Users().Keys, w.rbac)
  {}

  ghost function SessionsAfter(cfg: Config, w: World, step: A.Step): map<SessionId, Accounts.Session>
    requires A.Enabled(w.account, step)
  {
    A.Apply(cfg.account, w.now, w.contact.db.contacts, w.rbac, w.account, step).0.db.sessions
  }

  ghost predicate IsGranted(cfg: Config, w: World, step: A.Step, s: SessionId)
    requires A.Enabled(w.account, step)
  {
    && s in SessionsAfter(cfg, w, step)
    && var row := SessionsAfter(cfg, w, step)[s];
       && Entitles(cfg, w, step, row.user)
       && step.session == s && step.token == row.token
       && row.createdAt == w.now && row.expiresAt == w.now + cfg.account.ttl
  }

  lemma LoginGrants(cfg: Config, w: World, step: A.Step, s: SessionId)
    requires cfg.Valid() && Inv(cfg, w) && A.Enabled(w.account, step) && step.PasswordLogin?
    requires s !in Sessions(w) && s in SessionsAfter(cfg, w, step)
    ensures IsGranted(cfg, w, step, s)
  {
    hide Inv, Accounts.Login, Accounts.Identify, Accounts.Names, Identifiers.NormalizeLoginIdentifier;
    var cs, hasher := w.contact.db.contacts, cfg.account.hasher;
    AccountOutcomes.LoginAnswers(cfg.account, w.account.db, cs, w.now, step.guard, step.raw, step.password, step.salt,
                                 step.session, step.token, step.binding);
    NamesAtMostOne(cfg, w, step.raw);
    hide AccountOutcomes.OnlyName, AccountOutcomes.NamedBy, AccountOutcomes.Accepts, AccountOutcomes.IsChecked;
    var user := Accounts.Identify(hasher, w.account.db, cs, step.raw, step.password);
    if user.Ok? {
      AccountOutcomes.AuthenticatesIff(hasher, w.account.db, cs, step.raw, step.password, user.value);
    }
  }

  lemma RegistrationGrants(cfg: Config, w: World, step: A.Step, s: SessionId)
    requires cfg.Valid() && Rbac.Inv(w.Users().Keys, w.rbac) && A.Enabled(w.account, step) && step.RegisterWithLogin?
    requires s !in Sessions(w) && s in SessionsAfter(cfg, w, step)
    ensures IsGranted(cfg, w, step, s)
  {
    hide Accounts.RegisterAndLogin, Accounts.Register, Accounts.CreateUser, Rbac.Inv, Rbac.RoleCodes, Rbac.IsRequested,
      RoleOutcomes.HasRow, Identifiers.Username;
    var hash := cfg.account.hasher.Hash(step.password, step.salt);
    AccountOutcomes.CreationAnswers(w.Users(), w.now, step.id, step.raw, step.state);
    AccountOutcomes.RegistrationAnswers(cfg.account, w.account.db, w.rbac, w.now, step.id, step.raw, step.state,
                                        step.policy, hash);
    AccountOutcomes.RegisterAndLoginAnswers(cfg.account, w.account.db, w.rbac, w.now, step.id, step.raw, step.state,
                                            step.policy, hash, step.session, step.token, step.binding);
  }

  lemma IssueGrants(cfg: Config, w: World, step: A.Step, s: SessionId)
    requires A.Enabled(w.account, step) && step.Issue?
    requires s !in Sessions(w) && s in SessionsAfter(cfg, w, step)
    ensures IsGranted(cfg, w, step, s)
  {
    hide Accounts.OpenSession;
    AccountOutcomes.OpeningAnswers(cfg.account, w.account.db, w.now, step.id, step.session, step.token, step.binding);
  }

  lemma OthersGrantNothing(cfg: Config, w: World, step: A.Step, s: SessionId)
    requires A.Enabled(w.account, step) && !step.PasswordLogin? && !step.RegisterWithLogin? && !step.Issue?
    ensures s in SessionsAfter(cfg, w, step) ==> s in Sessions(w)
  {
    hide Accounts.CreateUser, Accounts.AuthBegin, Accounts.ResolveBegin, Accounts.Rehash,
      Rbac.SetUserRoles, Rbac.Resolve, Rbac.Code;
  }

  /** Every session was opened by a step entitled to open it for its user. */
  lemma {:induction false} SessionWasGranted(cfg: Config, ws: seq<World>, steps: seq<Step>, i: nat, s: SessionId)
    returns (k: nat)
    requires cfg.Valid() && Run(cfg, ws, steps) && i < |ws| && s in Sessions(ws[i])
    ensures k < i && GrantedAt(cfg, ws, steps, s, Sessions(ws[i])[s], k)
  {
    hide Inv, Apply, Init, GrantedAt;
    NoSessions(cfg, ws, steps);
    RunInv(cfg, ws, steps, i - 1);
    StepFollows(cfg, ws[i - 1], steps[i - 1]);
    if s in Sessions(ws[i - 1]) {
      k := SessionWasGranted(cfg, ws, steps, i - 1, s);
      StoredIsOpened(cfg, ws[i - 1], s);
      GrantStays(cfg, ws, steps, s, Sessions(ws[i - 1])[s], Sessions(ws[i])[s], k);
    } else {
      k := i - 1;
      StepGrants(cfg, ws, steps, s, k);
    }
  }

  lemma GrantStays(
    cfg: Config, ws: seq<World>, steps: seq<Step>, s: SessionId, row: Accounts.Session, row': Accounts.Session, k: nat)
    requires GrantedAt(cfg, ws, steps, s, row, k) && A.RowEvolves(row, row')
    ensures GrantedAt(cfg, ws, steps, s, row', k)
  {}

  lemma NoSessions(cfg: Config, ws: seq<World>, steps: seq<Step>)
    requires Run(cfg, ws, steps)
    ensures Sessions(ws[0]) == map[]
  {
    hide Apply;
  }
}
