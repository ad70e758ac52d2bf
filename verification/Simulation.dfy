/** Deleting expired sessions is invisible: a run with `DeleteExpired` steps and the
    same run without them accept the same tokens at the same times, for the same
    principals. */
module Simulation {
  import opened Types
  import opened World
  import Accounts
  import Encoding
  import Rbac
  import A = AccountProtocol
  import C = ContactProtocol

  /** The second table holds the rows of the first and rows that have expired. */
  ghost predicate SessionsAgree(now: int, ss: map<SessionId, Accounts.Session>, ss': map<SessionId, Accounts.Session>) {
    && (forall id | id in ss :: id in ss' && ss'[id] == ss[id])
    && (forall id | id in ss' && id !in ss :: ss'[id].expiresAt <= now)
  }

  /** Everything but session rows and the bookkeeping of touches is equal. */
  ghost predicate AccountsAgree(now: int, s: A.State, s': A.State) {
    && s'.db == s.db.(sessions := s'.db.sessions)
    && s' == s.(db := s'.db, sessionLog := s'.sessionLog)
    && s'.sessionLog.openedBy == s.sessionLog.openedBy && s'.sessionLog.tokens == s.sessionLog.tokens
    && SessionsAgree(now, s.db.sessions, s'.db.sessions)
  }

  ghost predicate Agree(w: World, w': World) {
    w' == w.(account := w'.account) && AccountsAgree(w.now, w.account, w'.account)
  }

  /** A step that deletes expired sessions is replaced by one that does nothing. */
  function Erased(step: Step): Step {
    if step == AccountStep(A.DeleteExpired) then Wait(0) else step
  }

  function ErasedRun(steps: seq<Step>): seq<Step> {
    seq(|steps|, i requires 0 <= i < |steps| => Erased(steps[i]))
  }

  // Sessions found by token.

  lemma SameToken(now: int, ss: map<SessionId, Accounts.Session>, ss': map<SessionId, Accounts.Session>, token: string)
    requires SessionsAgree(now, ss, ss')
    requires forall a, b | a in ss' && b in ss' && ss'[a].token == ss'[b].token :: a == b
    ensures var found, found' := Accounts.ByToken(ss, token), Accounts.ByToken(ss', token);
            if found.Some? then found' == found else found'.Some? ==> found'.value !in ss
  {}

  lemma TokensUnique(cfg: Accounts.Config, now: int, s: A.State)
    requires A.Inv(cfg, now, s)
    ensures forall a, b | a in s.db.sessions && b in s.db.sessions && s.db.sessions[a].token == s.db.sessions[b].token
              :: a == b
    ensures forall id | id in s.db.sessions ::
              id in s.sessionLog.openedBy && s.db.sessions[id].token in s.sessionLog.tokens
  {
    assert A.SessionsOk(cfg, now, s.db.users, A.Secrets(cfg.hasher, s.db.passwords), s.db.sessions, s.sessionLog);
    hide A.Inv, A.LiveOk;
    assert forall id | id in s.db.sessions ::
        A.RowOk(cfg, now, s.db.users.Keys, s.sessionLog, id, s.db.sessions[id]);
  }

  /** Both accept the same tokens, and for the same user and session. */
  lemma SameResolution(
    cfg: Accounts.Config, now: int, s: A.State, s': A.State, token: string, binding: Result<()>)
    requires AccountsAgree(now, s, s') && A.Inv(cfg, now, s')
    ensures var r, r' := Accounts.ResolveBegin(cfg, s.db, now, token, binding),
                         Accounts.ResolveBegin(cfg, s'.db, now, token, binding);
            r.Ok? || r'.Ok? ==> r' == r
  {
    hide A.Inv;
    TokensUnique(cfg, now, s');
    SameToken(now, s.db.sessions, s'.db.sessions, token);
  }

  // Writes to the session table.

  lemma TouchAgrees(
    cfg: Accounts.Config, now: int, ss: map<SessionId, Accounts.Session>, ss': map<SessionId, Accounts.Session>,
    flight: Accounts.ResolveFlight)
    requires SessionsAgree(now, ss, ss')
    ensures SessionsAgree(now, Accounts.ResolveTouch(cfg, ss, flight), Accounts.ResolveTouch(cfg, ss', flight))
  {}

  lemma ExpiryAgrees(now: int, ss: map<SessionId, Accounts.Session>, ss': map<SessionId, Accounts.Session>)
    requires SessionsAgree(now, ss, ss')
    ensures SessionsAgree(now, Accounts.WithoutExpired(ss, now), ss')
  {}

  lemma RevokeRowAgrees(
    now: int, ss: map<SessionId, Accounts.Session>, ss': map<SessionId, Accounts.Session>, id: SessionId)
    requires SessionsAgree(now, ss, ss')
    ensures var r, r' := Accounts.RevokeRow(ss, id, now), Accounts.RevokeRow(ss', id, now);
            SessionsAgree(now, if r.Ok? then r.value else ss, if r'.Ok? then r'.value else ss')
  {}

  lemma RevokeAgrees(now: int, a: Accounts.Db, a': Accounts.Db, token: string)
    requires a' == a.(sessions := a'.sessions) && SessionsAgree(now, a.sessions, a'.sessions)
    requires forall x, y | x in a'.sessions && y in a'.sessions && a'.sessions[x].token == a'.sessions[y].token
               :: x == y
    ensures var r, r' := Accounts.Revoke(a, now, token), Accounts.Revoke(a', now, token);
            var b, b' := if r.Ok? then r.value else a, if r'.Ok? then r'.value else a';
            b' == b.(sessions := b'.sessions) && SessionsAgree(now, b.sessions, b'.sessions)
  {
    SameToken(now, a.sessions, a'.sessions, token);
  }

  lemma DeletesAgree(now: int, a: Accounts.Db, a': Accounts.Db, gone: set<UserId>)
    requires a' == a.(sessions := a'.sessions) && SessionsAgree(now, a.sessions, a'.sessions)
    ensures var b, b' := Accounts.WithoutUsers(a, gone), Accounts.WithoutUsers(a', gone);
            b' == b.(sessions := b'.sessions) && SessionsAgree(now, b.sessions, b'.sessions)
  {}

  /** Outcomes of an operation on the two stores. */
  ghost predicate SameOutcome(now: int, r: Result<Accounts.Db>, r': Result<Accounts.Db>) {
    && (r.Ok? <==> r'.Ok?)
    && (r.Ok? ==> r'.value == r.value.(sessions := r'.value.sessions)
                  && SessionsAgree(now, r.value.sessions, r'.value.sessions))
  }

  lemma OpenSessionAgrees(
    cfg: Accounts.Config, now: int, a: Accounts.Db, a': Accounts.Db, user: UserId, id: SessionId, token: string,
    binding: Result<()>)
    requires a' == a.(sessions := a'.sessions) && SessionsAgree(now, a.sessions, a'.sessions)
    requires id !in a'.sessions && forall s | s in a'.sessions :: a'.sessions[s].token != token
    ensures SameOutcome(now, Accounts.OpenSession(cfg, a, now, user, id, token, binding),
                        Accounts.OpenSession(cfg, a', now, user, id, token, binding))
  {}

  lemma PasswordWritesAgree(
    hasher: Accounts.Hasher, now: int, a: Accounts.Db, a': Accounts.Db, id: UserId, value: string, salt: Encoding.Bytes,
    policy: Result<()>, hash: Accounts.PasswordHash)
    requires a' == a.(sessions := a'.sessions) && SessionsAgree(now, a.sessions, a'.sessions)
    ensures SameOutcome(now, Accounts.AuthenticateUser(hasher, a, now, id, value, salt),
                        Accounts.AuthenticateUser(hasher, a', now, id, value, salt))
    ensures SameOutcome(now, Accounts.ChangePassword(hasher, a, now, id, value, salt, policy, hash),
                        Accounts.ChangePassword(hasher, a', now, id, value, salt, policy, hash))
    ensures SameOutcome(now, Accounts.ResetPassword(a, now, id, policy, hash),
                        Accounts.ResetPassword(a', now, id, policy, hash))
  {
    hide Accounts.RevokeUsers, SessionsAgree, Accounts.Hasher.Verify, Accounts.Hasher.NeedsRehash;
    RevokeUsersAgrees(now, a.sessions, a'.sessions, {id});
  }

  lemma RevokeUsersAgrees(
    now: int, ss: map<SessionId, Accounts.Session>, ss': map<SessionId, Accounts.Session>, users: set<UserId>)
    requires SessionsAgree(now, ss, ss')
    ensures SessionsAgree(now, Accounts.RevokeUsers(ss, users, now), Accounts.RevokeUsers(ss', users, now))
  {}

  // Writes to users and passwords.

  ghost predicate SamePair(now: int, r: Result<(Accounts.Db, Rbac.Db)>, r': Result<(Accounts.Db, Rbac.Db)>) {
    && (r.Ok? <==> r'.Ok?)
    && (r.Ok? ==> r'.value.1 == r.value.1 && r'.value.0 == r.value.0.(sessions := r'.value.0.sessions)
                  && SessionsAgree(now, r.value.0.sessions, r'.value.0.sessions))
  }

  lemma NewAccountAgrees(
    cfg: Accounts.Config, now: int, a: Accounts.Db, a': Accounts.Db, r: Rbac.Db, id: UserId, raw: string,
    state: UserState, policy: Result<()>, hash: Accounts.PasswordHash, codes: seq<string>)
    requires a' == a.(sessions := a'.sessions) && SessionsAgree(now, a.sessions, a'.sessions)
    ensures SamePair(now, Accounts.Register(cfg, a, r, now, id, raw, state, policy, hash),
                     Accounts.Register(cfg, a', r, now, id, raw, state, policy, hash))
    ensures SamePair(now, Accounts.Provision(a, r, now, id, raw, state, policy, hash, codes),
                     Accounts.Provision(a', r, now, id, raw, state, policy, hash, codes))
    ensures var b := Accounts.Register(cfg, a, r, now, id, raw, state, policy, hash);
            b.Ok? ==> b.value.0.sessions == a.sessions
    ensures var b' := Accounts.Register(cfg, a', r, now, id, raw, state, policy, hash);
            b'.Ok? ==> b'.value.0.sessions == a'.sessions
  {
    hide SessionsAgree, Accounts.CreateUser, Rbac.SetUserRoles, Rbac.Resolve, Rbac.Code;
  }

  lemma RegisterAndLoginAgrees(
    cfg: Accounts.Config, now: int, a: Accounts.Db, a': Accounts.Db, r: Rbac.Db, id: UserId, raw: string,
    state: UserState, policy: Result<()>, hash: Accounts.PasswordHash, session: SessionId, token: string,
    binding: Result<()>)
    requires a' == a.(sessions := a'.sessions) && SessionsAgree(now, a.sessions, a'.sessions)
    requires session !in a'.sessions && forall s | s in a'.sessions :: a'.sessions[s].token != token
    ensures SamePair(
              now,
              Accounts.RegisterAndLogin(cfg, a, r, now, id, raw, state, policy, hash, session, token, binding),
              Accounts.RegisterAndLogin(cfg, a', r, now, id, raw, state, policy, hash, session, token, binding))
  {
    hide SessionsAgree, Accounts.Register, Accounts.OpenSession;
    NewAccountAgrees(cfg, now, a, a', r, id, raw, state, policy, hash, []);
    var b, b' := Accounts.Register(cfg, a, r, now, id, raw, state, policy, hash),
                 Accounts.Register(cfg, a', r, now, id, raw, state, policy, hash);
    if b.Ok? {
      OpenSessionAgrees(cfg, now, b.value.0, b'.value.0, id, session, token, binding);
    }
  }

  lemma LoginAgrees(
    cfg: Accounts.Config, now: int, a: Accounts.Db, a': Accounts.Db, contacts: map<ContactId, Contact>,
    guard: Result<()>, raw: string, value: string, salt: Encoding.Bytes, session: SessionId, token: string,
    binding: Result<()>)
    requires a' == a.(sessions := a'.sessions) && SessionsAgree(now, a.sessions, a'.sessions)
    requires session !in a'.sessions && forall s | s in a'.sessions :: a'.sessions[s].token != token
    ensures var r, r' := Accounts.Login(cfg, a, contacts, now, guard, raw, value, salt, session, token, binding),
                         Accounts.Login(cfg, a', contacts, now, guard, raw, value, salt, session, token, binding);
            && (r.Ok? <==> r'.Ok?)
            && (r.Ok? ==> r'.value.1 == r.value.1 && r'.value.0 == r.value.0.(sessions := r'.value.0.sessions)
                          && SessionsAgree(now, r.value.0.sessions, r'.value.0.sessions))
  {
    hide SessionsAgree, Accounts.Identify, Accounts.AuthenticateUser, Accounts.OpenSession;
    IdentifySame(cfg.hasher, a, a', contacts, raw, value);
    var user := Accounts.Identify(cfg.hasher, a, contacts, raw, value);
    if user.Ok? {
      PasswordWritesAgree(cfg.hasher, now, a, a', user.value, value, salt, Ok(()), cfg.hasher.Hash(value, salt));
      AuthenticationKeepsSessions(cfg.hasher, now, a, user.value, value, salt);
      AuthenticationKeepsSessions(cfg.hasher, now, a', user.value, value, salt);
      var b, b' := Accounts.AuthenticateUser(cfg.hasher, a, now, user.value, value, salt),
                   Accounts.AuthenticateUser(cfg.hasher, a', now, user.value, value, salt);
      if b.Ok? {
        OpenSessionAgrees(cfg, now, b.value, b'.value, user.value, session, token, binding);
      }
    }
  }

  lemma IdentifySame(
    hasher: Accounts.Hasher, a: Accounts.Db, a': Accounts.Db, contacts: map<ContactId, Contact>, raw: string,
    value: string)
    requires a' == a.(sessions := a'.sessions)
    ensures Accounts.Identify(hasher, a', contacts, raw, value) == Accounts.Identify(hasher, a, contacts, raw, value)
  {
    hide Accounts.Hasher.Verify, Accounts.Identifiers.NormalizeLoginIdentifier;
  }

  lemma AuthenticationKeepsSessions(
    hasher: Accounts.Hasher, now: int, a: Accounts.Db, id: UserId, value: string, salt: Encoding.Bytes)
    ensures var r := Accounts.AuthenticateUser(hasher, a, now, id, value, salt);
            r.Ok? ==> r.value.sessions == a.sessions
  {}

  // Steps.

  lemma AccountStepAgrees(
    cfg: Accounts.Config, now: int, contacts: map<ContactId, Contact>, r: Rbac.Db, s: A.State, s': A.State,
    step: A.Step)
    requires AccountsAgree(now, s, s') && A.Inv(cfg, now, s')
    requires A.Enabled(s, step) && step != A.DeleteExpired
    ensures A.Enabled(s', step)
    ensures var (t, r1) := A.Apply(cfg, now, contacts, r, s, step);
            var (t', r1') := A.Apply(cfg, now, contacts, r, s', step);
            r1' == r1 && AccountsAgree(now, t, t')
  {
    TokensUnique(cfg, now, s');
    hide A.Inv, SessionsAgree;
    if step.Create? || step.RegisterUser? || step.ProvisionUser? || step.RegisterWithLogin? {
      NewAccountStepAgrees(cfg, now, contacts, r, s, s', step);
    } else if step.PasswordLogin? || step.Issue? {
      LoginStepAgrees(cfg, now, contacts, r, s, s', step);
    } else if step.Change? || step.Reset? || step.BeginAuth? || step.FinishAuth? {
      PasswordStepAgrees(cfg, now, contacts, r, s, s', step);
    } else if step.BeginResolve? || step.FinishResolve? {
      ResolveStepAgrees(cfg, now, contacts, r, s, s', step);
    } else {
      OtherStepAgrees(cfg, now, contacts, r, s, s', step);
    }
  }

  lemma NewAccountStepAgrees(
    cfg: Accounts.Config, now: int, contacts: map<ContactId, Contact>, r: Rbac.Db, s: A.State, s': A.State,
    step: A.Step)
    requires AccountsAgree(now, s, s') && A.Enabled(s, step) && A.Enabled(s', step)
    requires step.Create? || step.RegisterUser? || step.ProvisionUser? || step.RegisterWithLogin?
    requires forall id | id in s'.db.sessions ::
               id in s'.sessionLog.openedBy && s'.db.sessions[id].token in s'.sessionLog.tokens
    ensures var (t, r1) := A.Apply(cfg, now, contacts, r, s, step);
            var (t', r1') := A.Apply(cfg, now, contacts, r, s', step);
            r1' == r1 && AccountsAgree(now, t, t')
  {
    hide SessionsAgree, Accounts.CreateUser, Accounts.Register, Accounts.Provision, Accounts.RegisterAndLogin;
    if step.RegisterUser? {
      NewAccountAgrees(cfg, now, s.db, s'.db, r, step.id, step.raw, step.state, step.policy,
                       cfg.hasher.Hash(step.password, step.salt), []);
    } else if step.ProvisionUser? {
      NewAccountAgrees(cfg, now, s.db, s'.db, r, step.id, step.raw, step.state, step.policy,
                       cfg.hasher.Hash(step.password, step.salt), step.codes);
    } else if step.RegisterWithLogin? {
      RegisterAndLoginAgrees(cfg, now, s.db, s'.db, r, step.id, step.raw, step.state, step.policy,
                             cfg.hasher.Hash(step.password, step.salt), step.session, step.token, step.binding);
    }
  }

  lemma LoginStepAgrees(
    cfg: Accounts.Config, now: int, contacts: map<ContactId, Contact>, r: Rbac.Db, s: A.State, s': A.State,
    step: A.Step)
    requires AccountsAgree(now, s, s') && A.Enabled(s, step) && A.Enabled(s', step)
    requires step.PasswordLogin? || step.Issue?
    requires forall id | id in s'.db.sessions ::
               id in s'.sessionLog.openedBy && s'.db.sessions[id].token in s'.sessionLog.tokens
    ensures var (t, r1) := A.Apply(cfg, now, contacts, r, s, step);
            var (t', r1') := A.Apply(cfg, now, contacts, r, s', step);
            r1' == r1 && AccountsAgree(now, t, t')
  {
    hide SessionsAgree, Accounts.Login, Accounts.OpenSession;
    if step.PasswordLogin? {
      LoginAgrees(cfg, now, s.db, s'.db, contacts, step.guard, step.raw, step.password, step.salt, step.session,
                  step.token, step.binding);
    } else {
      OpenSessionAgrees(cfg, now, s.db, s'.db, step.id, step.session, step.token, step.binding);
    }
  }

  lemma PasswordStepAgrees(
    cfg: Accounts.Config, now: int, contacts: map<ContactId, Contact>, r: Rbac.Db, s: A.State, s': A.State,
    step: A.Step)
    requires AccountsAgree(now, s, s') && A.Enabled(s, step) && A.Enabled(s', step)
    requires step.Change? || step.Reset? || step.BeginAuth? || step.FinishAuth?
    ensures var (t, r1) := A.Apply(cfg, now, contacts, r, s, step);
            var (t', r1') := A.Apply(cfg, now, contacts, r, s', step);
            r1' == r1 && AccountsAgree(now, t, t')
  {
    hide SessionsAgree, Accounts.ChangePassword, Accounts.ResetPassword, Accounts.Identify, Accounts.Rehash;
    if step.Change? {
      PasswordWritesAgree(cfg.hasher, now, s.db, s'.db, step.id, step.password, step.salt, step.policy,
                          cfg.hasher.Hash(step.next, step.nextSalt));
    } else if step.Reset? {
      PasswordWritesAgree(cfg.hasher, now, s.db, s'.db, step.id, "", step.nextSalt, step.policy,
                          cfg.hasher.Hash(step.next, step.nextSalt));
    } else if step.BeginAuth? {
      IdentifySame(cfg.hasher, s.db, s'.db, contacts, step.raw, step.password);
    }
  }

  lemma ResolveStepAgrees(
    cfg: Accounts.Config, now: int, contacts: map<ContactId, Contact>, r: Rbac.Db, s: A.State, s': A.State,
    step: A.Step)
    requires AccountsAgree(now, s, s') && A.Inv(cfg, now, s') && A.Enabled(s, step) && A.Enabled(s', step)
    requires step.BeginResolve? || step.FinishResolve?
    ensures var (t, r1) := A.Apply(cfg, now, contacts, r, s, step);
            var (t', r1') := A.Apply(cfg, now, contacts, r, s', step);
            r1' == r1 && AccountsAgree(now, t, t')
  {
    hide A.Inv, SessionsAgree, Accounts.ResolveBegin, Accounts.ResolveTouch;
    if step.BeginResolve? {
      SameResolution(cfg, now, s, s', step.token, step.binding);
    } else {
      TouchAgrees(cfg, now, s.db.sessions, s'.db.sessions, s.resolves[step.request]);
    }
  }

  lemma OtherStepAgrees(
    cfg: Accounts.Config, now: int, contacts: map<ContactId, Contact>, r: Rbac.Db, s: A.State, s': A.State,
    step: A.Step)
    requires AccountsAgree(now, s, s') && A.Enabled(s, step) && A.Enabled(s', step)
    requires step.RevokeToken? || step.RevokeById? || step.RevokeForUsers? || step.ChangeState? || step.Delete?
    requires var ss' := s'.db.sessions;
             forall a, b | a in ss' && b in ss' && ss'[a].token == ss'[b].token :: a == b
    ensures var (t, r1) := A.Apply(cfg, now, contacts, r, s, step);
            var (t', r1') := A.Apply(cfg, now, contacts, r, s', step);
            r1' == r1 && AccountsAgree(now, t, t')
  {
    hide SessionsAgree, Accounts.RevokeRow, Accounts.RevokeUsers, Accounts.WithState, Accounts.WithoutUsers;
    var ss, ss' := s.db.sessions, s'.db.sessions;
    if step.RevokeToken? {
      RevokeAgrees(now, s.db, s'.db, step.token);
    } else if step.RevokeById? {
      RevokeRowAgrees(now, ss, ss', step.session);
    } else if step.Delete? {
      DeletesAgree(now, s.db, s'.db, Accounts.AsSet(step.ids));
    } else {
      RevokeUsersAgrees(now, ss, ss', Accounts.AsSet(step.ids));
    }
  }

  lemma AccountAgrees(cfg: Config, w: World, w': World, step: A.Step)
    requires Inv(cfg, w') && Agree(w, w') && A.Enabled(w.account, step) && step != A.DeleteExpired
    ensures A.Enabled(w'.account, step)
    ensures Agree(Apply(cfg, w, AccountStep(step)), Apply(cfg, w', AccountStep(step)))
  {
    hide A.Inv, A.Apply, AccountsAgree, A.Enabled, C.Inv, C.ValuesNormal, Rbac.Inv;
    AccountStepAgrees(cfg.account, w.now, w.contact.db.contacts, w.rbac, w.account, w'.account, step);
    SameGone(w.now, w.account, w'.account, step);
  }

  lemma SameGone(now: int, s: A.State, s': A.State, step: A.Step)
    requires AccountsAgree(now, s, s')
    ensures A.Gone(s', step) == A.Gone(s, step)
  {
    hide SessionsAgree, Accounts.WithoutUsers;
  }

  lemma StepAgrees(cfg: Config, w: World, w': World, step: Step)
    requires Inv(cfg, w') && Agree(w, w') && Enabled(w, step)
    ensures Enabled(w', Erased(step))
    ensures Agree(Apply(cfg, w, step), Apply(cfg, w', Erased(step)))
  {
    hide Inv, A.Apply, A.Gone, C.Apply, ApplyRoles;
    if step.AccountStep? {
      if step.accountStep == A.DeleteExpired {
        DeleteExpiredAgrees(cfg, w, w');
      } else {
        hide Agree, Apply, A.Enabled;
        AccountAgrees(cfg, w, w', step.accountStep);
      }
    }
  }

  lemma DeleteExpiredAgrees(cfg: Config, w: World, w': World)
    requires Agree(w, w')
    ensures Agree(Apply(cfg, w, AccountStep(A.DeleteExpired)), w')
  {
    hide SessionsAgree;
    ExpiryAgrees(w.now, w.account.db.sessions, w'.account.db.sessions);
    assert Contacts.WithoutUsers(w.contact.db, {}) == w.contact.db;
  }

  // Runs.

  /** `ws'` is the erased run so far. */
  ghost predicate ErasedSoFar(cfg: Config, ws: seq<World>, steps: seq<Step>, ws': seq<World>, n: nat) {
    && n < |ws| == |steps| + 1 && |ws'| == n + 1 && ws'[0] == ws[0]
    && (forall i | 0 <= i < n ::
          Enabled(ws'[i], Erased(steps[i])) && ws'[i + 1] == Apply(cfg, ws'[i], Erased(steps[i])))
    && (forall i | 0 <= i <= n :: Inv(cfg, ws'[i]) && Agree(ws[i], ws'[i]))
  }

  lemma {:induction false} ErasedPrefix(cfg: Config, ws: seq<World>, steps: seq<Step>, n: nat)
    returns (ws': seq<World>)
    requires cfg.Valid() && Run(cfg, ws, steps) && n < |ws|
    ensures ErasedSoFar(cfg, ws, steps, ws', n)
  {
    hide Inv, Agree, Init, Apply;
    if n == 0 {
      ws' := [ws[0]];
      RunInv(cfg, ws, steps, 0);
      AgreesWithItself(ws[0]);
    } else {
      var before := ErasedPrefix(cfg, ws, steps, n - 1);
      StepAgrees(cfg, ws[n - 1], before[n - 1], steps[n - 1]);
      var next := Apply(cfg, before[n - 1], Erased(steps[n - 1]));
      StepFollows(cfg, before[n - 1], Erased(steps[n - 1]));
      ws' := before + [next];
    }
  }

  lemma AgreesWithItself(w: World)
    ensures Agree(w, w)
  {}

  /** The session a token is accepted for. */
  ghost function Accepted(cfg: Config, w: World, token: string, binding: Result<()>): Option<Accounts.ResolveFlight> {
    match Accounts.ResolveBegin(cfg.account, w.account.db, w.now, token, binding)
    case Ok(flight) => Some(flight)
    case Err(_) => None
  }

  /** The principal a resolution in flight returns when it finishes. */
  ghost function Answered(w: World, request: A.RequestId): Option<Accounts.Principal> {
    if request in w.account.resolves then Some(Accounts.PrincipalOf(w.account.resolves[request], w.rbac)) else None
  }

  /** Every run has a twin without `DeleteExpired` steps.  At each moment the two
      accept the same tokens for the same sessions, answer with the same principals,
      and agree on every table but the sessions. */
  lemma DeletionIsInvisible(cfg: Config, ws: seq<World>, steps: seq<Step>)
    returns (ws': seq<World>)
    requires cfg.Valid() && Run(cfg, ws, steps)
    ensures Run(cfg, ws', ErasedRun(steps)) && ws'[0] == ws[0]
    ensures forall i, token, binding | 0 <= i < |ws| ::
              Accepted(cfg, ws'[i], token, binding) == Accepted(cfg, ws[i], token, binding)
    ensures forall i, request | 0 <= i < |ws| :: Answered(ws'[i], request) == Answered(ws[i], request)
    ensures forall i | 0 <= i < |ws| ::
              && ws'[i].now == ws[i].now && ws'[i].rbac == ws[i].rbac && ws'[i].contact == ws[i].contact
              && ws'[i].account.db == ws[i].account.db.(sessions := ws'[i].account.db.sessions)
  {
    hide Inv, Init, Apply, Accounts.ResolveBegin, Accounts.PrincipalOf, SessionsAgree;
    ws' := ErasedPrefix(cfg, ws, steps, |steps|);
    forall i, token, binding | 0 <= i < |ws|
      ensures Accepted(cfg, ws'[i], token, binding) == Accepted(cfg, ws[i], token, binding)
    {
      AccountInv(cfg, ws'[i]);
      SameResolution(cfg.account, ws[i].now, ws[i].account, ws'[i].account, token, binding);
    }
  }
}
