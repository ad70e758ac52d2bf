/** What sessions guarantee over whole runs, in terms of the steps that opened, used
    and touched them. */
module SessionTheorems {
  import opened Types
  import opened World
  import opened AccountTheorems
  import Accounts
  import A = AccountProtocol
  import C = ContactProtocol
  import Rbac

  // The session log of a state is the history of its run.

  ghost predicate OpensAt(ws: seq<World>, s: SessionId, k: nat) {
    k + 1 < |ws| && s !in Sessions(ws[k]) && s in Sessions(ws[k + 1])
  }

  /** The step opens a session for a password. */
  predicate OpenedWith(step: Step, s: SessionId, password: string) {
    && step.AccountStep?
    && (step.accountStep.PasswordLogin? || step.accountStep.RegisterWithLogin?)
    && step.accountStep.session == s && step.accountStep.password == password
  }

  ghost predicate OpensWithAt(ws: seq<World>, steps: seq<Step>, s: SessionId, password: string, k: nat) {
    k < |steps| && OpensAt(ws, s, k) && OpenedWith(steps[k], s, password)
  }

  /** A resolution of the session ends at step `k`. */
  ghost predicate FinishesAt(ws: seq<World>, steps: seq<Step>, s: SessionId, k: nat) {
    && k < |steps| && k < |ws| && steps[k].AccountStep? && steps[k].accountStep.FinishResolve?
    && steps[k].accountStep.request in ws[k].account.resolves
    && ws[k].account.resolves[steps[k].accountStep.request].session == s
  }

  /** It changed the row. */
  ghost predicate TouchesAt(ws: seq<World>, steps: seq<Step>, s: SessionId, k: nat) {
    && FinishesAt(ws, steps, s, k) && k + 1 < |ws| && s in Sessions(ws[k]) && s in Sessions(ws[k + 1])
    && Sessions(ws[k + 1])[s] != Sessions(ws[k])[s]
  }

  ghost function Touches(ws: seq<World>, steps: seq<Step>, s: SessionId, i: nat): set<nat> {
    set k: nat | k < i && TouchesAt(ws, steps, s, k)
  }

  /** The session was opened, or resolved to the end, with this clock. */
  ghost predicate UsedAt(ws: seq<World>, steps: seq<Step>, s: SessionId, k: nat, clock: int) {
    || (OpensAt(ws, s, k) && clock == ws[k].now)
    || (FinishesAt(ws, steps, s, k) && clock == ws[k].account.resolves[steps[k].accountStep.request].readAt)
  }

  ghost predicate IsLastUse(ws: seq<World>, steps: seq<Step>, s: SessionId, i: nat, clock: int) {
    && (exists k: nat :: k < i && UsedAt(ws, steps, s, k, clock))
    && (forall k: nat, c: int | k < i && UsedAt(ws, steps, s, k, c) :: c <= clock)
  }

  // One step of the log.

  predicate SameSessions(log: A.SessionLog) {
    log.openedBy.Keys == log.touched.Keys == log.settled.Keys
  }

  predicate FinishesFor(s: A.State, step: A.Step, id: SessionId) {
    step.FinishResolve? && step.request in s.resolves && s.resolves[step.request].session == id
  }

  /** What a step writes to the log of a session. */
  ghost predicate LogEvolves(now: int, s: A.State, s': A.State, step: A.Step, id: SessionId)
    requires SameSessions(s.sessionLog)
  {
    var log, log' := s.sessionLog, s'.sessionLog;
    && SameSessions(log')
    && (id in log.openedBy ==>
          && id in log'.openedBy && log'.openedBy[id] == log.openedBy[id]
          && if FinishesFor(s, step, id) then
            && log'.touched[id] == log.touched[id] + (if s'.db.sessions != s.db.sessions then 1 else 0)
            && log'.settled[id] == Max(log.settled[id], s.resolves[step.request].readAt)
          else log'.touched[id] == log.touched[id] && log'.settled[id] == log.settled[id])
    && (id !in log.openedBy && id in log'.openedBy ==>
          && log'.touched[id] == 0 && log'.settled[id] == now
          && (forall password :: log'.openedBy[id] == Some(password) <==>
                OpenedWith(AccountStep(step), id, password)))
  }

  lemma StepLogs(
    cfg: Accounts.Config, now: int, contacts: map<ContactId, Contact>, r: Rbac.Db, s: A.State, step: A.Step,
    id: SessionId)
    requires A.Enabled(s, step) && SameSessions(s.sessionLog)
    ensures LogEvolves(now, s, A.Apply(cfg, now, contacts, r, s, step).0, step, id)
  {
    hide A.Apply, Max;
    if step.RegisterWithLogin? || step.PasswordLogin? || step.Issue? {
      OpeningLogs(cfg, now, contacts, r, s, step);
    } else {
      OtherLogs(cfg, now, contacts, r, s, step);
    }
  }

  lemma OpeningLogs(
    cfg: Accounts.Config, now: int, contacts: map<ContactId, Contact>, r: Rbac.Db, s: A.State, step: A.Step)
    requires A.Enabled(s, step) && (step.RegisterWithLogin? || step.PasswordLogin? || step.Issue?)
    ensures var log' := A.Apply(cfg, now, contacts, r, s, step).0.sessionLog;
            var password := if step.Issue? then None else Some(step.password);
            || log' == s.sessionLog
            || log' == A.SessionOpened(s, now, step.session, step.token, password).sessionLog
  {
    hide Accounts.RegisterAndLogin, Accounts.Login, Accounts.OpenSession;
  }

  lemma OtherLogs(
    cfg: Accounts.Config, now: int, contacts: map<ContactId, Contact>, r: Rbac.Db, s: A.State, step: A.Step)
    requires A.Enabled(s, step) && !(step.RegisterWithLogin? || step.PasswordLogin? || step.Issue?)
    ensures var s' := A.Apply(cfg, now, contacts, r, s, step).0;
            s'.sessionLog == if step.FinishResolve?
                             then A.Resolved(s.sessionLog, s.resolves[step.request].session,
                                             s.resolves[step.request].readAt, s'.db.sessions != s.db.sessions)
                             else s.sessionLog
  {
    hide Accounts.Register, Accounts.Provision, Accounts.CreateUser, Accounts.ChangePassword, Accounts.ResetPassword,
      Accounts.AuthBegin, Accounts.ResolveBegin, Accounts.Revoke, Accounts.SetState, Accounts.DeleteUsers,
      Accounts.RevokeUsers, Accounts.WithoutExpired, Accounts.ResolveTouch, Accounts.Rehash, Accounts.RevokeRow,
      A.Resolved;
  }

  // The rows behind the log.

  /** A step opens a session in the log exactly if it inserts its row, and a finished
      resolution changes at most the row it is for. */
  lemma RowsOfStep(cfg: Config, w: World, step: Step, s: SessionId)
    requires cfg.Valid() && Inv(cfg, w) && Enabled(w, step)
    ensures var w' := Apply(cfg, w, step);
            && (s in w'.account.sessionLog.openedBy && s !in w.account.sessionLog.openedBy <==>
                  s !in Sessions(w) && s in Sessions(w'))
            && (step.AccountStep? && FinishesFor(w.account, step.accountStep, s) ==>
                  (Sessions(w') != Sessions(w) <==>
                     s in Sessions(w) && s in Sessions(w') && Sessions(w')[s] != Sessions(w)[s]))
  {
    hide Inv, Apply;
    var w' := Apply(cfg, w, step);
    StepFollows(cfg, w, step);
    OpenedNow(cfg, w, step, s);
    StoredIsOpened(cfg, w, s);
    StoredIsOpened(cfg, w', s);
    if step.AccountStep? && FinishesFor(w.account, step.accountStep, s) {
      FinishWrites(cfg, w, step.accountStep, s);
    }
  }

  lemma StoredIsOpened(cfg: Config, w: World, s: SessionId)
    requires Inv(cfg, w)
    ensures s in Sessions(w) ==> s in w.account.sessionLog.openedBy
  {
    if s in Sessions(w) {
      Rows(cfg, w, s);
    }
    hide Inv;
  }

  lemma FinishWrites(cfg: Config, w: World, step: A.Step, s: SessionId)
    requires FinishesFor(w.account, step, s)
    ensures var ss, ss' := Sessions(w), Sessions(Apply(cfg, w, AccountStep(step)));
            ss' == if s in ss && s in ss' then ss[s := ss'[s]] else ss
  {}

  // Whole runs.

  ghost predicate IsHistory(ws: seq<World>, steps: seq<Step>, s: SessionId, i: nat)
    requires i < |ws|
  {
    var log := ws[i].account.sessionLog;
    && SameSessions(log)
    && if s in log.openedBy then
      log.touched[s] == |Touches(ws, steps, s, i)| && IsLastUse(ws, steps, s, i, log.settled[s])
    else forall k: nat, clock: int | k < i :: !UsedAt(ws, steps, s, k, clock)
  }

  lemma TouchesGrow(ws: seq<World>, steps: seq<Step>, s: SessionId, i: nat)
    ensures |Touches(ws, steps, s, i + 1)|
         == |Touches(ws, steps, s, i)| + if TouchesAt(ws, steps, s, i) then 1 else 0
  {
    hide TouchesAt;
    assert Touches(ws, steps, s, i + 1)
        == Touches(ws, steps, s, i) + if TouchesAt(ws, steps, s, i) then {i} else {};
    assert i !in Touches(ws, steps, s, i);
  }

  lemma LastUseMoves(ws: seq<World>, steps: seq<Step>, s: SessionId, i: nat, clock: int)
    requires IsLastUse(ws, steps, s, i, clock)
    ensures (forall c :: !UsedAt(ws, steps, s, i, c)) ==> IsLastUse(ws, steps, s, i + 1, clock)
    ensures forall c | UsedAt(ws, steps, s, i, c) && (forall d | UsedAt(ws, steps, s, i, d) :: d == c) ::
              IsLastUse(ws, steps, s, i + 1, Max(clock, c))
  {
    hide UsedAt;
  }

  lemma LogOfStep(cfg: Config, w: World, step: Step, s: SessionId)
    requires Enabled(w, step) && SameSessions(w.account.sessionLog)
    ensures var w' := Apply(cfg, w, step);
            if step.AccountStep? then LogEvolves(w.now, w.account, w'.account, step.accountStep, s)
            else w'.account == w.account
  {
    hide C.Apply, ApplyRoles, A.Apply, LogEvolves;
    if step.AccountStep? {
      StepLogs(cfg.account, w.now, w.contact.db.contacts, w.rbac, w.account, step.accountStep, s);
    }
  }

  lemma FinishedIsOpened(cfg: Config, ws: seq<World>, steps: seq<Step>, s: SessionId, i: nat)
    requires i < |ws| && Inv(cfg, ws[i]) && FinishesAt(ws, steps, s, i)
    ensures s in ws[i].account.sessionLog.openedBy
  {
    FlightFacts(cfg, ws[i], steps[i].accountStep.request);
    hide Inv;
  }

  lemma FlightFacts(cfg: Config, w: World, request: A.RequestId)
    requires Inv(cfg, w) && request in w.account.resolves
    ensures A.ResolveOk(cfg.account, w.now, Sessions(w), w.account.sessionLog, w.account.resolves[request])
  {
    hide C.Inv, C.ValuesNormal, Rbac.Inv;
    assert A.ResolvesOk(cfg.account, w.now, Sessions(w), w.account.sessionLog, w.account.resolves);
  }

  lemma HistoryGrows(cfg: Config, ws: seq<World>, steps: seq<Step>, s: SessionId, i: nat)
    requires cfg.Valid() && i < |steps| && i + 1 < |ws| && Inv(cfg, ws[i]) && Enabled(ws[i], steps[i])
    requires ws[i + 1] == Apply(cfg, ws[i], steps[i]) && IsHistory(ws, steps, s, i)
    ensures IsHistory(ws, steps, s, i + 1)
  {
    hide Inv, Apply, IsLastUse;
    RowsOfStep(cfg, ws[i], steps[i], s);
    LogOfStep(cfg, ws[i], steps[i], s);
    TouchesGrow(ws, steps, s, i);
    if FinishesAt(ws, steps, s, i) {
      FinishedIsOpened(cfg, ws, steps, s, i);
    }
    if s in ws[i].account.sessionLog.openedBy {
      LastUseMoves(ws, steps, s, i, ws[i].account.sessionLog.settled[s]);
    } else if s in ws[i + 1].account.sessionLog.openedBy {
      FirstUse(ws, steps, s, i);
    }
  }

  lemma FirstUse(ws: seq<World>, steps: seq<Step>, s: SessionId, i: nat)
    requires i + 1 < |ws| && OpensAt(ws, s, i) && !FinishesAt(ws, steps, s, i)
    requires forall k: nat, clock: int | k < i :: !UsedAt(ws, steps, s, k, clock)
    ensures Touches(ws, steps, s, i + 1) == {} && IsLastUse(ws, steps, s, i + 1, ws[i].now)
  {
    assert UsedAt(ws, steps, s, i, ws[i].now);
    forall k: nat | k <= i && TouchesAt(ws, steps, s, k)
      ensures false
    {
      TouchIsUse(ws, steps, s, k);
    }
  }

  lemma TouchIsUse(ws: seq<World>, steps: seq<Step>, s: SessionId, k: nat)
    requires TouchesAt(ws, steps, s, k)
    ensures exists clock :: UsedAt(ws, steps, s, k, clock)
  {
    assert UsedAt(ws, steps, s, k, ws[k].account.resolves[steps[k].accountStep.request].readAt);
  }

  lemma AgreesOnSessions(ws: seq<World>, steps: seq<Step>, s: SessionId, i: nat)
    requires i < |ws| && IsHistory(ws, steps, s, i)
    ensures SameSessions(ws[i].account.sessionLog)
  {}

  lemma NoHistory(ws: seq<World>, steps: seq<Step>, s: SessionId)
    requires |ws| > 0 && Init(ws[0])
    ensures IsHistory(ws, steps, s, 0) && s !in ws[0].account.sessionLog.openedBy
  {
    hide A.UsersOk, Rbac.Inv;
  }

  /** The log of a session is the history of its run: how often a resolution changed
      its row, and the latest clock it was opened or resolved with. */
  lemma {:induction false} LogIsHistory(cfg: Config, ws: seq<World>, steps: seq<Step>, s: SessionId, i: nat)
    requires cfg.Valid() && Run(cfg, ws, steps) && i < |ws|
    ensures IsHistory(ws, steps, s, i)
  {
    hide Inv, Init, Apply, IsHistory;
    if i == 0 {
      NoHistory(ws, steps, s);
    } else {
      LogIsHistory(cfg, ws, steps, s, i - 1);
      RunInv(cfg, ws, steps, i - 1);
      HistoryGrows(cfg, ws, steps, s, i - 1);
    }
  }

  // Sessions and passwords.

  ghost predicate IsOpenedWith(w: World, s: SessionId, password: string) {
    s in w.account.sessionLog.openedBy && w.account.sessionLog.openedBy[s] == Some(password)
  }

  lemma OpenedByStep(cfg: Config, ws: seq<World>, steps: seq<Step>, s: SessionId, password: string, i: nat)
    requires cfg.Valid() && i < |steps| && i + 1 < |ws| && Inv(cfg, ws[i]) && Enabled(ws[i], steps[i])
    requires ws[i + 1] == Apply(cfg, ws[i], steps[i]) && SameSessions(ws[i].account.sessionLog)
    ensures IsOpenedWith(ws[i + 1], s, password)
       <==> IsOpenedWith(ws[i], s, password) || OpensWithAt(ws, steps, s, password, i)
  {
    hide Inv, Apply;
    RowsOfStep(cfg, ws[i], steps[i], s);
    LogOfStep(cfg, ws[i], steps[i], s);
  }

  /** The log says which password opened a session, and it is the one of the login. */
  lemma {:induction false} OpenedIff(
    cfg: Config, ws: seq<World>, steps: seq<Step>, i: nat, s: SessionId, password: string)
    requires cfg.Valid() && Run(cfg, ws, steps) && i < |ws|
    ensures IsOpenedWith(ws[i], s, password) <==> exists k: nat :: k < i && OpensWithAt(ws, steps, s, password, k)
  {
    hide Inv, Init, Apply, OpensWithAt, IsHistory;
    if i == 0 {
      NoHistory(ws, steps, s);
    } else {
      hide IsOpenedWith;
      OpenedIff(cfg, ws, steps, i - 1, s, password);
      RunInv(cfg, ws, steps, i - 1);
      LogIsHistory(cfg, ws, steps, s, i - 1);
      AgreesOnSessions(ws, steps, s, i - 1);
      OpenedByStep(cfg, ws, steps, s, password, i - 1);
    }
  }

  /** While a session opened by a login is live, the current password of its user is
      the one it was opened with: it passes the credential check and no other value
      does, whatever logins, changes, resets and late rehashes happened in between. */
  lemma LiveSessionHasCurrentPassword(
    cfg: Config, ws: seq<World>, steps: seq<Step>, k: nat, i: nat, s: SessionId, password: string)
    requires cfg.Valid() && Run(cfg, ws, steps) && k < i < |ws|
    requires OpensWithAt(ws, steps, s, password, k) && Live(ws[i], s)
    ensures var user := Sessions(ws[i])[s].user;
            && user in Passwords(ws[i]) && Passwords(ws[i])[user].hash.secret == password
            && forall v :: Accounts.CheckPassword(cfg.account.hasher, ws[i].account.db, user, v).Ok? <==> v == password
  {
    hide Run, OpensWithAt;
    RunInv(cfg, ws, steps, i);
    OpenedIff(cfg, ws, steps, i, s, password);
    Rows(cfg, ws[i], s);
    hide Inv;
  }

  // Time.

  lemma {:induction false} TimesIsProduct(k: nat, d: int)
    ensures A.Times(k, d) == k * d
  {
    if k > 0 {
      TimesIsProduct(k - 1, d);
    }
  }

  /** In a whole run all the resolutions that move a session forward fit in its
      lifetime, also when they write late, and whether or not it is still stored. */
  lemma {:induction false} TouchesFitInLifetime(cfg: Config, ws: seq<World>, steps: seq<Step>, i: nat, s: SessionId)
    requires cfg.Valid() && Run(cfg, ws, steps) && i < |ws|
    ensures |Touches(ws, steps, s, i)| * cfg.account.touch < cfg.account.ttl
  {
    hide Run, Touches;
    if s in Sessions(ws[i]) {
      RunInv(cfg, ws, steps, i);
      LogIsHistory(cfg, ws, steps, s, i);
      Rows(cfg, ws[i], s);
      hide Inv;
      TimesIsProduct(|Touches(ws, steps, s, i)|, cfg.account.touch);
    } else if i > 0 {
      hide Inv;
      TouchesFitInLifetime(cfg, ws, steps, i - 1, s);
      TouchesGrow(ws, steps, s, i - 1);
    } else {
      NoTouches(ws, steps, s);
    }
  }

  lemma NoTouches(ws: seq<World>, steps: seq<Step>, s: SessionId)
    ensures Touches(ws, steps, s, 0) == {}
  {}

  /** With `seen` the latest clock a session was opened or resolved with, a live
      session is refused as idle once `idle` has passed since, and not before
      `idle - touch`. */
  lemma IdleWindow(cfg: Config, ws: seq<World>, steps: seq<Step>, i: nat, s: SessionId)
    returns (seen: int)
    requires cfg.Valid() && Run(cfg, ws, steps) && i < |ws| && Live(ws[i], s)
    ensures IsLastUse(ws, steps, s, i, seen)
    ensures var w := ws[i];
            && seen - cfg.account.touch < Sessions(w)[s].lastSeenAt <= seen
            && (cfg.account.idle > 0 && w.now - seen >= cfg.account.idle ==> IdleRefused(cfg, w, s))
            && (w.now - seen <= cfg.account.idle - cfg.account.touch ==> !IdleRefused(cfg, w, s))
  {
    hide Run, IsLastUse;
    RunInv(cfg, ws, steps, i);
    LogIsHistory(cfg, ws, steps, s, i);
    Rows(cfg, ws[i], s);
    hide Inv;
    seen := ws[i].account.sessionLog.settled[s];
  }

  // Resolutions.

  /** The resolution in flight was begun at step `k`, with what it read there. */
  ghost predicate BeginsAt(
    cfg: Config, ws: seq<World>, steps: seq<Step>, request: A.RequestId, flight: Accounts.ResolveFlight, k: nat)
  {
    && k < |steps| && k < |ws| && steps[k].AccountStep? && steps[k].accountStep.BeginResolve?
    && steps[k].accountStep.request == request
    && Accounts.ResolveBegin(cfg.account, ws[k].account.db, ws[k].now, steps[k].accountStep.token,
                             steps[k].accountStep.binding) == Ok(flight)
  }

  lemma {:induction false} FlightWasBegun(
    cfg: Config, ws: seq<World>, steps: seq<Step>, i: nat, request: A.RequestId)
    returns (k: nat)
    requires Run(cfg, ws, steps) && i < |ws| && request in ws[i].account.resolves
    ensures k < i && BeginsAt(cfg, ws, steps, request, ws[i].account.resolves[request], k)
  {
    hide Init, Apply, BeginsAt;
    NoFlights(cfg, ws, steps);
    var before := ws[i - 1].account.resolves;
    if request in before && before[request] == ws[i].account.resolves[request] {
      k := FlightWasBegun(cfg, ws, steps, i - 1, request);
    } else {
      k := i - 1;
      FlightByStep(cfg, ws, steps, i - 1, request);
    }
  }

  lemma NoFlights(cfg: Config, ws: seq<World>, steps: seq<Step>)
    requires Run(cfg, ws, steps)
    ensures ws[0].account.resolves == map[]
  {
    hide Apply, A.UsersOk, Rbac.Inv;
  }

  lemma FlightByStep(cfg: Config, ws: seq<World>, steps: seq<Step>, k: nat, request: A.RequestId)
    requires k < |steps| && k + 1 < |ws| && Enabled(ws[k], steps[k]) && ws[k + 1] == Apply(cfg, ws[k], steps[k])
    requires var after := ws[k + 1].account.resolves; request in after
    requires var before := ws[k].account.resolves;
             !(request in before && before[request] == ws[k + 1].account.resolves[request])
    ensures BeginsAt(cfg, ws, steps, request, ws[k + 1].account.resolves[request], k)
  {
    hide C.Apply, A.Gone, ApplyRoles, Accounts.Register, Accounts.Provision, Accounts.RegisterAndLogin, Accounts.Login,
      Accounts.CreateUser, Accounts.OpenSession, Accounts.ChangePassword, Accounts.ResetPassword, Accounts.AuthBegin,
      Accounts.ResolveBegin, Accounts.Revoke, Accounts.SetState, Accounts.DeleteUsers, Accounts.RevokeUsers,
      Accounts.WithoutExpired, Accounts.ResolveTouch, Accounts.Rehash;
  }

  /** What the principal says of the session, and where from. */
  ghost predicate DescribesSession(w: World, token: string, p: Accounts.Principal) {
    && Live(w, p.session) && w.now < Sessions(w)[p.session].expiresAt && Sessions(w)[p.session].token == token
    && HasRow(w, p)
    && p.user in w.Users() && p.account == w.Users()[p.user] && p.account.IsActive()
  }

  ghost predicate HasRow(w: World, p: Accounts.Principal)
    requires p.session in Sessions(w)
  {
    && Sessions(w)[p.session].user == p.user
    && Sessions(w)[p.session].createdAt == p.authenticatedAt && Sessions(w)[p.session].expiresAt == p.expiresAt
  }

  /** The principal a resolution answers with describes the session and the user as
      they were when it began: live, unexpired and active then, whatever happened to
      their rows since.  Its roles and permissions are exactly those its user has at
      the end, and none if the user is gone. */
  lemma PrincipalIsTruthful(cfg: Config, ws: seq<World>, steps: seq<Step>, i: nat, request: A.RequestId)
    returns (k: nat)
    requires cfg.Valid() && Run(cfg, ws, steps) && i < |ws| && request in ws[i].account.resolves
    ensures k < i && BeginsAt(cfg, ws, steps, request, ws[i].account.resolves[request], k)
    ensures var p := Accounts.PrincipalOf(ws[i].account.resolves[request], ws[i].rbac);
            && DescribesSession(ws[k], steps[k].accountStep.token, p)
            && CarriesClaims(ws[i], p)
            && (p.session in Sessions(ws[i]) ==> HasRow(ws[i], p))
  {
    k := FlightWasBegun(cfg, ws, steps, i, request);
    hide Inv, Apply;
    RunInv(cfg, ws, steps, i);
    hide Run;
    FlightFacts(cfg, ws[i], request);
    ClaimsOfFlight(cfg, ws[i], ws[i].account.resolves[request]);
    hide CarriesClaims;
  }

  /** Exactly the roles and permissions of its user, and none if there is no such. */
  ghost predicate CarriesClaims(w: World, p: Accounts.Principal) {
    && (forall code :: code in p.permissions <==> Rbac.Reaches(w.rbac, p.user, code))
    && (forall code :: code in p.roles <==> code in Rbac.RoleCodes(w.rbac, p.user))
    && (p.user !in w.Users() ==> p.roles == {} && p.permissions == {})
  }

  lemma ClaimsOfFlight(cfg: Config, w: World, flight: Accounts.ResolveFlight)
    requires Inv(cfg, w)
    ensures CarriesClaims(w, Accounts.PrincipalOf(flight, w.rbac))
  {
    hide C.Inv, C.ValuesNormal, A.Inv, Rbac.Reaches;
    forall code
      ensures code in Rbac.PermissionCodes(w.rbac, flight.user) <==> Rbac.Reaches(w.rbac, flight.user, code)
    {
      Rbac.PermissionCodesAreReached(w.rbac, flight.user, code);
    }
  }
}
