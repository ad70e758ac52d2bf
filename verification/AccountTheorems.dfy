/** What accounts, passwords and sessions guarantee over whole runs. */
module AccountTheorems {
  import opened Types
  import opened World
  import opened Strings
  import Accounts
  import A = AccountProtocol
  import C = ContactProtocol
  import Contacts
  import Rbac

  function Sessions(w: World): map<SessionId, Accounts.Session> {
    w.account.db.sessions
  }

  function Passwords(w: World): map<UserId, Accounts.Credential> {
    w.account.db.passwords
  }

  predicate Live(w: World, s: SessionId) {
    s in Sessions(w) && Sessions(w)[s].revokedAt == None
  }

  lemma Rows(cfg: Config, w: World, s: SessionId)
    requires Inv(cfg, w) && s in Sessions(w)
    ensures A.RowOk(cfg.account, w.now, w.Users().Keys, w.account.sessionLog, s, Sessions(w)[s])
    ensures Live(w, s) ==>
              A.LiveOk(cfg.account, w.Users(), A.Secrets(cfg.account.hasher, Passwords(w)), w.account.sessionLog, s,
                       Sessions(w)[s])
  {
    hide C.Inv, C.ValuesNormal, Rbac.Inv, A.RowOk, A.LiveOk;
  }

  /** The owner of a live session exists and is active, in both columns. */
  lemma LiveSessionHasActiveOwner(cfg: Config, ws: seq<World>, steps: seq<Step>, i: nat, s: SessionId)
    requires cfg.Valid() && Run(cfg, ws, steps) && i < |ws| && Live(ws[i], s)
    ensures var user := Sessions(ws[i])[s].user;
            && user in ws[i].Users() && ws[i].Users()[user].state == Active && ws[i].Users()[user].disabledAt == None
  {
    RunInv(cfg, ws, steps, i);
    hide Run, Apply;
    Rows(cfg, ws[i], s);
    hide Inv;
  }

  // Time.

  predicate IdleRefused(cfg: Config, w: World, s: SessionId)
    requires s in Sessions(w)
  {
    cfg.account.idle > 0 && w.now - Sessions(w)[s].lastSeenAt >= cfg.account.idle
  }

  /** Resolution accepts a live session exactly until it expires or idles out, for
      requests whose binding matches; its owner is never in the way.  A mismatch is
      answered as such when nothing else is wrong. */
  lemma ResolvesExactly(cfg: Config, ws: seq<World>, steps: seq<Step>, i: nat, s: SessionId, binding: Result<()>)
    requires cfg.Valid() && Run(cfg, ws, steps) && i < |ws| && s in Sessions(ws[i])
    requires TrimSpace(Sessions(ws[i])[s].token) != ""
    ensures var r := Accounts.ResolveBegin(cfg.account, ws[i].account.db, ws[i].now, Sessions(ws[i])[s].token, binding);
            var usable := Live(ws[i], s) && ws[i].now < Sessions(ws[i])[s].expiresAt && !IdleRefused(cfg, ws[i], s);
            && (r.Ok? <==> usable && binding.Ok?)
            && (usable && binding.Err? ==> r == Err(binding.error))
            && (!usable ==> r == Err(if Live(ws[i], s) then ErrExpired else ErrRevoked))
  {
    RunInv(cfg, ws, steps, i);
    hide Run, Apply;
    Rows(cfg, ws[i], s);
    TokenFinds(cfg, ws[i], s);
    hide Inv;
  }

  lemma TokenFinds(cfg: Config, w: World, s: SessionId)
    requires Inv(cfg, w) && s in Sessions(w)
    ensures Accounts.ByToken(Sessions(w), Sessions(w)[s].token) == Some(s)
  {
    assert A.SessionsOk(cfg.account, w.now, w.Users(), A.Secrets(cfg.account.hasher, Passwords(w)), Sessions(w),
                        w.account.sessionLog);
    hide Inv, A.RowOk, A.LiveOk;
    var found := Accounts.ByToken(Sessions(w), Sessions(w)[s].token);
  }

  /** An idle timeout no longer than the touch interval is never extended: the
      token dies by its creation time plus the smaller of the two limits. */
  lemma ShortIdleIsAbsolute(cfg: Config, ws: seq<World>, steps: seq<Step>, i: nat, s: SessionId, binding: Result<()>)
    requires cfg.Valid() && Run(cfg, ws, steps) && i < |ws| && s in Sessions(ws[i])
    requires 0 < cfg.account.idle <= cfg.account.touch
    ensures Live(ws[i], s) ==> Sessions(ws[i])[s].lastSeenAt == Sessions(ws[i])[s].createdAt
    ensures var w, session := ws[i], Sessions(ws[i])[s];
            Accounts.ResolveBegin(cfg.account, w.account.db, w.now, session.token, binding).Ok? ==>
              && w.now < session.createdAt + cfg.account.ttl
              && w.now < session.createdAt + cfg.account.idle
  {
    RunInv(cfg, ws, steps, i);
    hide Run, Apply;
    Rows(cfg, ws[i], s);
    TokenFinds(cfg, ws[i], s);
    hide Inv;
  }

  // Later worlds.

  ghost predicate Later(w: World, w': World) {
    Follows(w, w') && A.Later(w.account, w'.account)
  }

  lemma StepIsLater(cfg: Config, w: World, step: Step)
    requires cfg.Valid() && Inv(cfg, w) && Enabled(w, step)
    ensures Later(w, Apply(cfg, w, step))
  {
    hide Inv, Follows, A.Later, A.Apply, A.Gone, C.Apply, ApplyRoles;
    StepFollows(cfg, w, step);
    if step.AccountStep? {
      AccountInv(cfg, w);
      A.StepIsLater(cfg.account, w.now, w.contact.db.contacts, w.rbac, w.account, step.accountStep);
    } else {
      SameIsLater(cfg, w);
    }
  }

  lemma SameIsLater(cfg: Config, w: World)
    requires Inv(cfg, w)
    ensures A.Later(w.account, w.account)
  {
    hide Inv;
    forall id | id in Sessions(w)
      ensures id in w.account.sessionLog.openedBy
    {
      Rows(cfg, w, id);
    }
  }

  lemma LaterTransitive(a: World, b: World, c: World)
    requires Later(a, b) && Later(b, c)
    ensures Later(a, c)
  {
    FollowsTransitive(a, b, c);
    forall id | id in c.account.db.sessions && id !in a.account.sessionLog.openedBy
      ensures c.account.db.sessions[id].token !in a.account.sessionLog.tokens
    {
      assert id in b.account.sessionLog.openedBy ==> A.RowEvolves(Sessions(b)[id], Sessions(c)[id]);
    }
  }

  lemma {:induction false} RunIsLater(cfg: Config, ws: seq<World>, steps: seq<Step>, i: nat, j: nat)
    requires cfg.Valid() && Run(cfg, ws, steps) && i < j < |ws|
    ensures Later(ws[i], ws[j])
    decreases j
  {
    hide Inv, Init, Apply, Later;
    RunInv(cfg, ws, steps, j - 1);
    StepIsLater(cfg, ws[j - 1], steps[j - 1]);
    if i < j - 1 {
      RunIsLater(cfg, ws, steps, i, j - 1);
      LaterTransitive(ws[i], ws[j - 1], ws[j]);
    }
  }

  /** What is left of a session in a later world, and of its token. */
  lemma LaterSession(cfg: Config, w: World, w': World, s: SessionId)
    requires Inv(cfg, w) && Inv(cfg, w') && Later(w, w') && s in Sessions(w)
    ensures Live(w', s) ==> Live(w, s)
    ensures forall t | t in Sessions(w') && Sessions(w')[t].token == Sessions(w)[s].token :: t == s
  {
    Rows(cfg, w, s);
    forall t | t in Sessions(w') && Sessions(w')[t].token == Sessions(w)[s].token
      ensures t == s
    {
      if t in w.account.sessionLog.openedBy {
        TokenFinds(cfg, w, t);
        TokenFinds(cfg, w, s);
      }
    }
    hide Inv;
  }

  /** A session that was revoked, or whose row is gone, never resolves again: no
      later event, re-enabling the user or setting a password included, gives its
      token back its use. */
  lemma DeadTokenStaysDead(
    cfg: Config, ws: seq<World>, steps: seq<Step>, h: nat, i: nat, j: nat, s: SessionId, binding: Result<()>)
    requires cfg.Valid() && Run(cfg, ws, steps) && h < i < j < |ws|
    requires s in Sessions(ws[h]) && !Live(ws[i], s)
    ensures !Live(ws[j], s)
    ensures Accounts.ResolveBegin(cfg.account, ws[j].account.db, ws[j].now, Sessions(ws[h])[s].token, binding).Err?
  {
    hide Inv, Apply, Later;
    RunInv(cfg, ws, steps, h);
    RunInv(cfg, ws, steps, i);
    RunInv(cfg, ws, steps, j);
    RunIsLater(cfg, ws, steps, h, j);
    RunIsLater(cfg, ws, steps, i, j);
    hide Run;
    LaterSession(cfg, ws[h], ws[j], s);
    if s in Sessions(ws[i]) {
      LaterSession(cfg, ws[i], ws[j], s);
    } else {
      RunIsLater(cfg, ws, steps, h, i);
      GoneIsGone(cfg, ws[h], ws[i], ws[j], s);
    }
  }

  lemma GoneIsGone(cfg: Config, w: World, w': World, w'': World, s: SessionId)
    requires Inv(cfg, w) && Later(w, w') && Later(w', w'')
    requires s in Sessions(w) && s !in Sessions(w')
    ensures s !in Sessions(w'')
  {
    Rows(cfg, w, s);
    hide Inv;
  }

  // Passwords.

  /** The stored hash of a user is replaced by an upgrade at step `i`. */
  ghost predicate Upgrades(ws: seq<World>, steps: seq<Step>, user: UserId, i: nat) {
    && i < |steps| && i + 1 < |ws| && user in Passwords(ws[i]) && user in Passwords(ws[i + 1])
    && Passwords(ws[i])[user].hash != Passwords(ws[i + 1])[user].hash
    && !(steps[i].AccountStep? && A.SetsPassword(steps[i].accountStep, user))
  }

  lemma HashStep(cfg: Config, ws: seq<World>, steps: seq<Step>, user: UserId, i: nat)
    requires cfg.Valid() && Run(cfg, ws, steps) && i < |steps|
    requires user in Passwords(ws[i]) && user in Passwords(ws[i + 1])
    ensures var h, h' := Passwords(ws[i])[user].hash, Passwords(ws[i + 1])[user].hash;
            || h' == h
            || (steps[i].AccountStep? && A.HashEvolves(cfg.account.hasher, steps[i].accountStep, user, h, h'))
  {
    RunInv(cfg, ws, steps, i);
    assert ws[i + 1] == Apply(cfg, ws[i], steps[i]) && Enabled(ws[i], steps[i]);
    hide Run, Init;
    if steps[i].AccountStep? {
      A.StepEvolvesHash(cfg.account, ws[i].now, ws[i].contact.db.contacts, ws[i].rbac, ws[i].account,
                        steps[i].accountStep, user);
    }
    hide Inv, A.Apply, C.Apply, ApplyRoles;
  }

  lemma KeepsCredential(cfg: Config, ws: seq<World>, steps: seq<Step>, user: UserId, i: nat, k: nat, j: nat)
    requires cfg.Valid() && Run(cfg, ws, steps) && i <= k <= j < |ws|
    requires user in Passwords(ws[i]) && user in Passwords(ws[j])
    ensures user in Passwords(ws[k])
  {
    if i < k < j {
      RunIsLater(cfg, ws, steps, i, k);
      RunIsLater(cfg, ws, steps, k, j);
      RunInv(cfg, ws, steps, i);
      RunInv(cfg, ws, steps, j);
      hide Run;
      assert Passwords(ws[j]).Keys <= ws[j].Users().Keys && Passwords(ws[i]).Keys <= ws[i].Users().Keys;
      assert ws[i].Users().Keys <= ws[i].account.usedUsers;
    }
  }

  /** Only setting a password changes which values verify: a rehash that races with
      anything never does. */
  lemma {:induction false} SecretChangesOnlyWhenSet(
    cfg: Config, ws: seq<World>, steps: seq<Step>, user: UserId, i: nat, j: nat)
    requires cfg.Valid() && Run(cfg, ws, steps) && i <= j < |ws|
    requires user in Passwords(ws[i]) && user in Passwords(ws[j])
    requires forall k | i <= k < j :: !(steps[k].AccountStep? && A.SetsPassword(steps[k].accountStep, user))
    ensures var h, h' := Passwords(ws[i])[user].hash, Passwords(ws[j])[user].hash;
            h'.secret == h.secret && forall v :: cfg.account.hasher.Verify(h', v) <==> cfg.account.hasher.Verify(h, v)
    decreases j
  {
    hide Inv, Init, Apply, A.SetsPassword;
    if i < j {
      KeepsCredential(cfg, ws, steps, user, i, j - 1, j);
      SecretChangesOnlyWhenSet(cfg, ws, steps, user, i, j - 1);
      HashStep(cfg, ws, steps, user, j - 1);
    }
  }

  /** A hash made by the current policy stays current. */
  lemma {:induction false} CurrentStaysCurrent(
    cfg: Config, ws: seq<World>, steps: seq<Step>, user: UserId, i: nat, j: nat)
    requires cfg.Valid() && Run(cfg, ws, steps) && i <= j < |ws|
    requires user in Passwords(ws[i]) && user in Passwords(ws[j])
    requires !cfg.account.hasher.NeedsRehash(Passwords(ws[i])[user].hash)
    ensures !cfg.account.hasher.NeedsRehash(Passwords(ws[j])[user].hash)
    decreases j
  {
    hide Inv, Init, Apply;
    if i < j {
      KeepsCredential(cfg, ws, steps, user, i, j - 1, j);
      CurrentStaysCurrent(cfg, ws, steps, user, i, j - 1);
      HashStep(cfg, ws, steps, user, j - 1);
    }
  }

  /** At most one upgrade of a user's hash takes effect in a whole run, however many
      credential checks raced to write one, and none after a password was set. */
  lemma UpgradesOnce(cfg: Config, ws: seq<World>, steps: seq<Step>, user: UserId, i: nat, j: nat)
    requires cfg.Valid() && Run(cfg, ws, steps)
    ensures Upgrades(ws, steps, user, i) && Upgrades(ws, steps, user, j) ==> i == j
  {
    if Upgrades(ws, steps, user, i) && Upgrades(ws, steps, user, j) {
      HashStep(cfg, ws, steps, user, i);
      HashStep(cfg, ws, steps, user, j);
      hide Apply;
      if i < j {
        CurrentStaysCurrent(cfg, ws, steps, user, i + 1, j);
      } else if j < i {
        CurrentStaysCurrent(cfg, ws, steps, user, j + 1, i);
      }
    }
    hide Run;
  }

  // Events.

  /** `UserCreated` events minus `UserDeleted` events, over the users the run began
      with, is the number of users. */
  lemma UserEventsBalance(cfg: Config, ws: seq<World>, steps: seq<Step>, i: nat)
    requires cfg.Valid() && Run(cfg, ws, steps) && i < |ws|
    ensures |ws[i].account.events.created| == |ws[i].account.events.deleted| + |ws[i].Users()|
  {
    RunInv(cfg, ws, steps, i);
    hide Run, Apply, C.Inv, Rbac.Inv, A.SessionsOk;
    assert |ws[i].Users()| == |ws[i].Users().Keys| == |multiset(ws[i].Users().Keys)|;
  }

  /** A session is announced by one `SessionCreated` event if it was ever committed,
      and by none otherwise. */
  lemma {:induction false} SessionAnnouncedOnce(cfg: Config, ws: seq<World>, steps: seq<Step>, i: nat, s: SessionId)
    requires cfg.Valid() && Run(cfg, ws, steps) && i < |ws|
    ensures ws[i].account.events.announced[s] == if exists k :: 0 <= k <= i && s in Sessions(ws[k]) then 1 else 0
  {
    OpenedIffCommitted(cfg, ws, steps, i, s);
    RunInv(cfg, ws, steps, i);
    hide Run, Apply, C.Inv, Rbac.Inv, A.SessionsOk;
  }

  lemma {:induction false} OpenedIffCommitted(cfg: Config, ws: seq<World>, steps: seq<Step>, i: nat, s: SessionId)
    requires cfg.Valid() && Run(cfg, ws, steps) && i < |ws|
    ensures s in ws[i].account.sessionLog.openedBy <==> exists k :: 0 <= k <= i && s in Sessions(ws[k])
  {
    if i > 0 {
      OpenedIffCommitted(cfg, ws, steps, i - 1, s);
      RunInv(cfg, ws, steps, i);
      if s in Sessions(ws[i]) {
        Rows(cfg, ws[i], s);
      }
      hide Inv, Init;
      OpenedNow(cfg, ws[i - 1], steps[i - 1], s);
    }
  }

  lemma OpenedNow(cfg: Config, w: World, step: Step, s: SessionId)
    requires Enabled(w, step)
    ensures var w' := Apply(cfg, w, step);
            && (s in w.account.sessionLog.openedBy ==> s in w'.account.sessionLog.openedBy)
            && (s in w'.account.sessionLog.openedBy && s !in w.account.sessionLog.openedBy ==> s in Sessions(w'))
  {
    hide C.Apply, A.Apply, A.Gone, ApplyRoles;
    if step.AccountStep? {
      A.StepOpensRow(cfg.account, w.now, w.contact.db.contacts, w.rbac, w.account, step.accountStep, s);
    }
  }

  // Deleting users.

  /** Deletion takes the users and every row that refers to them, changes no other
      row, and changes nothing when it is refused. */
  lemma DeletionIsExact(cfg: Config, w: World, ids: seq<UserId>, participant: Result<()>)
    ensures var w' := Apply(cfg, w, AccountStep(A.Delete(ids, participant)));
            var gone := Accounts.AsSet(ids);
            if ids != [] && gone <= w.Users().Keys && participant.Ok? then
              && OnlyOthersLeft(w.account.db, w'.account.db, gone)
              && OnlyContactsOfOthersLeft(w.contact.db, w'.contact.db, gone)
              && w'.rbac.userRoles == (set l | l in w.rbac.userRoles && l.0 !in gone)
              && w'.rbac == w.rbac.(userRoles := w'.rbac.userRoles)
            else
              w' == w
  {
    hide OnlyOthersLeft, OnlyContactsOfOthersLeft, Accounts.WithoutUsers;
    assert Contacts.WithoutUsers(w.contact.db, {}) == w.contact.db;
    OthersLeft(w.account.db, w.contact.db, Accounts.AsSet(ids));
    hide Contacts.WithoutUsers;
  }

  ghost predicate OnlyOthersLeft(a: Accounts.Db, a': Accounts.Db, gone: set<UserId>) {
    && (forall u :: u in a'.users <==> u in a.users && u !in gone)
    && (forall u :: u in a'.passwords <==> u in a.passwords && u !in gone)
    && (forall s :: s in a'.sessions <==> s in a.sessions && a.sessions[s].user !in gone)
    && (forall u | u in a'.users :: a'.users[u] == a.users[u])
    && (forall u | u in a'.passwords :: a'.passwords[u] == a.passwords[u])
    && (forall s | s in a'.sessions :: a'.sessions[s] == a.sessions[s])
  }

  ghost predicate OnlyContactsOfOthersLeft(c: Contacts.Db, c': Contacts.Db, gone: set<UserId>) {
    && (forall id :: id in c'.contacts <==> id in c.contacts && c.contacts[id].user !in gone)
    && (forall v :: v in c'.verifications <==> v in c.verifications && c.verifications[v].user !in gone)
    && (forall id | id in c'.contacts :: c'.contacts[id] == c.contacts[id])
    && (forall v | v in c'.verifications :: c'.verifications[v] == c.verifications[v])
  }

  lemma OthersLeft(a: Accounts.Db, c: Contacts.Db, gone: set<UserId>)
    ensures OnlyOthersLeft(a, Accounts.WithoutUsers(a, gone), gone)
    ensures OnlyContactsOfOthersLeft(c, Contacts.WithoutUsers(c, gone), gone)
  {}
}
