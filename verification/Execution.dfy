/** The module as the host calls it (`pkg/identity/module.go`): the services wired to
    one store and one event sink.  Performing a step on them is taking that step of
    the protocol, so what holds of the worlds of a run holds of the store and of the
    events the sink received. */
module Execution {
  import opened Types
  import opened Repository
  import opened AccountServices
  import opened ContactServices
  import Accounts
  import A = AccountProtocol
  import AccountTheorems
  import C = ContactProtocol
  import Contacts
  import Rbac
  import StoreTheorems
  import W = World

  // Counting events.

  function Counted(log: A.EventLog, event: Event): A.EventLog {
    match event
    case UserCreated(user) => log.(created := log.created + multiset{user})
    case UserDeleted(user) => log.(deleted := log.deleted + multiset{user})
    case SessionCreated(session) => log.(announced := log.announced + multiset{session})
  }

  /** The events the sink received, after `first` users were there to begin with. */
  function Tally(first: set<UserId>, events: seq<Event>): A.EventLog {
    if events == [] then A.EventLog(multiset(first), multiset{}, multiset{})
    else Counted(Tally(first, events[..|events| - 1]), events[|events| - 1])
  }

  lemma TallyOne(first: set<UserId>, events: seq<Event>, event: Event)
    ensures Tally(first, events + [event]) == Counted(Tally(first, events), event)
    ensures events + [] == events
  {
    assert (events + [event])[..|events|] == events;
  }

  lemma TallyTwo(first: set<UserId>, events: seq<Event>, one: Event, two: Event)
    ensures Tally(first, events + [one, two]) == Counted(Counted(Tally(first, events), one), two)
  {
    TallyOne(first, events, one);
    TallyOne(first, events + [one], two);
    assert events + [one, two] == events + [one] + [two];
  }

  lemma {:induction false} TallyDeletions(first: set<UserId>, events: seq<Event>, ids: seq<UserId>)
    requires IsDistinct(ids)
    ensures var log := Tally(first, events);
            Tally(first, events + Deletions(ids)) == log.(deleted := log.deleted + multiset(Accounts.AsSet(ids)))
  {
    hide Tally;
    if ids == [] {
      assert events + Deletions(ids) == events;
      assert Accounts.AsSet(ids) == {};
    } else {
      var front, last := ids[..|ids| - 1], ids[|ids| - 1];
      TallyDeletions(first, events, front);
      TallyOne(first, events + Deletions(front), UserDeleted(last));
      assert events + Deletions(ids) == events + Deletions(front) + [UserDeleted(last)];
      OneMore(ids);
    }
  }

  lemma OneMore(ids: seq<UserId>)
    requires IsDistinct(ids) && ids != []
    ensures multiset(Accounts.AsSet(ids))
         == multiset(Accounts.AsSet(ids[..|ids| - 1])) + multiset{ids[|ids| - 1]}
  {
    var front, last := ids[..|ids| - 1], ids[|ids| - 1];
    assert ids == front + [last];
    assert Accounts.AsSet(ids) == Accounts.AsSet(front) + {last};
    assert last !in Accounts.AsSet(front);
  }

  class Module {
    const cfg: W.Config
    const store: Store
    const sink: EventSink
    const users: UserService
    const passwords: PasswordService
    const sessions: SessionService
    const authorization: AuthorizationService
    const accounts: AccountService
    const contacts: ContactService

    // Requests waiting for a provider, or between their reading and their writing.
    var starts: map<C.RequestId, Contacts.StartFlight>
    var confirms: map<C.RequestId, Contacts.ConfirmFlight>
    var auths: map<A.RequestId, Accounts.AuthFlight>
    var resolves: map<A.RequestId, Accounts.ResolveFlight>

    constructor (store: Store, sink: EventSink, cfg: W.Config)
      requires cfg.Valid()
      ensures this.store == store && this.sink == sink && this.cfg == cfg && Wired()
      ensures starts == map[] && confirms == map[] && auths == map[] && resolves == map[]
    {
      this.cfg, this.store, this.sink := cfg, store, sink;
      users := new UserService(store, sink);
      passwords := new PasswordService(store, cfg.account.hasher);
      sessions := new SessionService(store, cfg.account, sink);
      authorization := new AuthorizationService(store, cfg.account.defaultRoles);
      accounts := new AccountService(store, cfg.account, sink);
      contacts := new ContactService(store, cfg.contact.phone, cfg.contact.email, cfg.contact.ttl, cfg.contact.resend,
                                     cfg.contact.maxAttempts);
      starts, confirms, auths, resolves := map[], map[], map[], map[];
    }

    ghost predicate Wired() {
      && cfg.Valid()
      && users.store == store && users.events == sink
      && passwords.store == store && passwords.hasher == cfg.account.hasher
      && sessions.store == store && sessions.cfg == cfg.account && sessions.events == sink
      && authorization.store == store && authorization.defaultRoles == cfg.account.defaultRoles
      && accounts.store == store && accounts.cfg == cfg.account && accounts.events == sink
      && contacts.store == store && contacts.cfg == cfg.contact
    }

    /** The store and what is in flight are those of the protocol state. */
    ghost predicate HoldsAccount(s: A.State)
      reads this, store
    {
      store.AccountTables() == s.db && auths == s.auths && resolves == s.resolves
    }

    ghost predicate Holds(w: W.World)
      reads this, store
    {
      && HoldsAccount(w.account) && store.ContactTables() == w.contact.db && store.RoleTables() == w.rbac
      && starts == w.contact.starts && confirms == w.contact.confirms
    }

    // Account steps, a few kinds at a time.

    method PerformNewUser(now: int, step: A.Step, ghost first: set<UserId>, ghost s: A.State)
      requires Wired() && store.Valid() && HoldsAccount(s) && A.Enabled(s, step)
      requires Tally(first, sink.events) == s.events
      requires step.Create? || step.RegisterUser? || step.ProvisionUser? || step.RegisterWithLogin?
      modifies store, sink
      ensures store.Valid() && store.ContactTables() == old(store.ContactTables())
      ensures var (s', r') := A.Apply(cfg.account, now, old(store.contacts), old(store.RoleTables()), s, step);
              HoldsAccount(s') && store.RoleTables() == r' && Tally(first, sink.events) == s'.events
    {
      hide ValidTables, Tally, Accounts.CreateUser, Accounts.Register, Accounts.Provision, Accounts.RegisterAndLogin;
      ghost var before := sink.events;
      TallyOne(first, before, UserCreated(step.id));
      match step
      case Create(id, raw, state) =>
        var _ := users.Create(now, id, raw, state);
      case RegisterUser(id, raw, state, policy, password, salt) =>
        var _ := accounts.Register(now, id, raw, state, policy, password, salt);
      case ProvisionUser(id, raw, state, policy, password, salt, codes) =>
        var _ := accounts.ProvisionUser(now, id, raw, state, policy, password, salt, codes);
      case RegisterWithLogin(id, raw, state, policy, password, salt, session, token, binding) =>
        TallyTwo(first, before, UserCreated(id), SessionCreated(session));
        var _ := accounts.RegisterAndLogin(now, id, raw, state, policy, password, salt, session, token, binding);
    }

    method PerformLogin(now: int, step: A.Step, ghost first: set<UserId>, ghost s: A.State)
      requires Wired() && store.Valid() && HoldsAccount(s) && A.Enabled(s, step)
      requires Tally(first, sink.events) == s.events
      requires step.PasswordLogin? || step.Issue?
      modifies store, sink
      ensures store.Valid() && store.ContactTables() == old(store.ContactTables())
      ensures var (s', r') := A.Apply(cfg.account, now, old(store.contacts), old(store.RoleTables()), s, step);
              HoldsAccount(s') && store.RoleTables() == r' && Tally(first, sink.events) == s'.events
    {
      hide ValidTables, Tally, Accounts.Login, Accounts.OpenSession;
      TallyOne(first, sink.events, SessionCreated(step.session));
      match step
      case PasswordLogin(guard, raw, password, salt, session, token, binding) =>
        var _ := accounts.Login(now, guard, raw, password, salt, session, token, binding);
      case Issue(id, session, token, binding) =>
        var _ := accounts.IssueSession(now, id, session, token, binding);
    }

    method PerformPassword(now: int, step: A.Step, ghost first: set<UserId>, ghost s: A.State)
      requires Wired() && store.Valid() && HoldsAccount(s) && A.Enabled(s, step)
      requires Tally(first, sink.events) == s.events
      requires step.Change? || step.Reset?
      modifies store
      ensures store.Valid() && store.ContactTables() == old(store.ContactTables())
      ensures var (s', r') := A.Apply(cfg.account, now, old(store.contacts), old(store.RoleTables()), s, step);
              HoldsAccount(s') && store.RoleTables() == r' && Tally(first, sink.events) == s'.events
    {
      hide ValidTables, Tally, Accounts.ChangePassword, Accounts.ResetPassword;
      match step
      case Change(id, password, salt, policy, next, nextSalt) =>
        var _ := accounts.ChangePassword(now, id, password, salt, policy, next, nextSalt);
      case Reset(id, policy, next, nextSalt) =>
        var _ := accounts.ResetPassword(now, id, policy, next, nextSalt);
    }

    method PerformAuth(now: int, step: A.Step, ghost first: set<UserId>, ghost s: A.State)
      requires Wired() && store.Valid() && HoldsAccount(s) && A.Enabled(s, step)
      requires Tally(first, sink.events) == s.events
      requires step.BeginAuth? || step.FinishAuth?
      modifies this`auths, store`passwords
      ensures store.Valid() && store.ContactTables() == old(store.ContactTables())
      ensures var (s', r') := A.Apply(cfg.account, now, old(store.contacts), old(store.RoleTables()), s, step);
              HoldsAccount(s') && store.RoleTables() == r' && Tally(first, sink.events) == s'.events
    {
      hide ValidTables, Tally, Accounts.AuthBegin, Accounts.Rehash;
      match step
      case BeginAuth(request, raw, password, salt) =>
        var begun := passwords.AuthBegin(raw, password, salt);
        if begun.Ok? && begun.value.Some? {
          auths := auths[request := begun.value.value];
        }
      case FinishAuth(request) =>
        passwords.AuthFinish(now, auths[request]);
        auths := auths - {request};
    }

    method PerformResolve(now: int, step: A.Step, ghost first: set<UserId>, ghost s: A.State)
      requires Wired() && store.Valid() && HoldsAccount(s) && A.Enabled(s, step)
      requires Tally(first, sink.events) == s.events
      requires step.BeginResolve? || step.FinishResolve?
      modifies this`resolves, store`sessions
      ensures store.Valid() && store.ContactTables() == old(store.ContactTables())
      ensures var (s', r') := A.Apply(cfg.account, now, old(store.contacts), old(store.RoleTables()), s, step);
              HoldsAccount(s') && store.RoleTables() == r' && Tally(first, sink.events) == s'.events
    {
      hide ValidTables, Tally, Accounts.ResolveBegin, Accounts.ResolveTouch;
      match step
      case BeginResolve(request, token, binding) =>
        var begun := sessions.ResolveBegin(now, token, binding);
        resolves := if begun.Ok? then resolves[request := begun.value] else resolves - {request};
      case FinishResolve(request) =>
        sessions.ResolveTouch(resolves[request]);
        resolves := resolves - {request};
    }

    method PerformRevoke(now: int, step: A.Step, ghost first: set<UserId>, ghost s: A.State)
      requires Wired() && store.Valid() && HoldsAccount(s) && A.Enabled(s, step)
      requires Tally(first, sink.events) == s.events
      requires step.RevokeToken? || step.RevokeById? || step.RevokeForUsers? || step.DeleteExpired?
      modifies store`sessions
      ensures store.Valid() && store.ContactTables() == old(store.ContactTables())
      ensures var (s', r') := A.Apply(cfg.account, now, old(store.contacts), old(store.RoleTables()), s, step);
              HoldsAccount(s') && store.RoleTables() == r' && Tally(first, sink.events) == s'.events
    {
      hide ValidTables, Tally, Accounts.Revoke, Accounts.RevokeUsers, Accounts.WithoutExpired;
      match step
      case RevokeToken(token) =>
        var _ := sessions.Revoke(now, token);
      case RevokeById(session) =>
        var _ := sessions.RevokeById(now, session);
      case RevokeForUsers(ids) =>
        sessions.RevokeForUsers(now, ids);
      case DeleteExpired =>
        var _ := sessions.DeleteExpired(now);
    }

    method PerformState(now: int, step: A.Step, ghost first: set<UserId>, ghost s: A.State)
      requires Wired() && store.Valid() && HoldsAccount(s) && A.Enabled(s, step)
      requires Tally(first, sink.events) == s.events
      requires step.ChangeState?
      modifies store
      ensures store.Valid() && store.ContactTables() == old(store.ContactTables())
      ensures var (s', r') := A.Apply(cfg.account, now, old(store.contacts), old(store.RoleTables()), s, step);
              HoldsAccount(s') && store.RoleTables() == r' && Tally(first, sink.events) == s'.events
    {
      hide ValidTables, Tally, Accounts.SetState;
      var _ := users.SetState(now, step.ids, step.state);
    }

    method PerformDelete(now: int, step: A.Step, ghost first: set<UserId>, ghost s: A.State)
      requires Wired() && store.Valid() && HoldsAccount(s) && A.Enabled(s, step)
      requires Tally(first, sink.events) == s.events
      requires step.Delete?
      modifies store, sink
      ensures store.Valid()
      ensures store.ContactTables() == Contacts.WithoutUsers(old(store.ContactTables()), A.Gone(s, step))
      ensures var (s', r') := A.Apply(cfg.account, now, old(store.contacts), old(store.RoleTables()), s, step);
              HoldsAccount(s') && store.RoleTables() == r' && Tally(first, sink.events) == s'.events
    {
      hide ValidTables, Tally, Accounts.WithoutUsers, Contacts.WithoutUsers, Rbac.WithoutUsers, Deletions;
      ghost var before := sink.events;
      WithoutNobody(store.Snapshot());
      var r := users.DeleteUsers(step.ids, step.participant);
      ghost var deleted: seq<UserId> :| IsDistinct(deleted)
        && Accounts.AsSet(deleted) == (if r.Ok? then Accounts.AsSet(step.ids) else {})
        && sink.events == before + Deletions(deleted);
      TallyDeletions(first, before, deleted);
    }

    /** Every account step. */
    method PerformAccount(now: int, step: A.Step, ghost first: set<UserId>, ghost s: A.State)
      requires Wired() && store.Valid() && HoldsAccount(s) && A.Enabled(s, step)
      requires Tally(first, sink.events) == s.events
      modifies this`auths, this`resolves, store, sink
      ensures store.Valid()
      ensures store.ContactTables() == Contacts.WithoutUsers(old(store.ContactTables()), A.Gone(s, step))
      ensures var (s', r') := A.Apply(cfg.account, now, old(store.contacts), old(store.RoleTables()), s, step);
              HoldsAccount(s') && store.RoleTables() == r' && Tally(first, sink.events) == s'.events
    {
      hide ValidTables, Tally, A.Apply, Contacts.WithoutUsers;
      WithoutNobody(store.Snapshot());
      if step.Delete? {
        PerformDelete(now, step, first, s);
      } else if step.ChangeState? {
        PerformState(now, step, first, s);
      } else if step.PasswordLogin? || step.Issue? {
        PerformLogin(now, step, first, s);
      } else if step.Change? || step.Reset? {
        PerformPassword(now, step, first, s);
      } else if step.BeginAuth? || step.FinishAuth? {
        PerformAuth(now, step, first, s);
      } else if step.Create? || step.RegisterUser? || step.ProvisionUser? || step.RegisterWithLogin? {
        PerformNewUser(now, step, first, s);
      } else if step.BeginResolve? || step.FinishResolve? {
        PerformResolve(now, step, first, s);
      } else {
        PerformRevoke(now, step, first, s);
      }
    }

    // Contact and role steps.

    method PerformContact(now: int, step: C.Step, ghost s: C.State)
      requires Wired() && store.Valid() && C.Enabled(s, step)
      requires store.ContactTables() == s.db && starts == s.starts && confirms == s.confirms
      requires C.PendingUnique(s.db.verifications)
      requires s.db.verifications.Keys <= s.log.usedVerifications && s.db.contacts.Keys <= s.log.origin.Keys
      modifies this`starts, this`confirms, store
      ensures store.Valid() && store.AccountTables() == old(store.AccountTables())
      ensures store.RoleTables() == old(store.RoleTables())
      ensures var s' := C.Apply(cfg.contact, now, old(store.users), s, step);
              store.ContactTables() == s'.db && starts == s'.starts && confirms == s'.confirms
    {
      hide ValidTables, Contacts.StartBegin, Contacts.StartFinish, Contacts.ConfirmBegin, Contacts.ConfirmRejected,
        Contacts.ConfirmAccepted, Contacts.Unbind, C.PendingUnique;
      match step
      case BeginStart(request, user, kind, raw) =>
        var begun := contacts.StartBegin(now, user, kind, raw);
        starts := if begun.Ok? then starts[request := begun.value] else starts - {request};
      case FinishStart(request, reply, verification) =>
        var _ := contacts.StartFinish(starts[request], reply, verification);
        starts := starts - {request};
      case BeginConfirm(request, user, kind, verification, code) =>
        var begun := contacts.ConfirmBegin(now, user, kind, verification, code);
        confirms := if begun.Ok? then confirms[request := begun.value] else confirms - {request};
      case FinishConfirm(request, reply, contact) =>
        match reply {
          case Rejected(e) =>
            var _ := contacts.ConfirmRejected(confirms[request], e);
          case Accepted =>
            var _ := contacts.ConfirmAccepted(now, confirms[request], contact);
        }
        confirms := confirms - {request};
      case RemoveContact(user, kind) =>
        var _ := contacts.Unbind(user, kind);
    }

    method PerformRoles(step: W.RoleStep)
      requires Wired() && store.Valid()
      modifies store
      ensures store.Valid() && store.AccountTables() == old(store.AccountTables())
      ensures store.ContactTables() == old(store.ContactTables())
      ensures var done := W.ApplyRoles(old(store.users).Keys, old(store.RoleTables()), step);
              store.RoleTables() == if done.Ok? then done.value else old(store.RoleTables())
    {
      hide ValidTables, Rbac.SetUserRoles, Rbac.SetRolePermissions, Rbac.Create, Rbac.Ensure, Rbac.Update,
        Rbac.DeleteRole, Rbac.DeletePermission;
      match step
      case SetUserRoles(user, codes) => var _ := authorization.SetUserRoles(user, codes);
      case SetRolePermissions(role, codes) => var _ := authorization.SetRolePermissions(role, codes);
      case CreateRole(id, code, system) => var _ := authorization.CreateRole(id, code, system);
      case EnsureRole(id, code, system) => var _ := authorization.EnsureRole(id, code, system);
      case UpdateRole(id, code) => var _ := authorization.UpdateRole(id, code);
      case DeleteRole(id) => var _ := store.DeleteRole(id);
      case CreatePermission(id, code, system) => var _ := authorization.CreatePermission(id, code, system);
      case EnsurePermission(id, code, system) => var _ := authorization.EnsurePermission(id, code, system);
      case UpdatePermission(id, code) => var _ := authorization.UpdatePermission(id, code);
      case DeletePermission(id) => var _ := store.DeletePermission(id);
    }

    // Whole runs.

    /** One step of a run, performed on the store. */
    method Perform(now: int, step: W.Step, ghost first: set<UserId>, ghost w: W.World) returns (next: int)
      requires Wired() && Holds(w) && now == w.now && Tally(first, sink.events) == w.account.events
      requires W.Inv(cfg, w) && W.Enabled(w, step)
      modifies this, store, sink
      ensures var w' := W.Apply(cfg, w, step);
              Holds(w') && next == w'.now && Tally(first, sink.events) == w'.account.events
    {
      hide W.Inv, Tally, ValidTables, A.Apply, A.Gone, C.Apply, W.ApplyRoles;
      StoreTheorems.WorldIsValid(cfg, w);
      next := now;
      match step
      case Wait(time) => next := now + time;
      case ContactStep(s) =>
        StoreTheorems.IdsAreUsed(cfg, w);
        PerformContact(now, s, w.contact);
      case AccountStep(s) => PerformAccount(now, s, first, w.account);
      case ChangeRoles(s) => PerformRoles(s);
    }

    /** A whole run, performed on the store.  It ends in the last world of the run, and
        the sink has received one event for every user created or deleted and one for
        every session ever committed. */
    method PerformAll(start: int, steps: seq<W.Step>, ghost ws: seq<W.World>)
      requires Wired() && sink.events == []
      requires W.Run(cfg, ws, steps) && Holds(ws[0]) && start == ws[0].now
      modifies this, store, sink
      ensures Holds(ws[|steps|])
      ensures var log := Tally(old(store.users).Keys, sink.events);
              && |log.created| == |log.deleted| + |store.users|
              && forall s :: log.announced[s] == if EverCommitted(ws, s) then 1 else 0
    {
      hide W.Inv, W.Apply, Tally, ValidTables;
      ghost var first := store.users.Keys;
      NothingReceived(first);
      var now := start;
      for i := 0 to |steps|
        invariant Wired() && Holds(ws[i]) && now == ws[i].now
        invariant Tally(first, sink.events) == ws[i].account.events
      {
        W.RunInv(cfg, ws, steps, i);
        now := Perform(now, steps[i], first, ws[i]);
      }
      AccountTheorems.UserEventsBalance(cfg, ws, steps, |steps|);
      forall s
        ensures ws[|steps|].account.events.announced[s]
             == if EverCommitted(ws, s) then 1 else 0
      {
        AccountTheorems.SessionAnnouncedOnce(cfg, ws, steps, |steps|, s);
      }
    }
  }

  ghost predicate EverCommitted(ws: seq<W.World>, s: SessionId) {
    exists k :: 0 <= k < |ws| && s in AccountTheorems.Sessions(ws[k])
  }

  lemma NothingReceived(first: set<UserId>)
    ensures Tally(first, []) == A.EventLog(multiset(first), multiset{}, multiset{})
  {}
}
