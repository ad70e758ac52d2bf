/** What contact verification guarantees over whole runs. */
module ContactTheorems {
  import opened Types
  import opened World
  import Accounts
  import Contacts
  import Identifiers
  import Strings
  import A = AccountProtocol
  import C = ContactProtocol
  import ContactOutcomes
  import ContactReasons

  function Verifications(w: World): map<VerificationId, Verification> {
    w.contact.db.verifications
  }

  lemma Rows(cfg: Config, w: World, v: VerificationId)
    requires Inv(cfg, w) && v in Verifications(w)
    ensures C.RowOk(cfg.contact.maxAttempts, w.Users().Keys, w.contact.log, v, Verifications(w)[v])
  {}

  // Statuses.

  /** A verification that has left `pending` is final, row and all. */
  lemma TerminalIsFinal(cfg: Config, ws: seq<World>, steps: seq<Step>, v: VerificationId, i: nat, j: nat)
    requires cfg.Valid() && Run(cfg, ws, steps) && i < j < |ws|
    requires v in Verifications(ws[i]) && v in Verifications(ws[j])
    ensures Verifications(ws[i])[v].status != Pending ==> Verifications(ws[j])[v] == Verifications(ws[i])[v]
  {
    hide Run, Apply;
    RunInv(cfg, ws, steps, i);
    Rows(cfg, ws[i], v);
    hide Inv;
    RunFollows(cfg, ws, steps, i, j);
  }

  ghost predicate Moves(ws: seq<World>, v: VerificationId, i: nat) {
    && i < |ws| - 1 && v in Verifications(ws[i]) && v in Verifications(ws[i + 1])
    && Verifications(ws[i])[v].status != Verifications(ws[i + 1])[v].status
  }

  /** In a whole run a verification changes its status at most once, out of
      `pending`. */
  lemma MovesOnce(cfg: Config, ws: seq<World>, steps: seq<Step>, v: VerificationId, i: nat, j: nat)
    requires cfg.Valid() && Run(cfg, ws, steps)
    ensures Moves(ws, v, i) && Moves(ws, v, j) ==>
              && i == j
              && Verifications(ws[i])[v].status == Pending && Verifications(ws[i + 1])[v].status != Pending
  {
    hide Run;
    if Moves(ws, v, i) && Moves(ws, v, j) {
      TerminalIsFinal(cfg, ws, steps, v, i, i + 1);
      TerminalIsFinal(cfg, ws, steps, v, j, j + 1);
      if i + 1 < j {
        TerminalIsFinal(cfg, ws, steps, v, i + 1, j);
      } else if j + 1 < i {
        TerminalIsFinal(cfg, ws, steps, v, j + 1, i);
      }
    }
  }

  /** A deleted verification never comes back. */
  lemma NeverReturns(cfg: Config, ws: seq<World>, steps: seq<Step>, v: VerificationId, h: nat, i: nat, j: nat)
    requires cfg.Valid() && Run(cfg, ws, steps) && h < i < j < |ws|
    requires v in Verifications(ws[h]) && v !in Verifications(ws[i])
    ensures v !in Verifications(ws[j])
  {
    hide Run, Apply;
    RunInv(cfg, ws, steps, h);
    Rows(cfg, ws[h], v);
    hide Inv;
    RunFollows(cfg, ws, steps, h, i);
    RunFollows(cfg, ws, steps, i, j);
  }

  /** At most one pending verification per user and kind, so the lookup of the
      pending one overlooks nothing; and the failure count agrees with the status. */
  lemma PendingIsUnique(
    cfg: Config, ws: seq<World>, steps: seq<Step>, i: nat, user: UserId, kind: Kind, v: VerificationId)
    requires cfg.Valid() && Run(cfg, ws, steps) && i < |ws|
    requires v in Verifications(ws[i])
    ensures Contacts.IsPendingFor(Verifications(ws[i])[v], user, kind)
       <==> Contacts.LatestPending(Verifications(ws[i]), user, kind) == Some(v)
    ensures var row := Verifications(ws[i])[v];
            && (row.status == Pending ==> row.attempts < cfg.contact.maxAttempts)
            && (row.status == Failed <==> row.attempts == cfg.contact.maxAttempts)
  {
    RunInv(cfg, ws, steps, i);
    hide Run, Apply;
    Rows(cfg, ws[i], v);
    var latest := Contacts.LatestPending(Verifications(ws[i]), user, kind);
    if latest.Some? {
      Rows(cfg, ws[i], latest.value);
      assert C.PendingUnique(Verifications(ws[i]));
      assert Contacts.IsPendingFor(Verifications(ws[i])[latest.value], user, kind);
    }
  }

  // Contacts.

  ghost predicate Answered(ws: seq<World>, steps: seq<Step>, k: nat, provider: string, challenge: string) {
    && k < |steps| && k < |ws| && steps[k].ContactStep? && steps[k].contactStep.FinishConfirm?
    && steps[k].contactStep.verifyReply == Contacts.Accepted
    && var request := steps[k].contactStep.request;
       && request in ws[k].contact.confirms
       && ws[k].contact.confirms[request].provider == provider
       && ws[k].contact.confirms[request].challenge == challenge
  }

  /** A challenge counts as accepted only after a provider accepted a code for it. */
  lemma {:induction false} AcceptedWasAnswered(
    cfg: Config, ws: seq<World>, steps: seq<Step>, i: nat, provider: string, challenge: string)
    returns (k: nat)
    requires Run(cfg, ws, steps) && i < |ws|
    requires (provider, challenge) in ws[i].contact.log.accepted
    ensures k < i && Answered(ws, steps, k, provider, challenge)
  {
    assert i > 0;
    if (provider, challenge) in ws[i - 1].contact.log.accepted {
      k := AcceptedWasAnswered(cfg, ws, steps, i - 1, provider, challenge);
    } else {
      AcceptedByStep(cfg, ws[i - 1], steps[i - 1], provider, challenge);
      k := i - 1;
    }
  }

  lemma AcceptedByStep(cfg: Config, w: World, step: Step, provider: string, challenge: string)
    requires Enabled(w, step) && (provider, challenge) !in w.contact.log.accepted
    requires (provider, challenge) in Apply(cfg, w, step).contact.log.accepted
    ensures step.ContactStep? && Answered([w], [step], 0, provider, challenge)
  {
    hide A.Apply, A.Gone, ApplyRoles, Contacts.StartBegin, Contacts.StartFinish, Contacts.ConfirmBegin,
      Contacts.ConfirmFinish, Contacts.Unbind;
  }

  /** Every bound contact was proved: a consumed verification of the same user, kind
      and value stands behind it, consumed in time, for a challenge that its provider
      accepted. */
  lemma ContactIsProved(cfg: Config, ws: seq<World>, steps: seq<Step>, i: nat, c: ContactId)
    returns (v: VerificationId, k: nat)
    requires cfg.Valid() && Run(cfg, ws, steps) && i < |ws| && c in ws[i].contact.db.contacts
    ensures v in Verifications(ws[i])
    ensures var row, contact := Verifications(ws[i])[v], ws[i].contact.db.contacts[c];
            && row.status == Consumed && row.user == contact.user && row.kind == contact.kind
            && row.value == contact.value && row.consumedAt == Some(contact.verifiedAt)
            && contact.verifiedAt < row.expiresAt
            && k < i && Answered(ws, steps, k, row.provider, row.challenge)
  {
    RunInv(cfg, ws, steps, i);
    hide Apply, Run;
    assert C.ContactsProved(ws[i].contact.log, ws[i].contact.db);
    v := ws[i].contact.log.origin[c];
    Rows(cfg, ws[i], v);
    hide Inv;
    k := AcceptedWasAnswered(cfg, ws, steps, i, Verifications(ws[i])[v].provider, Verifications(ws[i])[v].challenge);
  }

  ghost predicate BindsAt(cfg: Config, ws: seq<World>, steps: seq<Step>, v: VerificationId, k: nat) {
    && k < |steps| && k < |ws| && steps[k].ContactStep? && steps[k].contactStep.FinishConfirm?
    && var s := steps[k].contactStep;
       && s.request in ws[k].contact.confirms && ws[k].contact.confirms[s.request].id == v
       && Contacts.ConfirmFinish(cfg.contact, ws[k].now, ws[k].Users().Keys, ws[k].contact.db,
                                 ws[k].contact.confirms[s.request], s.verifyReply, s.contact).1.Bound?
  }

  /** In a whole run a verification binds a contact at most once, however many
      Confirm requests for it are in flight. */
  lemma BindsOnce(cfg: Config, ws: seq<World>, steps: seq<Step>, v: VerificationId, i: nat, j: nat)
    requires cfg.Valid() && Run(cfg, ws, steps)
    ensures BindsAt(cfg, ws, steps, v, i) && BindsAt(cfg, ws, steps, v, j) ==> i == j
  {
    hide Run, BindsAt;
    if BindsAt(cfg, ws, steps, v, i) && BindsAt(cfg, ws, steps, v, j) {
      BindingMoves(cfg, ws, steps, v, i);
      BindingMoves(cfg, ws, steps, v, j);
      MovesOnce(cfg, ws, steps, v, i, j);
    }
  }

  lemma BindingMoves(cfg: Config, ws: seq<World>, steps: seq<Step>, v: VerificationId, i: nat)
    requires Run(cfg, ws, steps) && BindsAt(cfg, ws, steps, v, i)
    ensures Moves(ws, v, i) && Verifications(ws[i + 1])[v].status == Consumed
  {
    hide A.Apply, ApplyRoles, Init, Contacts.ReplaceContact;
    assert ws[i + 1] == Apply(cfg, ws[i], steps[i]);
  }

  /** Once the provider accepted the code, a Confirm binds the contact exactly if its
      verification is still pending and in time and no other user has the value. */
  lemma ConfirmBindsIff(cfg: Config, ws: seq<World>, steps: seq<Step>, i: nat, request: C.RequestId, id: ContactId)
    requires cfg.Valid() && Run(cfg, ws, steps) && i < |ws| && request in ws[i].contact.confirms
    ensures var f, vs, cs := ws[i].contact.confirms[request], Verifications(ws[i]), ws[i].contact.db.contacts;
            var outcome := Contacts.ConfirmFinish(cfg.contact, ws[i].now, ws[i].Users().Keys, ws[i].contact.db, f,
                                                  Contacts.Accepted, id).1;
            outcome.Bound? <==>
              (&& f.id in vs && vs[f.id].status == Pending && ws[i].now < vs[f.id].expiresAt
               && (forall c | c in cs && cs[c].kind == f.kind && cs[c].value == vs[f.id].value :: cs[c].user == f.user))
    ensures var f := ws[i].contact.confirms[request];
            var (after, outcome) := Contacts.ConfirmFinish(cfg.contact, ws[i].now, ws[i].Users().Keys, ws[i].contact.db,
                                                           f, Contacts.Accepted, id);
            outcome.Bound? ==> ContactOutcomes.Binds(ws[i].contact.db, after, ws[i].now, f.id, id)
  {
    hide Run, Inv, Apply, Contacts.ConfirmFinish, ContactOutcomes.Binds;
    RunInv(cfg, ws, steps, i);
    ConfirmBindsAt(cfg, ws[i], request, id);
    BindingOf(cfg, ws[i], request, id);
  }

  lemma ConfirmBindsAt(cfg: Config, w: World, request: C.RequestId, id: ContactId)
    requires Inv(cfg, w) && request in w.contact.confirms
    ensures var f, vs, cs := w.contact.confirms[request], Verifications(w), w.contact.db.contacts;
            var outcome := Contacts.ConfirmFinish(cfg.contact, w.now, w.Users().Keys, w.contact.db, f,
                                                  Contacts.Accepted, id).1;
            outcome.Bound? <==>
              (&& f.id in vs && vs[f.id].status == Pending && w.now < vs[f.id].expiresAt
               && (forall c | c in cs && cs[c].kind == f.kind && cs[c].value == vs[f.id].value :: cs[c].user == f.user))
  {
    hide Inv;
    var f := w.contact.confirms[request];
    FlightFacts(cfg, w, request);
    if f.id in Verifications(w) {
      TakenByOthers(w.contact.db.contacts, f.user, f.kind, Verifications(w)[f.id].value);
    }
    hide Contacts.WithoutContact, Contacts.ValueTaken;
  }

  lemma BindingOf(cfg: Config, w: World, request: C.RequestId, id: ContactId)
    requires request in w.contact.confirms
    ensures var f := w.contact.confirms[request];
            var (after, outcome) := Contacts.ConfirmFinish(cfg.contact, w.now, w.Users().Keys, w.contact.db, f,
                                                           Contacts.Accepted, id);
            outcome.Bound? ==> ContactOutcomes.Binds(w.contact.db, after, w.now, f.id, id)
  {
    hide Contacts.ConfirmFinish;
    var f := w.contact.confirms[request];
    if Contacts.ConfirmFinish(cfg.contact, w.now, w.Users().Keys, w.contact.db, f, Contacts.Accepted, id).1.Bound? {
      ContactOutcomes.BindingStores(cfg.contact, w.now, w.Users().Keys, w.contact.db, f, Contacts.Accepted, id);
    }
  }

  lemma TakenByOthers(cs: map<ContactId, Contact>, user: UserId, kind: Kind, value: string)
    ensures Contacts.ValueTaken(Contacts.WithoutContact(cs, user, kind), kind, value)
       <==> exists c :: c in cs && cs[c].kind == kind && cs[c].value == value && cs[c].user != user
  {
    var rest := Contacts.WithoutContact(cs, user, kind);
    if c :| c in cs && cs[c].kind == kind && cs[c].value == value && cs[c].user != user {
      assert c in rest;
    }
  }

  lemma FlightFacts(cfg: Config, w: World, request: C.RequestId)
    requires Inv(cfg, w) && request in w.contact.confirms
    ensures var f, vs := w.contact.confirms[request], Verifications(w);
            f.id in vs ==> vs[f.id].user == f.user && vs[f.id].kind == f.kind && f.user in w.Users()
                           && Strings.TrimSpace(vs[f.id].value) != ""
  {
    hide A.Inv, Identifiers.IsNormal;
    var f := w.contact.confirms[request];
    assert C.FlightOk(w.contact.log, Verifications(w), f);
    if f.id in Verifications(w) {
      Rows(cfg, w, f.id);
      assert C.ValuesNormal(w.contact);
      Identifiers.NormalNotBlank(Verifications(w)[f.id].kind, Verifications(w)[f.id].value);
    }
  }

  // The pace of resends.

  /** A Start of the user and kind finished at step `j` and stored `v`. */
  ghost predicate StoredAt(
    ws: seq<World>, steps: seq<Step>, user: UserId, kind: Kind, v: VerificationId, j: nat)
  {
    && j < |steps| && j + 1 < |ws| && steps[j].ContactStep? && steps[j].contactStep.FinishStart?
    && steps[j].contactStep.verification == v && v in Verifications(ws[j + 1])
    && steps[j].contactStep.request in ws[j].contact.starts
    && ws[j].contact.starts[steps[j].contactStep.request].user == user
    && ws[j].contact.starts[steps[j].contactStep.request].kind == kind
  }

  /** What a Start in the world `w` would be told. */
  ghost function Start(cfg: Config, w: World, user: UserId, kind: Kind, raw: string): Result<Contacts.StartFlight> {
    Contacts.StartBegin(cfg.contact, w.now, w.Users(), w.contact.db, user, kind, raw).1
  }

  /** `v` itself is why the Start is refused as too early. */
  ghost predicate RefusedFor(cfg: Config, w: World, user: UserId, kind: Kind, raw: string, v: VerificationId) {
    && Start(cfg, w, user, kind, raw) == Err(ErrRateLimited)
    && Contacts.LatestPending(Verifications(w), user, kind) == Some(v)
  }

  /** When the resend interval is kept.  After a finished Start stored `v`, and until
      the interval is over, another Start of the user and kind that meets the other
      checks is refused for `v` exactly as long as `v` is there, pending and unexpired.
      It goes ahead only if `v` no longer is, and then exactly if nothing newer holds it
      back. */
  lemma PaceIsKeptIff(
    cfg: Config, ws: seq<World>, steps: seq<Step>, user: UserId, kind: Kind, raw: string, v: VerificationId, j: nat,
    k: nat)
    requires cfg.Valid() && Run(cfg, ws, steps) && j < k < |ws| && StoredAt(ws, steps, user, kind, v, j)
    requires ws[k].now < Verifications(ws[j + 1])[v].createdAt + cfg.contact.resend
    requires ContactReasons.Ready(cfg.contact, ws[k].Users(), ws[k].contact.db, user, kind, raw)
    ensures var vs := Verifications(ws[k]);
            var live := v in vs && vs[v].status == Pending && ws[k].now < vs[v].expiresAt;
            && (RefusedFor(cfg, ws[k], user, kind, raw, v) <==> live)
            && (Start(cfg, ws[k], user, kind, raw).Ok? <==>
                  !live && forall w :: !ContactReasons.Holds(cfg.contact, ws[k].now, ws[k].contact.db, user, kind, w))
  {
    hide StoredAt, Apply, Inv, Contacts.StartBegin, ContactReasons.Ready, ContactReasons.Holds, RefusedFor;
    StoredRow(cfg, ws, steps, user, kind, v, j);
    RunInv(cfg, ws, steps, k);
    if j + 1 < k {
      RunInv(cfg, ws, steps, j + 1);
      RunFollows(cfg, ws, steps, j + 1, k);
      UsedWhenStored(cfg, ws[j + 1], v);
    }
    hide Run;
    PaceAt(cfg, ws[k], user, kind, raw, v, Verifications(ws[j + 1])[v].createdAt);
  }

  lemma PaceAt(cfg: Config, w: World, user: UserId, kind: Kind, raw: string, v: VerificationId, createdAt: int)
    requires Inv(cfg, w) && w.now < createdAt + cfg.contact.resend
    requires v in Verifications(w) ==>
               && Verifications(w)[v].user == user && Verifications(w)[v].kind == kind
               && Verifications(w)[v].createdAt == createdAt
    requires ContactReasons.Ready(cfg.contact, w.Users(), w.contact.db, user, kind, raw)
    ensures var vs := Verifications(w);
            var live := v in vs && vs[v].status == Pending && w.now < vs[v].expiresAt;
            && (RefusedFor(cfg, w, user, kind, raw, v) <==> live)
            && (Start(cfg, w, user, kind, raw).Ok? <==>
                  !live && forall other :: !ContactReasons.Holds(cfg.contact, w.now, w.contact.db, user, kind, other))
  {
    hide Inv, Contacts.StartBegin, ContactReasons.Ready;
    PendingFacts(cfg, w, user, kind);
    hide C.PendingUnique;
    ContactReasons.StartPacesResends(cfg.contact, w.now, w.Users(), w.contact.db, user, kind, raw);
    var latest := Contacts.LatestPending(Verifications(w), user, kind);
    assert v in Verifications(w) && Contacts.IsPendingFor(Verifications(w)[v], user, kind) ==> latest == Some(v);
    if v in Verifications(w) && Verifications(w)[v].status == Pending && w.now < Verifications(w)[v].expiresAt {
      assert ContactReasons.Holds(cfg.contact, w.now, w.contact.db, user, kind, v);
    }
  }

  lemma StoredRow(
    cfg: Config, ws: seq<World>, steps: seq<Step>, user: UserId, kind: Kind, v: VerificationId, j: nat)
    requires cfg.Valid() && Run(cfg, ws, steps) && StoredAt(ws, steps, user, kind, v, j)
    ensures v in Verifications(ws[j + 1]) && Contacts.IsPendingFor(Verifications(ws[j + 1])[v], user, kind)
  {
    hide Inv, Init, A.Apply, C.Apply, ApplyRoles;
    RunInv(cfg, ws, steps, j);
    assert ws[j + 1] == Apply(cfg, ws[j], steps[j]) && Enabled(ws[j], steps[j]);
    if v in Verifications(ws[j]) {
      UsedWhenStored(cfg, ws[j], v);
    }
    var step := steps[j].contactStep;
    ContactReasons.FinishStores(cfg.contact, ws[j].now, ws[j].Users(), ws[j].contact, step.request, step.startReply, v);
  }

  /** Why a pending verification is no longer one after step `m`: a contact step that
      had its reason to settle it, or the deletion of its user. */
  ghost predicate EndsAt(cfg: Config, ws: seq<World>, steps: seq<Step>, v: VerificationId, m: nat) {
    && m < |steps| && m + 1 < |ws| && Enabled(ws[m], steps[m])
    && v in Verifications(ws[m]) && Verifications(ws[m])[v].status == Pending
    && if v in Verifications(ws[m + 1])
       then && Verifications(ws[m + 1])[v].status != Pending && steps[m].ContactStep?
            && ContactReasons.HasReason(cfg.contact, ws[m].now, ws[m].contact, steps[m].contactStep, v,
                                        Verifications(ws[m])[v], Verifications(ws[m + 1])[v])
       else && steps[m].AccountStep?
            && Verifications(ws[m])[v].user in A.Gone(ws[m].account, steps[m].accountStep)
  }

  /** Between a world where a verification is pending and a later one where it is not,
      some step ended it for a reason. */
  lemma {:induction false} PendingEndsForAReason(
    cfg: Config, ws: seq<World>, steps: seq<Step>, v: VerificationId, i: nat, k: nat)
    returns (m: nat)
    requires cfg.Valid() && Run(cfg, ws, steps) && i < k < |ws|
    requires v in Verifications(ws[i]) && Verifications(ws[i])[v].status == Pending
    requires !(v in Verifications(ws[k]) && Verifications(ws[k])[v].status == Pending)
    ensures i <= m < k && EndsAt(cfg, ws, steps, v, m)
    decreases k
  {
    hide Inv, Init, Apply, EndsAt;
    if i < k - 1 && !(v in Verifications(ws[k - 1]) && Verifications(ws[k - 1])[v].status == Pending) {
      m := PendingEndsForAReason(cfg, ws, steps, v, i, k - 1);
    } else {
      m := k - 1;
      RunInv(cfg, ws, steps, m);
      StepEnds(cfg, ws, steps, v, m);
    }
  }

  lemma StepEnds(cfg: Config, ws: seq<World>, steps: seq<Step>, v: VerificationId, m: nat)
    requires cfg.Valid() && m < |steps| && m + 1 < |ws| && Inv(cfg, ws[m])
    requires Enabled(ws[m], steps[m]) && ws[m + 1] == Apply(cfg, ws[m], steps[m])
    requires v in Verifications(ws[m]) && Verifications(ws[m])[v].status == Pending
    requires !(v in Verifications(ws[m + 1]) && Verifications(ws[m + 1])[v].status == Pending)
    ensures EndsAt(cfg, ws, steps, v, m)
  {
    hide Inv, A.Apply, A.Gone, C.Apply, ApplyRoles, ContactReasons.HasReason;
    var w := ws[m];
    if steps[m].ContactStep? {
      ContactInv(cfg, w);
      ContactReasons.RowStays(cfg.contact, w.now, w.Users(), w.contact, steps[m].contactStep, v);
      ContactReasons.ChangesForAReason(cfg.contact, w.now, w.Users(), w.contact, steps[m].contactStep, v);
    }
  }

  lemma ContactInv(cfg: Config, w: World)
    requires Inv(cfg, w)
    ensures C.Inv(cfg.contact.maxAttempts, w.Users().Keys, w.contact)
  {}

  lemma UsedWhenStored(cfg: Config, w: World, v: VerificationId)
    requires Inv(cfg, w) && v in Verifications(w)
    ensures v in w.contact.log.usedVerifications
  {
    Rows(cfg, w, v);
  }

  lemma PendingFacts(cfg: Config, w: World, user: UserId, kind: Kind)
    requires Inv(cfg, w)
    ensures C.PendingUnique(Verifications(w))
    ensures forall a, b | a in Verifications(w) && b in Verifications(w)
              && Contacts.IsPendingFor(Verifications(w)[a], user, kind)
              && Contacts.IsPendingFor(Verifications(w)[b], user, kind) :: a == b
  {
    hide A.Inv, C.ValuesNormal;
  }

  // Login by contact.

  /** A login identifier names at most one user. */
  lemma NamesOne(
    cfg: Config, w: World, id: Identifiers.LoginIdentifier, u: UserId, v: UserId)
    requires Inv(cfg, w)
    requires Accounts.Names(w.Users(), w.contact.db.contacts, id, u)
    requires Accounts.Names(w.Users(), w.contact.db.contacts, id, v)
    ensures u == v
  {
    assert Contacts.ContactsUnique(w.contact.db.contacts);
    assert A.UsersOk(w.Users(), w.account.usedUsers);
    hide Inv;
  }

  /** An email address or phone number leads a login only to a user who verified it. */
  lemma AliasWasVerified(
    cfg: Config, ws: seq<World>, steps: seq<Step>, i: nat, id: Identifiers.LoginIdentifier, user: UserId)
    returns (v: VerificationId, k: nat)
    requires cfg.Valid() && Run(cfg, ws, steps) && i < |ws| && id.kind != Identifiers.ByUsername
    requires Accounts.Lookup(ws[i].Users(), ws[i].contact.db.contacts, id) == Some(user)
    ensures v in Verifications(ws[i])
    ensures var row := Verifications(ws[i])[v];
            && row.status == Consumed && row.user == user && row.value == id.value
            && row.kind == (if id.kind == Identifiers.ByPhone then Phone else Email)
            && k < i && Answered(ws, steps, k, row.provider, row.challenge)
  {
    var kind := if id.kind == Identifiers.ByPhone then Phone else Email;
    var cs := ws[i].contact.db.contacts;
    var c :| c in cs && cs[c] == Contact(user, kind, id.value, cs[c].verifiedAt);
    hide Run;
    v, k := ContactIsProved(cfg, ws, steps, i, c);
  }

  /** The value of a bound contact is read as a login identifier of its own kind and
      leads to its owner. */
  lemma ContactLogsIn(cfg: Config, ws: seq<World>, steps: seq<Step>, i: nat, c: ContactId)
    requires cfg.Valid() && Run(cfg, ws, steps) && i < |ws| && c in ws[i].contact.db.contacts
    ensures var contact := ws[i].contact.db.contacts[c];
            var id := Identifiers.ContactIdentifier(contact.kind, contact.value);
            && Identifiers.NormalizeLoginIdentifier(contact.value) == Ok(id)
            && Accounts.Lookup(ws[i].Users(), ws[i].contact.db.contacts, id) == Some(contact.user)
  {
    RunInv(cfg, ws, steps, i);
    ContactResolves(cfg, ws[i], c);
  }

  lemma ContactResolves(cfg: Config, w: World, c: ContactId)
    requires Inv(cfg, w) && c in w.contact.db.contacts
    ensures var contact := w.contact.db.contacts[c];
            var id := Identifiers.ContactIdentifier(contact.kind, contact.value);
            && Identifiers.NormalizeLoginIdentifier(contact.value) == Ok(id)
            && Accounts.Lookup(w.Users(), w.contact.db.contacts, id) == Some(contact.user)
  {
    var contact := w.contact.db.contacts[c];
    var id := Identifiers.ContactIdentifier(contact.kind, contact.value);
    ContactOrigin(cfg, w, c);
    hide Inv, Identifiers.NormalizeLoginIdentifier, Identifiers.ContactValue, Identifiers.ValidateLoginIdentifier;
    Identifiers.ContactValueNormal(contact.kind, contact.value);
    Identifiers.StoredValueResolvesToItself(id);
    assert Accounts.Names(w.Users(), w.contact.db.contacts, id, contact.user);
    var found := Accounts.Lookup(w.Users(), w.contact.db.contacts, id);
    NamesOne(cfg, w, id, found.value, contact.user);
  }

  lemma ContactOrigin(cfg: Config, w: World, c: ContactId)
    requires Inv(cfg, w) && c in w.contact.db.contacts
    ensures var contact := w.contact.db.contacts[c];
            contact.user in w.Users() && Identifiers.IsNormal(contact.kind, contact.value)
  {
    hide Identifiers.IsNormal;
    assert C.ContactsProved(w.contact.log, w.contact.db);
    var v := w.contact.log.origin[c];
    Rows(cfg, w, v);
    assert C.ValuesNormal(w.contact);
  }
}
