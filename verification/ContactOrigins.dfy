/** Where the rows of the contact tables come from, over whole runs: a contact from the
    Confirm that bound it, a verification from the Start that asked for it. */
module ContactOrigins {
  import opened Types
  import opened World
  import opened ContactTheorems
  import A = AccountProtocol
  import C = ContactProtocol
  import Contacts
  import ContactOutcomes
  import ContactReasons
  import Identifiers
  import Strings

  // Contacts.

  /** A Confirm that binds stores the contact it answers with in place of the user's
      former one of the kind, leaves every other contact, and consumes its
      verification. */
  lemma BindStores(cfg: Config, ws: seq<World>, steps: seq<Step>, v: VerificationId, k: nat)
    requires Run(cfg, ws, steps) && BindsAt(cfg, ws, steps, v, k)
    ensures ContactOutcomes.Binds(ws[k].contact.db, ws[k + 1].contact.db, ws[k].now, v, steps[k].contactStep.contact)
  {
    var s := steps[k].contactStep;
    var w := ws[k];
    ContactOutcomes.BindingStores(cfg.contact, w.now, w.Users().Keys, w.contact.db, w.contact.confirms[s.request],
                                  s.verifyReply, s.contact);
    assert ws[k + 1] == Apply(cfg, w, steps[k]);
    hide Init, A.Apply, ApplyRoles, Contacts.ConfirmFinish, ContactOutcomes.Binds;
  }

  /** A Confirm transaction without an error always produced a contact, and stored it. */
  lemma ConfirmBindsOrRefuses(
    cfg: Contacts.Config, now: int, users: map<UserId, User>, s: C.State, request: C.RequestId,
    reply: Contacts.VerifyReply, id: ContactId)
    requires C.Inv(cfg.maxAttempts, users.Keys, s) && request in s.confirms
    ensures var (after, outcome) := Contacts.ConfirmFinish(cfg, now, users.Keys, s.db, s.confirms[request], reply, id);
            || outcome.Refused?
            || (outcome == Contacts.Bound(id, outcome.contact) && id in after.contacts
                && after.contacts[id] == outcome.contact)
  {
    assert C.FlightOk(s.log, s.db.verifications, s.confirms[request]);
    if Contacts.ConfirmFinish(cfg, now, users.Keys, s.db, s.confirms[request], reply, id).1.Bound? {
      ContactOutcomes.BindingStores(cfg, now, users.Keys, s.db, s.confirms[request], reply, id);
    }
    hide C.Inv, Contacts.ReplaceContact;
  }

  /** A step leaves a contact as it was, removes it, or binds it. */
  lemma ContactsOfStep(
    cfg: Contacts.Config, now: int, users: map<UserId, User>, s: C.State, step: C.Step, c: ContactId)
    requires C.Enabled(s, step)
    ensures var db' := C.Apply(cfg, now, users, s, step).db;
            c in db'.contacts ==>
              || (c in s.db.contacts && db'.contacts[c] == s.db.contacts[c])
              || (&& step.FinishConfirm? && step.contact == c
                  && Contacts.ConfirmFinish(cfg, now, users.Keys, s.db, s.confirms[step.request], step.verifyReply,
                                            c).1.Bound?)
  {
    hide Contacts.StartBegin, Contacts.StartFinish, Contacts.ConfirmBegin, Contacts.ConfirmFinish, Contacts.Unbind;
    match step
    case BeginStart(request, user, kind, raw) =>
      StartBeginKeeps(cfg, now, users, s.db, user, kind, raw);
    case FinishStart(request, reply, id) =>
      StartFinishKeeps(cfg, users.Keys, s.db, s.starts[request], reply, id);
    case BeginConfirm(request, user, kind, id, code) =>
      ContactOutcomes.ConfirmMarksExpired(cfg, now, s.db, user, kind, id, code);
    case FinishConfirm(request, reply, id) =>
      if Contacts.ConfirmFinish(cfg, now, users.Keys, s.db, s.confirms[request], reply, id).1.Bound? {
        ContactOutcomes.BindingStores(cfg, now, users.Keys, s.db, s.confirms[request], reply, id);
      } else {
        NotBound(cfg, now, users.Keys, s.db, s.confirms[request], reply, id);
      }
    case RemoveContact(user, kind) =>
      ContactOutcomes.UnbindAnswers(s.db, user, kind);
  }

  lemma StartBeginKeeps(
    cfg: Contacts.Config, now: int, users: map<UserId, User>, db: Contacts.Db, user: UserId, kind: Kind, raw: string)
    ensures Contacts.StartBegin(cfg, now, users, db, user, kind, raw).0.contacts == db.contacts
  {
    hide Identifiers.ContactValue;
  }

  lemma StartFinishKeeps(
    cfg: Contacts.Config, users: set<UserId>, db: Contacts.Db, flight: Contacts.StartFlight,
    reply: Contacts.StartReply, id: VerificationId)
    ensures Contacts.StartFinish(cfg, users, db, flight, reply, id).0.contacts == db.contacts
  {}

  lemma NotBound(
    cfg: Contacts.Config, now: int, users: set<UserId>, db: Contacts.Db, flight: Contacts.ConfirmFlight,
    reply: Contacts.VerifyReply, id: ContactId)
    requires !Contacts.ConfirmFinish(cfg, now, users, db, flight, reply, id).1.Bound?
    ensures Contacts.ConfirmFinish(cfg, now, users, db, flight, reply, id).0.contacts == db.contacts
  {}

  lemma StoredIsNotFresh(cfg: Config, w: World, c: ContactId)
    requires Inv(cfg, w) && c in w.contact.db.contacts
    ensures c in w.contact.log.origin
  {
    assert C.ContactsProved(w.contact.log, w.contact.db);
  }

  /** A contact row that was not there before a step was bound by it, and one that was
      there is as it was. */
  lemma ContactStepBinds(cfg: Config, ws: seq<World>, steps: seq<Step>, c: ContactId, k: nat)
    returns (v: VerificationId)
    requires cfg.Valid() && k < |steps| && k + 1 < |ws| && Inv(cfg, ws[k]) && Enabled(ws[k], steps[k])
    requires ws[k + 1] == Apply(cfg, ws[k], steps[k]) && c in ws[k + 1].contact.db.contacts
    ensures if c in ws[k].contact.db.contacts
            then ws[k + 1].contact.db.contacts[c] == ws[k].contact.db.contacts[c]
            else BindsAt(cfg, ws, steps, v, k) && steps[k].contactStep.contact == c
  {
    hide Inv, A.Apply, ApplyRoles, C.Apply, Contacts.ConfirmFinish;
    var w := ws[k];
    v := 0;
    if c in w.contact.db.contacts {
      StoredIsNotFresh(cfg, w, c);
    }
    if steps[k].ContactStep? {
      var step := steps[k].contactStep;
      ContactsOfStep(cfg.contact, w.now, w.Users(), w.contact, step, c);
      v := if step.FinishConfirm? then w.contact.confirms[step.request].id else 0;
    }
  }

  /** Every contact is, to this day, the one that some Confirm bound: of the user, kind
      and value of its verification, and verified at the time of that step. */
  lemma {:induction false} ContactWasBound(cfg: Config, ws: seq<World>, steps: seq<Step>, i: nat, c: ContactId)
    returns (v: VerificationId, k: nat)
    requires cfg.Valid() && Run(cfg, ws, steps) && i < |ws| && c in ws[i].contact.db.contacts
    ensures k < i && BindsAt(cfg, ws, steps, v, k) && steps[k].contactStep.contact == c
    ensures v in Verifications(ws[k])
    ensures var row := Verifications(ws[k])[v];
            ws[i].contact.db.contacts[c] == Contact(row.user, row.kind, row.value, ws[k].now)
  {
    hide Inv, Apply, Init, BindsAt;
    StartsEmpty(cfg, ws, steps);
    RunInv(cfg, ws, steps, i - 1);
    v := ContactStepBinds(cfg, ws, steps, c, i - 1);
    if c in ws[i - 1].contact.db.contacts {
      v, k := ContactWasBound(cfg, ws, steps, i - 1, c);
    } else {
      k := i - 1;
      BindStores(cfg, ws, steps, v, k);
    }
  }

  lemma StartsEmpty(cfg: Config, ws: seq<World>, steps: seq<Step>)
    requires Run(cfg, ws, steps)
    ensures ws[0].contact.db == Contacts.Db(map[], map[]) && ws[0].contact.starts == map[]
  {
    hide Apply, A.UsersOk;
  }

  // Verifications.

  /** The Start in flight was begun at step `b`, with what it read there. */
  ghost predicate StartsAt(
    cfg: Config, ws: seq<World>, steps: seq<Step>, request: C.RequestId, flight: Contacts.StartFlight, b: nat)
  {
    && b < |steps| && b < |ws| && steps[b].ContactStep? && steps[b].contactStep.BeginStart?
    && steps[b].contactStep.request == request
    && Start(cfg, ws[b], steps[b].contactStep.user, steps[b].contactStep.kind, steps[b].contactStep.raw) == Ok(flight)
  }

  lemma {:induction false} StartWasBegun(
    cfg: Config, ws: seq<World>, steps: seq<Step>, i: nat, request: C.RequestId)
    returns (b: nat)
    requires Run(cfg, ws, steps) && i < |ws| && request in ws[i].contact.starts
    ensures b < i && StartsAt(cfg, ws, steps, request, ws[i].contact.starts[request], b)
    ensures steps[b].ContactStep? && steps[b].contactStep.BeginStart? && steps[b].contactStep.request == request
  {
    hide Init, Apply, StartsAt;
    StartsEmpty(cfg, ws, steps);
    var before := ws[i - 1].contact.starts;
    if request in before && before[request] == ws[i].contact.starts[request] {
      b := StartWasBegun(cfg, ws, steps, i - 1, request);
    } else {
      b := i - 1;
      StartByStep(cfg, ws, steps, i - 1, request);
    }
  }

  lemma StartByStep(cfg: Config, ws: seq<World>, steps: seq<Step>, b: nat, request: C.RequestId)
    requires b < |steps| && b + 1 < |ws| && Enabled(ws[b], steps[b]) && ws[b + 1] == Apply(cfg, ws[b], steps[b])
    requires var after := ws[b + 1].contact.starts; request in after
    requires var before := ws[b].contact.starts;
             !(request in before && before[request] == ws[b + 1].contact.starts[request])
    ensures StartsAt(cfg, ws, steps, request, ws[b + 1].contact.starts[request], b)
    ensures steps[b].ContactStep? && steps[b].contactStep.BeginStart? && steps[b].contactStep.request == request
  {
    hide A.Apply, A.Gone, ApplyRoles, Contacts.StartBegin, Contacts.StartFinish, Contacts.ConfirmBegin,
      Contacts.ConfirmFinish, Contacts.Unbind;
  }

  /** What a Start asked for at step `b`: for an active user, the normalized value, and
      the provider configured for the kind. */
  ghost predicate AskedAt(
    cfg: Config, ws: seq<World>, steps: seq<Step>, row: Verification, b: nat)
  {
    && b < |steps| && b < |ws| && steps[b].ContactStep? && steps[b].contactStep.BeginStart?
    && row.user == steps[b].contactStep.user && row.kind == steps[b].contactStep.kind
    && row.user in ws[b].Users() && ContactOutcomes.IsActive(ws[b].Users()[row.user])
    && Ok(row.value) == Identifiers.ContactValue(row.kind, steps[b].contactStep.raw)
    && (exists p :: ContactOutcomes.Configured(cfg.contact, row.kind, p) && row.provider == Strings.TrimSpace(p))
    && row.createdAt == ws[b].now && row.createdAt < row.expiresAt <= row.createdAt + cfg.contact.ttl
  }

  /** What a Start asked for is what its provider's reply stores. */
  lemma StoresWhatWasAsked(
    cfg: Config, ws: seq<World>, steps: seq<Step>, v: VerificationId, user: UserId, kind: Kind, b: nat, j: nat)
    requires cfg.Valid() && Run(cfg, ws, steps) && StoredAt(ws, steps, user, kind, v, j)
    requires b < |steps| && b < |ws|
    requires var request := steps[j].contactStep.request;
             StartsAt(cfg, ws, steps, request, ws[j].contact.starts[request], b)
    ensures AskedAt(cfg, ws, steps, Verifications(ws[j + 1])[v], b)
    ensures Verifications(ws[j + 1])[v].user == user && Verifications(ws[j + 1])[v].kind == kind
  {
    hide Inv, Init, Apply, Contacts.StartBegin, Strings.TrimSpace, Identifiers.ContactValue;
    RunInv(cfg, ws, steps, b);
    RunInv(cfg, ws, steps, j);
    assert Enabled(ws[j], steps[j]) && ws[j + 1] == Apply(cfg, ws[j], steps[j]);
    hide Run;
    var w, step := ws[b], steps[b].contactStep;
    PendingFacts(cfg, w, step.user, step.kind);
    ContactOutcomes.StartAnswers(cfg.contact, w.now, w.Users(), w.contact.db, step.user, step.kind, step.raw);
    StoredFields(cfg, ws[j], steps[j].contactStep, v);
  }

  lemma StoredFields(cfg: Config, w: World, step: C.Step, v: VerificationId)
    requires cfg.Valid() && Inv(cfg, w) && Enabled(w, ContactStep(step))
    requires step.FinishStart? && step.verification == v && v in Verifications(Apply(cfg, w, ContactStep(step)))
    ensures var flight, row := w.contact.starts[step.request], Verifications(Apply(cfg, w, ContactStep(step)))[v];
            && row.user == flight.user && row.kind == flight.kind && row.value == flight.value
            && row.provider == flight.provider && row.createdAt == flight.startedAt
            && row.createdAt < row.expiresAt <= row.createdAt + cfg.contact.ttl
  {
    if v in Verifications(w) {
      UsedWhenStored(cfg, w, v);
    }
    var flight := w.contact.starts[step.request];
    ContactOutcomes.StartStoresIff(cfg.contact, w.Users().Keys, w.contact.db, flight, step.startReply, v);
    hide Inv, Contacts.StartFinish, Strings.TrimSpace;
    if Contacts.StartFinish(cfg.contact, w.Users().Keys, w.contact.db, flight, step.startReply, v).1.Ok? {
      ContactOutcomes.StartStores(cfg.contact, w.Users().Keys, w.contact.db, flight, step.startReply, v);
    }
  }

  /** A verification keeps what it was asked for while it is stored. */
  lemma AskedStays(cfg: Config, ws: seq<World>, steps: seq<Step>, r: Verification, r': Verification, b: nat)
    requires AskedAt(cfg, ws, steps, r, b) && VerificationFollows(r, r')
    ensures AskedAt(cfg, ws, steps, r', b)
  {}

  /** Every verification was asked for by a Start of an active user, with the value that
      was given, normalized, and from the provider configured for its kind; and it was
      stored by the end of that Start. */
  lemma {:induction false} VerificationWasAsked(
    cfg: Config, ws: seq<World>, steps: seq<Step>, i: nat, v: VerificationId)
    returns (b: nat, j: nat)
    requires cfg.Valid() && Run(cfg, ws, steps) && i < |ws| && v in Verifications(ws[i])
    ensures b < j < i && AskedAt(cfg, ws, steps, Verifications(ws[i])[v], b)
    ensures StoredAt(ws, steps, Verifications(ws[i])[v].user, Verifications(ws[i])[v].kind, v, j)
    ensures steps[j].contactStep.request == steps[b].contactStep.request
  {
    hide Inv, Apply, Init, AskedAt, StartsAt;
    StartsEmpty(cfg, ws, steps);
    RunInv(cfg, ws, steps, i - 1);
    StepFollows(cfg, ws[i - 1], steps[i - 1]);
    if v in Verifications(ws[i - 1]) {
      b, j := VerificationWasAsked(cfg, ws, steps, i - 1, v);
      UsedWhenStored(cfg, ws[i - 1], v);
      AskedStays(cfg, ws, steps, Verifications(ws[i - 1])[v], Verifications(ws[i])[v], b);
    } else {
      j := i - 1;
      NewRowIsStored(cfg, ws, steps, v, j);
      var request := steps[j].contactStep.request;
      b := StartWasBegun(cfg, ws, steps, j, request);
      var flight := ws[j].contact.starts[request];
      StoresWhatWasAsked(cfg, ws, steps, v, flight.user, flight.kind, b, j);
    }
  }

  lemma NewRowIsStored(cfg: Config, ws: seq<World>, steps: seq<Step>, v: VerificationId, j: nat)
    requires j < |steps| && j + 1 < |ws| && Enabled(ws[j], steps[j]) && ws[j + 1] == Apply(cfg, ws[j], steps[j])
    requires v !in Verifications(ws[j]) && v in Verifications(ws[j + 1])
    ensures steps[j].ContactStep? && steps[j].contactStep.FinishStart?
    ensures var flight := ws[j].contact.starts[steps[j].contactStep.request];
            StoredAt(ws, steps, flight.user, flight.kind, v, j)
  {
    hide A.Apply, ApplyRoles, Identifiers.ContactValue, Strings.TrimSpace, Contacts.ReplaceContact;
  }
}
