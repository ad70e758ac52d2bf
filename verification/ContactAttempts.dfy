/** How often a verification can be answered: what its failure count bounds in a whole
    run, and what it does not. */
module ContactAttempts {
  import opened Types
  import opened World
  import opened ContactTheorems
  import A = AccountProtocol
  import C = ContactProtocol
  import Contacts
  import ContactOutcomes
  import ContactReasons
  import Strings

  /** At step `k` the provider called a code for `v` wrong. */
  ghost predicate RefusedAt(ws: seq<World>, steps: seq<Step>, v: VerificationId, k: nat) {
    && k < |steps| && k < |ws| && steps[k].ContactStep? && steps[k].contactStep.FinishConfirm?
    && steps[k].contactStep.verifyReply == Contacts.Rejected(ErrVerificationInvalid)
    && steps[k].contactStep.request in ws[k].contact.confirms
    && ws[k].contact.confirms[steps[k].contactStep.request].id == v
  }

  ghost predicate Pends(w: World, v: VerificationId) {
    v in Verifications(w) && Verifications(w)[v].status == Pending
  }

  ghost predicate CountedAt(ws: seq<World>, steps: seq<Step>, v: VerificationId, k: nat) {
    RefusedAt(ws, steps, v, k) && Pends(ws[k], v)
  }

  /** The steps before `i` that refused a code for `v`, and those among them that came
      while `v` was pending. */
  ghost function Refusals(ws: seq<World>, steps: seq<Step>, v: VerificationId, i: nat): set<nat> {
    set k: nat | k < i && RefusedAt(ws, steps, v, k)
  }

  ghost function Counted(ws: seq<World>, steps: seq<Step>, v: VerificationId, i: nat): set<nat> {
    set k: nat | k < i && CountedAt(ws, steps, v, k)
  }

  lemma CountedGrows(ws: seq<World>, steps: seq<Step>, v: VerificationId, i: nat)
    ensures Counted(ws, steps, v, i + 1)
         == Counted(ws, steps, v, i) + if CountedAt(ws, steps, v, i) then {i} else {}
    ensures |Counted(ws, steps, v, i + 1)|
         == |Counted(ws, steps, v, i)| + if CountedAt(ws, steps, v, i) then 1 else 0
  {
    hide CountedAt;
    assert Counted(ws, steps, v, i + 1)
        == Counted(ws, steps, v, i) + if CountedAt(ws, steps, v, i) then {i} else {};
    assert i !in Counted(ws, steps, v, i);
  }

  // One step.

  /** A refusal while the row is pending counts one, nothing else does. */
  lemma StepCounts(cfg: Config, w: World, step: Step, v: VerificationId)
    requires cfg.Valid() && Inv(cfg, w) && Enabled(w, step)
    requires v in Verifications(w) && v in Verifications(Apply(cfg, w, step))
    ensures Verifications(Apply(cfg, w, step))[v].attempts
         == Verifications(w)[v].attempts + if CountedAt([w], [step], v, 0) then 1 else 0
  {
    ContactInv(cfg, w);
    hide Inv, A.Apply, A.Gone, ApplyRoles, C.Apply, C.Inv;
    if step.ContactStep? {
      ContactStepCounts(cfg, w, step.contactStep, v);
    }
  }

  lemma ContactStepCounts(cfg: Config, w: World, step: C.Step, v: VerificationId)
    requires cfg.Valid() && C.Inv(cfg.contact.maxAttempts, w.Users().Keys, w.contact) && C.Enabled(w.contact, step)
    requires v in Verifications(w)
    requires v in C.Apply(cfg.contact, w.now, w.Users(), w.contact, step).db.verifications
    ensures C.Apply(cfg.contact, w.now, w.Users(), w.contact, step).db.verifications[v].attempts
         == Verifications(w)[v].attempts + if CountedAt([w], [ContactStep(step)], v, 0) then 1 else 0
  {
    hide C.Apply, C.Inv, ContactReasons.HasReason;
    var r := Verifications(w)[v];
    var r' := C.Apply(cfg.contact, w.now, w.Users(), w.contact, step).db.verifications[v];
    ContactReasons.ChangesForAReason(cfg.contact, w.now, w.Users(), w.contact, step, v);
    if CountedAt([w], [ContactStep(step)], v, 0) {
      RefusalCounts(cfg, w, step, v);
    } else if r' != r {
      C.StepKeeps(cfg.contact, w.now, w.Users(), w.contact, step);
      assert C.RowEvolves(r, r');
      OnlyRefusalsCount(cfg.contact, w.now, w.contact, step, v, r, r');
    }
  }

  lemma OnlyRefusalsCount(
    cfg: Contacts.Config, now: int, s: C.State, step: C.Step, v: VerificationId, r: Verification, r': Verification)
    requires C.Enabled(s, step) && ContactReasons.HasReason(cfg, now, s, step, v, r, r')
    ensures r'.attempts == r.attempts || ContactReasons.RejectedFor(s, step, v, r)
  {}

  lemma RefusalCounts(cfg: Config, w: World, step: C.Step, v: VerificationId)
    requires C.Inv(cfg.contact.maxAttempts, w.Users().Keys, w.contact) && C.Enabled(w.contact, step)
    requires CountedAt([w], [ContactStep(step)], v, 0)
    ensures var vs := C.Apply(cfg.contact, w.now, w.Users(), w.contact, step).db.verifications;
            v in vs && vs[v].attempts == Verifications(w)[v].attempts + 1
  {
    assert C.FlightOk(w.contact.log, Verifications(w), w.contact.confirms[step.request]);
    hide C.Inv, Contacts.ConfirmAccepted;
  }

  lemma NewRowIsUnused(cfg: Config, w: World, step: Step, v: VerificationId)
    requires cfg.Valid() && Inv(cfg, w) && Enabled(w, step)
    requires v !in Verifications(w) && v in Verifications(Apply(cfg, w, step))
    ensures v !in w.contact.log.usedVerifications && Verifications(Apply(cfg, w, step))[v].attempts == 0
  {
    ContactInv(cfg, w);
    hide Inv, A.Apply, A.Gone, ApplyRoles, C.Inv, C.Apply;
    if step.ContactStep? {
      C.StepKeeps(cfg.contact, w.now, w.Users(), w.contact, step.contactStep);
    }
  }

  // Whole runs.

  lemma NothingBefore(cfg: Config, ws: seq<World>, steps: seq<Step>, v: VerificationId, i: nat)
    requires cfg.Valid() && Run(cfg, ws, steps) && i < |ws| && v !in ws[i].contact.log.usedVerifications
    ensures Counted(ws, steps, v, i) == {}
  {
    hide Inv, Init, Apply;
    forall k: nat | k < i && CountedAt(ws, steps, v, k)
      ensures false
    {
      RunInv(cfg, ws, steps, k);
      UsedWhenStored(cfg, ws[k], v);
      RunFollows(cfg, ws, steps, k, i);
    }
    hide Run, CountedAt;
  }

  /** The failure count of a stored verification is the number of refusals that came
      while it was pending. */
  lemma {:induction false} AttemptsAreRefusals(
    cfg: Config, ws: seq<World>, steps: seq<Step>, v: VerificationId, i: nat)
    requires cfg.Valid() && Run(cfg, ws, steps) && i < |ws| && v in Verifications(ws[i])
    ensures Verifications(ws[i])[v].attempts == |Counted(ws, steps, v, i)|
  {
    assert i > 0 by {
      hide Inv, Apply;
    }
    hide Init, Inv, Apply, Counted;
    RunInv(cfg, ws, steps, i - 1);
    CountedGrows(ws, steps, v, i - 1);
    assert ws[i] == Apply(cfg, ws[i - 1], steps[i - 1]);
    if v in Verifications(ws[i - 1]) {
      AttemptsAreRefusals(cfg, ws, steps, v, i - 1);
      StepCounts(cfg, ws[i - 1], steps[i - 1], v);
    } else {
      NewRowIsUnused(cfg, ws[i - 1], steps[i - 1], v);
      NothingBefore(cfg, ws, steps, v, i - 1);
    }
  }

  /** In a whole run at most `maxAttempts` refusals are counted for a verification,
      whether or not it is still stored. */
  lemma {:induction false} RefusalsAreBounded(
    cfg: Config, ws: seq<World>, steps: seq<Step>, v: VerificationId, i: nat)
    requires cfg.Valid() && Run(cfg, ws, steps) && i < |ws|
    ensures |Counted(ws, steps, v, i)| <= cfg.contact.maxAttempts
  {
    hide Run;
    if i > 0 {
      hide Counted;
      RefusalsAreBounded(cfg, ws, steps, v, i - 1);
      CountedGrows(ws, steps, v, i - 1);
      if CountedAt(ws, steps, v, i - 1) {
        CountsOnPending(cfg, ws, steps, v, i - 1);
      }
    }
  }

  lemma CountsOnPending(cfg: Config, ws: seq<World>, steps: seq<Step>, v: VerificationId, i: nat)
    requires cfg.Valid() && Run(cfg, ws, steps) && i < |ws| && Pends(ws[i], v)
    ensures |Counted(ws, steps, v, i)| < cfg.contact.maxAttempts
  {
    hide Run, Counted;
    AttemptsAreRefusals(cfg, ws, steps, v, i);
    RunInv(cfg, ws, steps, i);
    Rows(cfg, ws[i], v);
    hide Inv;
  }

  /** While a verification is pending, every refusal it had so far was counted. */
  lemma PendingCountsAll(cfg: Config, ws: seq<World>, steps: seq<Step>, v: VerificationId, i: nat)
    requires cfg.Valid() && Run(cfg, ws, steps) && i < |ws| && Pends(ws[i], v)
    ensures Refusals(ws, steps, v, i) == Counted(ws, steps, v, i)
  {
    hide Inv, Init, Apply;
    forall k: nat | k < i && RefusedAt(ws, steps, v, k)
      ensures Pends(ws[k], v)
    {
      RunInv(cfg, ws, steps, k);
      RunFollows(cfg, ws, steps, k, i);
      InFlightIsUsed(cfg, ws[k], steps[k].contactStep.request);
    }
    hide Run, RefusedAt, Pends;
  }

  lemma InFlightIsUsed(cfg: Config, w: World, request: C.RequestId)
    requires Inv(cfg, w) && request in w.contact.confirms
    ensures w.contact.confirms[request].id in w.contact.log.usedVerifications
  {
    assert C.FlightOk(w.contact.log, Verifications(w), w.contact.confirms[request]);
  }

  /** A verification binds a contact only if fewer than `maxAttempts` codes for it were
      refused before, however many were tried at once. */
  lemma BindsBeforeTheLastRefusal(cfg: Config, ws: seq<World>, steps: seq<Step>, v: VerificationId, i: nat)
    requires cfg.Valid() && Run(cfg, ws, steps) && BindsAt(cfg, ws, steps, v, i)
    ensures |Refusals(ws, steps, v, i)| < cfg.contact.maxAttempts
  {
    hide Run, BindsAt, Refusals, Counted;
    BindingMoves(cfg, ws, steps, v, i);
    MovesOnce(cfg, ws, steps, v, i, i);
    PendingCountsAll(cfg, ws, steps, v, i);
    CountsOnPending(cfg, ws, steps, v, i);
  }

  // What the failure count does not bound.

  /** A Confirm of `v` at this moment reaches the provider. */
  ghost predicate Answerable(cfg: Config, w: World, v: VerificationId) {
    && Pends(w, v) && w.now < Verifications(w)[v].expiresAt
    && exists p :: && ContactOutcomes.Configured(cfg.contact, Verifications(w)[v].kind, p)
                   && Strings.TrimSpace(p) == Verifications(w)[v].provider
  }

  ghost predicate InFlightFor(w: World, v: VerificationId, n: nat) {
    forall request: C.RequestId | request < n ::
      && request in w.contact.confirms && w.contact.confirms[request].id == v
      && v in Verifications(w) && w.contact.confirms[request].kind == Verifications(w)[v].kind
  }

  /** Any number of codes for one verification can be at its provider at once: no
      attempt is reserved when a code is sent, so every run that reaches an answerable
      verification goes on with as many Confirm requests in flight for it as one likes,
      and the store as it was. */
  lemma {:induction false} AnyNumberOfGuesses(
    cfg: Config, ws: seq<World>, steps: seq<Step>, v: VerificationId, code: string, n: nat)
    returns (ws': seq<World>, steps': seq<Step>)
    requires Run(cfg, ws, steps) && Answerable(cfg, ws[|steps|], v) && Strings.TrimSpace(code) != ""
    ensures Run(cfg, ws', steps') && |steps'| == |steps| + n
    ensures ws'[..|ws|] == ws && steps'[..|steps|] == steps
    ensures InFlightFor(ws'[|steps'|], v, n)
    ensures var w, w' := ws[|steps|], ws'[|steps'|];
            w'.now == w.now && w'.contact.db == w.contact.db && w'.account == w.account && w'.rbac == w.rbac
  {
    ws', steps' := ws, steps;
    hide Init, Apply;
    if n > 0 {
      ws', steps' := AnyNumberOfGuesses(cfg, ws, steps, v, code, n - 1);
      var w := ws'[|steps'|];
      var row := Verifications(w)[v];
      var step := ContactStep(C.BeginConfirm(n - 1, row.user, row.kind, v, code));
      GuessIsSent(cfg, w, v, n - 1, code);
      hide InFlightFor, Answerable;
      ws', steps' := ws' + [Apply(cfg, w, step)], steps' + [step];
    }
  }

  lemma GuessIsSent(cfg: Config, w: World, v: VerificationId, n: nat, code: string)
    requires Answerable(cfg, w, v) && Strings.TrimSpace(code) != "" && InFlightFor(w, v, n)
    ensures var row := Verifications(w)[v];
            var w' := Apply(cfg, w, ContactStep(C.BeginConfirm(n, row.user, row.kind, v, code)));
            && w' == w.(contact := w.contact.(confirms := w'.contact.confirms))
            && InFlightFor(w', v, n + 1)
  {
    hide Strings.TrimSpace;
  }

  /** Any one of them, answered first with yes, binds the contact, unless someone else
      has the value. */
  lemma AnyGuessMayBind(
    cfg: Config, ws: seq<World>, steps: seq<Step>, v: VerificationId, n: nat, request: C.RequestId, id: ContactId)
    requires cfg.Valid() && Run(cfg, ws, steps) && Answerable(cfg, ws[|steps|], v)
    requires InFlightFor(ws[|steps|], v, n) && request < n
    requires var w := ws[|steps|];
             forall c | c in w.contact.db.contacts && w.contact.db.contacts[c].kind == Verifications(w)[v].kind
                        && w.contact.db.contacts[c].value == Verifications(w)[v].value ::
               w.contact.db.contacts[c].user == Verifications(w)[v].user
    ensures var w := ws[|steps|];
            var (after, outcome) := Contacts.ConfirmFinish(cfg.contact, w.now, w.Users().Keys, w.contact.db,
                                                           w.contact.confirms[request], Contacts.Accepted, id);
            outcome.Bound? && ContactOutcomes.Binds(w.contact.db, after, w.now, v, id)
  {
    RunInv(cfg, ws, steps, |steps|);
    FlightFacts(cfg, ws[|steps|], request);
    ConfirmBindsIff(cfg, ws, steps, |steps|, request, id);
    hide Run, Inv, Contacts.ConfirmFinish, ContactOutcomes.Binds;
  }
}
