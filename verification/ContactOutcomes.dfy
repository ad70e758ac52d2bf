/** What every operation on contacts answers and leaves in the tables, row by row and
    without the functions that compute it. */
module ContactOutcomes {
  import opened Types
  import opened Strings
  import opened Contacts
  import Identifiers
  import C = ContactProtocol

  // Rows.

  /** Only the row `v` differs. */
  ghost predicate OnlyRow(
    vs: map<VerificationId, Verification>, vs': map<VerificationId, Verification>, v: VerificationId)
  {
    vs'.Keys == vs.Keys && forall w | w in vs && w != v :: vs'[w] == vs[w]
  }

  /** Of the rows in `vs`, those pending for the user and kind are cancelled, save the
      row `v`, and no other changes. */
  ghost predicate OthersCancelled(
    vs: map<VerificationId, Verification>, vs': map<VerificationId, Verification>, user: UserId, kind: Kind,
    v: VerificationId)
  {
    forall w | w in vs && w != v ::
      && w in vs'
      && if vs[w].user == user && vs[w].kind == kind && vs[w].status == Pending
         then vs'[w].status == Cancelled && vs'[w].(status := Pending) == vs[w]
         else vs'[w] == vs[w]
  }

  /** Of the other contacts, those of the user and kind are gone and the rest is as it
      was. */
  ghost predicate OthersKept(
    cs: map<ContactId, Contact>, cs': map<ContactId, Contact>, user: UserId, kind: Kind, id: Option<ContactId>)
  {
    forall c | Some(c) != id ::
      && (c in cs' <==> c in cs && !(cs[c].user == user && cs[c].kind == kind))
      && (c in cs' ==> cs'[c] == cs[c])
  }

  predicate IsActive(user: User) {
    user.state == Active && user.disabledAt == None
  }

  // Start.

  ghost predicate Configured(cfg: Config, kind: Kind, provider: string) {
    if kind == Phone then cfg.phone == Some(provider) else cfg.email == Some(provider)
  }

  ghost predicate IsBound(db: Db, kind: Kind, value: string) {
    exists c :: c in db.contacts && db.contacts[c].kind == kind && db.contacts[c].value == value
  }

  /** A verification of the user and kind is pending, has time left and is younger than
      the resend interval. */
  ghost predicate IsHeld(cfg: Config, now: int, db: Db, user: UserId, kind: Kind) {
    exists v :: v in db.verifications
      && db.verifications[v].user == user && db.verifications[v].kind == kind && db.verifications[v].status == Pending
      && now < db.verifications[v].expiresAt && now < db.verifications[v].createdAt + cfg.resend
  }

  ghost predicate MayStart(
    cfg: Config, now: int, users: map<UserId, User>, db: Db, user: UserId, kind: Kind, raw: string)
  {
    && user in users && IsActive(users[user])
    && Identifiers.ContactValue(kind, raw).Ok? && !IsBound(db, kind, Identifiers.ContactValue(kind, raw).value)
    && (exists provider :: Configured(cfg, kind, provider))
    && !IsHeld(cfg, now, db, user, kind)
  }

  /** A Start goes on to the provider configured for its kind, with the normalized
      value, exactly if the user is active, the value is well formed and bound by
      nobody, and nothing holds it back. */
  lemma StartAnswers(cfg: Config, now: int, users: map<UserId, User>, db: Db, user: UserId, kind: Kind, raw: string)
    requires C.PendingUnique(db.verifications)
    ensures var r, value := StartBegin(cfg, now, users, db, user, kind, raw).1, Identifiers.ContactValue(kind, raw);
            && (r.Ok? <==> MayStart(cfg, now, users, db, user, kind, raw))
            && (r.Ok? ==> forall provider | Configured(cfg, kind, provider) ::
                  r.value == StartFlight(user, kind, value.value, TrimSpace(provider), now))
  {
    hide Identifiers.ContactValue, TrimSpace;
    ConfiguredIsProvider(cfg, kind);
    hide Configured, Config.Provider;
    var latest := LatestPending(db.verifications, user, kind);
    if latest.Some? {
      var row := db.verifications[latest.value];
      assert row.expiresAt > now && row.createdAt + cfg.resend > now ==> IsHeld(cfg, now, db, user, kind);
    }
  }

  lemma ConfiguredIsProvider(cfg: Config, kind: Kind)
    ensures forall provider :: Configured(cfg, kind, provider) <==> cfg.Provider(kind) == Some(provider)
    ensures cfg.Provider(kind).Some? <==> exists provider :: Configured(cfg, kind, provider)
  {
    assert cfg.phone.Some? ==> Configured(cfg, Phone, cfg.phone.value);
    assert cfg.email.Some? ==> Configured(cfg, Email, cfg.email.value);
  }

  /** Every refusal of a Start has its reason, looked for in this order. */
  lemma StartRefusals(cfg: Config, now: int, users: map<UserId, User>, db: Db, user: UserId, kind: Kind, raw: string)
    ensures var r, value := StartBegin(cfg, now, users, db, user, kind, raw).1, Identifiers.ContactValue(kind, raw);
            r.Err? ==>
              if user !in users then r.error == ErrNotFound
              else if !IsActive(users[user]) then r.error == ErrDisabled
              else if value.Err? then r.error == value.error
              else if IsBound(db, kind, value.value) then r.error == ErrContactTaken
              else if forall provider :: !Configured(cfg, kind, provider)
              then r.error == ErrVerificationUnsupported
              else r.error == ErrRateLimited
  {
    hide Identifiers.ContactValue, TrimSpace, LatestPending;
    ConfiguredIsProvider(cfg, kind);
    hide Configured, Config.Provider;
  }

  /** It marks as expired a verification it supersedes that is past its time, and
      changes nothing when it is refused. */
  lemma StartMarksExpired(
    cfg: Config, now: int, users: map<UserId, User>, db: Db, user: UserId, kind: Kind, raw: string, v: VerificationId)
    requires C.PendingUnique(db.verifications) && v in db.verifications
    ensures var (after, r) := StartBegin(cfg, now, users, db, user, kind, raw);
            var row := db.verifications[v];
            && after.contacts == db.contacts && after.verifications.Keys == db.verifications.Keys
            && after.verifications[v] ==
                 if r.Ok? && row.user == user && row.kind == kind && row.status == Pending && row.expiresAt < now
                 then row.(status := Expired) else row
  {
    hide Identifiers.ContactValue, TrimSpace;
  }

  predicate IsReported(error: Error) {
    error in {ErrVerificationInvalid, ErrVerificationExpired, ErrRateLimited, ErrVerificationUnsupported}
  }

  ghost predicate IsUsable(flight: StartFlight, reply: StartReply) {
    && reply.Challenge? && flight.provider != "" && TrimSpace(reply.provider) == flight.provider
    && TrimSpace(reply.id) != ""
  }

  ghost predicate IsFresh(db: Db, provider: string, challenge: string) {
    forall v | v in db.verifications ::
      !(db.verifications[v].provider == provider && db.verifications[v].challenge == challenge)
  }

  ghost predicate MayStore(users: set<UserId>, db: Db, flight: StartFlight, reply: StartReply) {
    && IsUsable(flight, reply) && (reply.expiresAt.Some? ==> flight.startedAt < reply.expiresAt.value)
    && flight.user in users && IsFresh(db, flight.provider, TrimSpace(reply.id))
  }

  /** The provider's reply is stored exactly if it names the provider asked and a
      challenge not seen before, with time left, and the user still exists. */
  lemma StartStoresIff(
    cfg: Config, users: set<UserId>, db: Db, flight: StartFlight, reply: StartReply, id: VerificationId)
    requires cfg.Valid()
    ensures var (after, r) := StartFinish(cfg, users, db, flight, reply, id);
            && (r.Ok? <==> MayStore(users, db, flight, reply))
            && (r.Err? ==> after == db)
            && (r.Err? ==>
                  if reply.StartFailed?
                  then r.error == if IsReported(reply.error) then reply.error else ErrVerificationUnavailable
                  else if !IsUsable(flight, reply) then r.error == ErrVerificationUnavailable
                  else if reply.expiresAt.Some? && reply.expiresAt.value <= flight.startedAt
                  then r.error == ErrVerificationExpired
                  else r.error == ErrConflict)
  {
    hide TrimSpace;
    var cancelled := CancelPending(db.verifications, flight.user, flight.kind, Some(id));
    assert forall v | v in db.verifications ::
        && cancelled[v].provider == db.verifications[v].provider
        && cancelled[v].challenge == db.verifications[v].challenge;
  }

  /** What is stored: a pending row of the request, with the earlier of the two
      expiries, in place of what was pending. */
  lemma StartStores(
    cfg: Config, users: set<UserId>, db: Db, flight: StartFlight, reply: StartReply, id: VerificationId)
    requires id !in db.verifications && StartFinish(cfg, users, db, flight, reply, id).1.Ok?
    ensures var (after, r) := StartFinish(cfg, users, db, flight, reply, id);
            && after.contacts == db.contacts && after.verifications.Keys == db.verifications.Keys + {id}
            && OthersCancelled(db.verifications, after.verifications, flight.user, flight.kind, id)
            && var row := after.verifications[id];
               && r.value == row
               && row.user == flight.user && row.kind == flight.kind && row.value == flight.value
               && row.provider == flight.provider && reply.Challenge? && row.challenge == TrimSpace(reply.id)
               && row.status == Pending && row.attempts == 0 && row.consumedAt == None
               && row.createdAt == flight.startedAt && row.expiresAt <= row.createdAt + cfg.ttl
               && (reply.expiresAt.Some? ==> row.expiresAt <= reply.expiresAt.value)
               && (row.expiresAt == row.createdAt + cfg.ttl || reply.expiresAt == Some(row.expiresAt))
  {
    hide TrimSpace, ChallengeTaken;
  }

  // Confirm.

  ghost predicate IsOwn(db: Db, user: UserId, kind: Kind, id: VerificationId) {
    id in db.verifications && db.verifications[id].user == user && db.verifications[id].kind == kind
  }

  ghost predicate MayAsk(
    cfg: Config, now: int, db: Db, user: UserId, kind: Kind, id: VerificationId, code: string)
  {
    && TrimSpace(code) != "" && IsOwn(db, user, kind, id) && db.verifications[id].status == Pending
    && now < db.verifications[id].expiresAt
    && exists p :: Configured(cfg, kind, p) && TrimSpace(p) == db.verifications[id].provider
  }

  /** A Confirm goes on to the provider exactly if the code is not blank and the
      verification is the user's, pending, in time and of the provider configured;
      every refusal has its reason. */
  lemma ConfirmAnswers(cfg: Config, now: int, db: Db, user: UserId, kind: Kind, id: VerificationId, code: string)
    ensures var r := ConfirmBegin(cfg, now, db, user, kind, id, code).1;
            && (r.Ok? <==> MayAsk(cfg, now, db, user, kind, id, code))
            && (r.Ok? ==> r.value == ConfirmFlight(user, kind, id, db.verifications[id].provider,
                                                   db.verifications[id].challenge, now))
            && (r.Err? ==>
                  if TrimSpace(code) == "" then r.error == ErrVerificationInvalid
                  else if !IsOwn(db, user, kind, id) then r.error == ErrVerificationNotFound
                  else if db.verifications[id].status == Pending && now < db.verifications[id].expiresAt
                  then r.error == if forall p :: !Configured(cfg, kind, p) then ErrVerificationUnsupported
                                  else ErrVerificationUnavailable
                  else if db.verifications[id].status in {Pending, Expired} then r.error == ErrVerificationExpired
                  else r.error == ErrVerificationInvalid)
  {
    hide TrimSpace;
    assert cfg.phone.Some? ==> Configured(cfg, Phone, cfg.phone.value);
    assert cfg.email.Some? ==> Configured(cfg, Email, cfg.email.value);
  }

  /** It marks its verification as expired if it finds it past its time. */
  lemma ConfirmMarksExpired(
    cfg: Config, now: int, db: Db, user: UserId, kind: Kind, id: VerificationId, code: string)
    ensures var after := ConfirmBegin(cfg, now, db, user, kind, id, code).0;
            && after.contacts == db.contacts && OnlyRow(db.verifications, after.verifications, id)
            && (id in db.verifications ==>
                  var row := db.verifications[id];
                  after.verifications[id] ==
                    if TrimSpace(code) != "" && row.user == user && row.kind == kind && row.status == Pending
                       && row.expiresAt <= now
                    then row.(status := Expired) else row)
  {
    hide TrimSpace;
  }

  /** A refused code is counted exactly if the provider called it wrong and the row is
      pending and was in time when it was read; nothing else changes. */
  lemma RefusalAnswers(
    cfg: Config, now: int, users: set<UserId>, db: Db, flight: ConfirmFlight, error: Error, contact: ContactId)
    ensures var (after, outcome) := ConfirmFinish(cfg, now, users, db, flight, Rejected(error), contact);
            && after.contacts == db.contacts && OnlyRow(db.verifications, after.verifications, flight.id)
            && (flight.id in db.verifications ==>
                  var row, row' := db.verifications[flight.id], after.verifications[flight.id];
                  if error == ErrVerificationInvalid && row.status == Pending && flight.readAt < row.expiresAt
                  then row'.attempts == row.attempts + 1
                       && row'.status == (if row'.attempts < cfg.maxAttempts then Pending else Failed)
                       && row'.(attempts := row.attempts, status := Pending) == row
                  else row' == row)
            && outcome == Refused(
                 if error == ErrVerificationInvalid then
                   if flight.id !in db.verifications then ErrVerificationNotFound
                   else if db.verifications[flight.id].status == Expired then ErrVerificationExpired
                   else ErrVerificationInvalid
                 else if IsReported(error) then error else ErrVerificationUnavailable)
  {}

  ghost predicate MayBind(now: int, users: set<UserId>, db: Db, flight: ConfirmFlight) {
    && IsOwn(db, flight.user, flight.kind, flight.id) && db.verifications[flight.id].status == Pending
    && now < db.verifications[flight.id].expiresAt
    && TrimSpace(db.verifications[flight.id].value) != "" && flight.user in users
    && !BoundByOther(db, flight.user, flight.kind, db.verifications[flight.id].value)
  }

  /** An accepted code binds exactly if the verification is still the user's, pending
      and in time, and the user exists and nobody else has the value; otherwise
      nothing changes and the refusal has its reason. */
  lemma AcceptanceAnswers(
    cfg: Config, now: int, users: set<UserId>, db: Db, flight: ConfirmFlight, id: ContactId)
    ensures var (after, outcome) := ConfirmFinish(cfg, now, users, db, flight, Accepted, id);
            var v := flight.id;
            && (outcome.Bound? <==> MayBind(now, users, db, flight))
            && (!outcome.Bound? ==> after == db)
            && (outcome.Refused? && IsOwn(db, flight.user, flight.kind, v) ==>
                  var row := db.verifications[v];
                  outcome.error ==
                    if row.status == Expired || (row.status == Pending && row.expiresAt <= now)
                    then ErrVerificationExpired
                    else if row.status != Pending then ErrVerificationInvalid
                    else if TrimSpace(row.value) == "" then ErrInvalid
                    else if flight.user !in users then ErrConflict
                    else ErrContactTaken)
            && (v !in db.verifications ==> outcome == Refused(ErrVerificationNotFound))
  {
    hide TrimSpace;
    if flight.id in db.verifications {
      TakenByOther(db, flight.user, flight.kind, db.verifications[flight.id].value);
    }
    hide ValueTaken, WithoutContact;
  }

  ghost predicate BoundByOther(db: Db, user: UserId, kind: Kind, value: string) {
    exists c :: c in db.contacts && db.contacts[c].kind == kind && db.contacts[c].value == value
                && db.contacts[c].user != user
  }

  lemma TakenByOther(db: Db, user: UserId, kind: Kind, value: string)
    ensures ValueTaken(WithoutContact(db.contacts, user, kind), kind, value) <==> BoundByOther(db, user, kind, value)
  {
    if c :| c in db.contacts && db.contacts[c].kind == kind && db.contacts[c].value == value
            && db.contacts[c].user != user
    {
      assert c in WithoutContact(db.contacts, user, kind);
    }
  }

  /** What binding does: the contact answered with is stored in place of the user's
      former one of the kind, and the verification is consumed with it. */
  ghost predicate Binds(db: Db, after: Db, now: int, v: VerificationId, id: ContactId) {
    && v in db.verifications && after.verifications.Keys == db.verifications.Keys
    && var row := db.verifications[v];
       && id in after.contacts && after.contacts[id] == Contact(row.user, row.kind, row.value, now)
       && OthersKept(db.contacts, after.contacts, row.user, row.kind, Some(id))
       && after.verifications[v] == row.(status := Consumed, consumedAt := Some(now))
       && OthersCancelled(db.verifications, after.verifications, row.user, row.kind, v)
  }

  lemma BindingStores(
    cfg: Config, now: int, users: set<UserId>, db: Db, flight: ConfirmFlight, reply: VerifyReply, id: ContactId)
    requires ConfirmFinish(cfg, now, users, db, flight, reply, id).1.Bound?
    ensures var (after, outcome) := ConfirmFinish(cfg, now, users, db, flight, reply, id);
            && reply == Accepted && IsOwn(db, flight.user, flight.kind, flight.id)
            && Binds(db, after, now, flight.id, id)
            && outcome == Bound(id, after.contacts[id])
  {
    hide TrimSpace, ValueTaken;
  }

  lemma AcceptanceStores(
    cfg: Config, now: int, users: set<UserId>, db: Db, flight: ConfirmFlight, id: ContactId)
    ensures var (after, outcome) := ConfirmAccepted(now, users, db, flight, id);
            outcome.Bound? ==>
              Binds(db, after, now, flight.id, id) && id in after.contacts && outcome == Bound(id, after.contacts[id])
  {
    if ConfirmAccepted(now, users, db, flight, id).1.Bound? {
      BindingStores(cfg, now, users, db, flight, Accepted, id);
    }
    hide ConfirmAccepted;
  }

  // Unbind.

  ghost predicate HasBound(db: Db, user: UserId, kind: Kind) {
    exists c :: c in db.contacts && db.contacts[c].user == user && db.contacts[c].kind == kind
  }

  ghost predicate Unbinds(db: Db, after: Db, user: UserId, kind: Kind) {
    && OthersKept(db.contacts, after.contacts, user, kind, None)
    && after.verifications.Keys == db.verifications.Keys
    && forall v | v in db.verifications ::
         var row := db.verifications[v];
         after.verifications[v] ==
           if row.user == user && row.kind == kind && row.status == Pending
           then row.(status := Cancelled) else row
  }

  /** Unbind removes the contact of the user and kind and cancels what is pending for
      it, exactly if there is a contact. */
  lemma UnbindAnswers(db: Db, user: UserId, kind: Kind)
    ensures var r := Unbind(db, user, kind);
            && (r.Ok? <==> HasBound(db, user, kind))
            && (r.Err? ==> r.error == ErrContactNotFound)
            && (r.Ok? ==> Unbinds(db, r.value, user, kind))
  {}
}
