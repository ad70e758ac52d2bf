/** Contact verification as a protocol: any number of Start, Confirm and Unbind
    requests interleave at the provider call.  `Log` records what happened, for the
    properties to speak about; no step reads it except for the freshness of ids. */
module ContactProtocol {
  import opened Types
  import opened Strings
  import opened Contacts
  import Identifiers

  type RequestId = nat

  datatype Log = Log(
    accepted: set<(string, string)>,                // challenges a provider accepted
    origin: map<ContactId, VerificationId>,         // the verification behind a contact
    usedVerifications: set<VerificationId>)         // every id ever inserted

  datatype State = State(
    db: Db,
    starts: map<RequestId, StartFlight>,
    confirms: map<RequestId, ConfirmFlight>,
    log: Log)

  datatype Step =
    | BeginStart(request: RequestId, user: UserId, kind: Kind, raw: string)
    | FinishStart(request: RequestId, startReply: StartReply, verification: VerificationId)
    | BeginConfirm(request: RequestId, user: UserId, kind: Kind, verification: VerificationId, code: string)
    | FinishConfirm(request: RequestId, verifyReply: VerifyReply, contact: ContactId)
    | RemoveContact(user: UserId, kind: Kind)

  /** Finishing needs the request to be in flight; fresh ids are never reused. */
  predicate Enabled(s: State, step: Step) {
    match step
    case FinishStart(request, _, verification) => request in s.starts && verification !in s.log.usedVerifications
    case FinishConfirm(request, _, contact) => request in s.confirms && contact !in s.log.origin
    case _ => true
  }

  ghost function Apply(cfg: Config, now: int, users: map<UserId, User>, s: State, step: Step): State
    requires Enabled(s, step)
  {
    match step
    case BeginStart(request, user, kind, raw) =>
      var (db, r) := StartBegin(cfg, now, users, s.db, user, kind, raw);
      s.(db := db, starts := if r.Ok? then s.starts[request := r.value] else s.starts - {request})
    case FinishStart(request, reply, verification) =>
      var (db, r) := StartFinish(cfg, users.Keys, s.db, s.starts[request], reply, verification);
      s.(db := db, starts := s.starts - {request},
         log := if r.Ok? then s.log.(usedVerifications := s.log.usedVerifications + {verification}) else s.log)
    case BeginConfirm(request, user, kind, verification, code) =>
      var (db, r) := ConfirmBegin(cfg, now, s.db, user, kind, verification, code);
      s.(db := db, confirms := if r.Ok? then s.confirms[request := r.value] else s.confirms - {request})
    case FinishConfirm(request, reply, contact) =>
      var flight := s.confirms[request];
      var (db, r) := ConfirmFinish(cfg, now, users.Keys, s.db, flight, reply, contact);
      s.(db := db, confirms := s.confirms - {request}, log := ConfirmLog(s.log, flight, reply, r))
    case RemoveContact(user, kind) =>
      match Unbind(s.db, user, kind)
      case Ok(db) => s.(db := db)
      case Err(_) => s
  }

  function ConfirmLog(log: Log, flight: ConfirmFlight, reply: VerifyReply, outcome: ConfirmOutcome): Log {
    var challenge := (flight.provider, flight.challenge);
    var log1 := if reply == Accepted then log.(accepted := log.accepted + {challenge}) else log;
    if outcome.Bound?
    then log1.(origin := log1.origin[outcome.id := flight.id])
    else log1
  }

  // What one step may do to a verification row.

  /** A row changes only while it is pending, and then only in its status, its
      failure count and its consumption time. */
  predicate RowEvolves(r: Verification, r': Verification) {
    || r' == r
    || (&& r.status == Pending
        && r' == r.(status := r'.status, attempts := r'.attempts, consumedAt := r'.consumedAt)
        && (r'.status == Pending ==> r'.attempts == r.attempts + 1))
  }

  /** Rows of `vs'` are rows of `vs` or new pending rows under unused ids. */
  ghost predicate TableEvolves(
    used: set<VerificationId>, vs: map<VerificationId, Verification>, vs': map<VerificationId, Verification>)
  {
    && (forall v | v in vs && v in vs' :: RowEvolves(vs[v], vs'[v]))
    && forall v | v in vs' && v !in vs :: v !in used && vs'[v].status == Pending && vs'[v].attempts == 0
  }

  // The invariant.

  predicate RowOk(maxAttempts: int, users: set<UserId>, log: Log, v: VerificationId, r: Verification) {
    && r.user in users
    && v in log.usedVerifications
    && r.attempts <= maxAttempts
    && (r.attempts == maxAttempts <==> r.status == Failed)
    && (r.status == Consumed <==> r.consumedAt.Some?)
    && (r.status == Consumed ==> r.consumedAt.value < r.expiresAt && (r.provider, r.challenge) in log.accepted)
  }

  ghost predicate RowsOk(maxAttempts: int, users: set<UserId>, log: Log, vs: map<VerificationId, Verification>) {
    forall v | v in vs :: RowOk(maxAttempts, users, log, v, vs[v])
  }

  ghost predicate PendingUnique(vs: map<VerificationId, Verification>) {
    forall v, w | v in vs && w in vs && IsPendingFor(vs[v], vs[w].user, vs[w].kind) && vs[w].status == Pending
      :: v == w
  }

  ghost predicate ChallengesUnique(vs: map<VerificationId, Verification>) {
    forall v, w | v in vs && w in vs && vs[v].provider == vs[w].provider && vs[v].challenge == vs[w].challenge
      :: v == w
  }

  /** The verification `v` is the proof behind the contact `c`. */
  predicate Proves(v: Verification, c: Contact) {
    && v.status == Consumed && v.consumedAt == Some(c.verifiedAt)
    && v.user == c.user && v.kind == c.kind && v.value == c.value
  }

  ghost predicate ContactsProved(log: Log, db: Db) {
    forall c | c in db.contacts ::
      && c in log.origin
      && log.origin[c] in db.verifications && Proves(db.verifications[log.origin[c]], db.contacts[c])
  }

  predicate FlightOk(log: Log, vs: map<VerificationId, Verification>, f: ConfirmFlight) {
    && f.id in log.usedVerifications
    && (f.id in vs ==>
          && vs[f.id].user == f.user && vs[f.id].kind == f.kind
          && vs[f.id].provider == f.provider && vs[f.id].challenge == f.challenge
          && f.readAt < vs[f.id].expiresAt)
  }

  ghost predicate FlightsOk(s: State) {
    forall request | request in s.confirms :: FlightOk(s.log, s.db.verifications, s.confirms[request])
  }

  ghost predicate Inv(maxAttempts: int, users: set<UserId>, s: State) {
    && RowsOk(maxAttempts, users, s.log, s.db.verifications)
    && PendingUnique(s.db.verifications)
    && ChallengesUnique(s.db.verifications)
    && ContactsProved(s.log, s.db)
    && ContactsUnique(s.db.contacts)
    && FlightsOk(s)
  }

  // Preservation.  Most writes update rows in place.

  ghost predicate InPlace(vs: map<VerificationId, Verification>, vs': map<VerificationId, Verification>) {
    vs'.Keys == vs.Keys && forall v | v in vs :: RowEvolves(vs[v], vs'[v])
  }

  lemma InPlaceUnique(vs: map<VerificationId, Verification>, vs': map<VerificationId, Verification>)
    requires InPlace(vs, vs')
    requires PendingUnique(vs) && ChallengesUnique(vs)
    ensures PendingUnique(vs') && ChallengesUnique(vs')
  {
    forall v, w | v in vs' && w in vs' && vs'[v].provider == vs'[w].provider && vs'[v].challenge == vs'[w].challenge
      ensures v == w
    {
      assert RowEvolves(vs[v], vs'[v]) && RowEvolves(vs[w], vs'[w]);
    }
    forall v, w | v in vs' && w in vs' && IsPendingFor(vs'[v], vs'[w].user, vs'[w].kind) && vs'[w].status == Pending
      ensures v == w
    {
      assert RowEvolves(vs[v], vs'[v]) && RowEvolves(vs[w], vs'[w]);
      assert IsPendingFor(vs[v], vs[w].user, vs[w].kind);
    }
  }

  lemma InPlaceProved(log: Log, db: Db, vs': map<VerificationId, Verification>)
    requires InPlace(db.verifications, vs')
    requires ContactsProved(log, db)
    ensures ContactsProved(log, db.(verifications := vs'))
  {
    forall c | c in db.contacts
      ensures Proves(vs'[log.origin[c]], db.contacts[c])
    {
      assert RowEvolves(db.verifications[log.origin[c]], vs'[log.origin[c]]);
    }
  }

  lemma InPlaceFlights(s: State, vs': map<VerificationId, Verification>)
    requires InPlace(s.db.verifications, vs')
    requires FlightsOk(s)
    ensures FlightsOk(s.(db := s.db.(verifications := vs')))
  {
    forall request | request in s.confirms
      ensures FlightOk(s.log, vs', s.confirms[request])
    {
      var id := s.confirms[request].id;
      assert id in vs' ==> RowEvolves(s.db.verifications[id], vs'[id]);
    }
  }

  lemma InPlaceKeeps(maxAttempts: int, users: set<UserId>, s: State, vs': map<VerificationId, Verification>)
    requires Inv(maxAttempts, users, s)
    requires InPlace(s.db.verifications, vs')
    requires RowsOk(maxAttempts, users, s.log, vs')
    ensures Inv(maxAttempts, users, s.(db := s.db.(verifications := vs')))
  {
    InPlaceUnique(s.db.verifications, vs');
    InPlaceProved(s.log, s.db, vs');
    InPlaceFlights(s, vs');
  }

  lemma ExpireKeeps(maxAttempts: int, users: set<UserId>, s: State, v: VerificationId)
    requires Inv(maxAttempts, users, s)
    requires v in s.db.verifications && s.db.verifications[v].status == Pending
    ensures var vs' := s.db.verifications[v := s.db.verifications[v].(status := Expired)];
            InPlace(s.db.verifications, vs') && Inv(maxAttempts, users, s.(db := s.db.(verifications := vs')))
  {
    var vs := s.db.verifications;
    var vs' := vs[v := vs[v].(status := Expired)];
    assert RowOk(maxAttempts, users, s.log, v, vs[v]);
    assert RowOk(maxAttempts, users, s.log, v, vs'[v]);
    assert forall w | w in vs && w != v :: RowOk(maxAttempts, users, s.log, w, vs'[w]);
    InPlaceKeeps(maxAttempts, users, s, vs');
  }

  lemma CancelKeeps(
    maxAttempts: int, users: set<UserId>, s: State, user: UserId, kind: Kind, except: Option<VerificationId>)
    requires Inv(maxAttempts, users, s)
    ensures var vs' := CancelPending(s.db.verifications, user, kind, except);
            InPlace(s.db.verifications, vs') && Inv(maxAttempts, users, s.(db := s.db.(verifications := vs')))
  {
    var vs := s.db.verifications;
    var vs' := CancelPending(vs, user, kind, except);
    forall v | v in vs
      ensures RowEvolves(vs[v], vs'[v]) && RowOk(maxAttempts, users, s.log, v, vs'[v])
    {
      assert RowOk(maxAttempts, users, s.log, v, vs[v]);
    }
    InPlaceKeeps(maxAttempts, users, s, vs');
  }

  lemma FailureKeeps(maxAttempts: int, users: set<UserId>, s: State, id: VerificationId, readAt: int)
    requires Inv(maxAttempts, users, s)
    ensures var vs' := RecordFailure(s.db.verifications, id, maxAttempts, readAt);
            InPlace(s.db.verifications, vs') && Inv(maxAttempts, users, s.(db := s.db.(verifications := vs')))
  {
    var vs := s.db.verifications;
    var vs' := RecordFailure(vs, id, maxAttempts, readAt);
    forall v | v in vs
      ensures RowEvolves(vs[v], vs'[v]) && RowOk(maxAttempts, users, s.log, v, vs'[v])
    {
      assert RowOk(maxAttempts, users, s.log, v, vs[v]);
    }
    InPlaceKeeps(maxAttempts, users, s, vs');
  }

  /** A new pending row, when no other row of its user and kind is pending. */
  lemma InsertKeeps(maxAttempts: int, users: set<UserId>, s: State, id: VerificationId, row: Verification)
    requires maxAttempts > 0
    requires Inv(maxAttempts, users, s)
    requires id !in s.log.usedVerifications
    requires row.user in users && row.status == Pending && row.attempts == 0 && row.consumedAt == None
    requires forall v | v in s.db.verifications :: !IsPendingFor(s.db.verifications[v], row.user, row.kind)
    requires !ChallengeTaken(s.db.verifications, row.provider, row.challenge)
    ensures Inv(maxAttempts, users,
                s.(db := s.db.(verifications := s.db.verifications[id := row]),
                   log := s.log.(usedVerifications := s.log.usedVerifications + {id})))
  {
    var vs := s.db.verifications;
    assert id !in vs by {
      assert forall v | v in vs :: RowOk(maxAttempts, users, s.log, v, vs[v]);
    }
    InsertRowsOk(maxAttempts, users, s.log, vs, id, row);
    InsertUnique(vs, id, row);
    var log' := s.log.(usedVerifications := s.log.usedVerifications + {id});
    forall request | request in s.confirms
      ensures FlightOk(log', vs[id := row], s.confirms[request])
    {
      assert FlightOk(s.log, vs, s.confirms[request]);
    }
  }

  lemma InsertRowsOk(
    maxAttempts: int, users: set<UserId>, log: Log, vs: map<VerificationId, Verification>, id: VerificationId,
    row: Verification)
    requires maxAttempts > 0
    requires RowsOk(maxAttempts, users, log, vs)
    requires row.user in users && row.status == Pending && row.attempts == 0 && row.consumedAt == None
    ensures RowsOk(maxAttempts, users, log.(usedVerifications := log.usedVerifications + {id}), vs[id := row])
  {
    var log' := log.(usedVerifications := log.usedVerifications + {id});
    var vs' := vs[id := row];
    forall v | v in vs'
      ensures RowOk(maxAttempts, users, log', v, vs'[v])
    {
      assert v != id ==> RowOk(maxAttempts, users, log, v, vs[v]);
    }
  }

  lemma InsertUnique(vs: map<VerificationId, Verification>, id: VerificationId, row: Verification)
    requires PendingUnique(vs) && ChallengesUnique(vs)
    requires id !in vs && row.status == Pending
    requires forall v | v in vs :: !IsPendingFor(vs[v], row.user, row.kind)
    requires !ChallengeTaken(vs, row.provider, row.challenge)
    ensures PendingUnique(vs[id := row]) && ChallengesUnique(vs[id := row])
  {}

  // Binding a contact.

  lemma ReplacedContactsUnique(users: set<UserId>, cs: map<ContactId, Contact>, id: ContactId, row: Contact)
    requires ContactsUnique(cs)
    requires ReplaceContact(users, cs, id, row).Ok?
    ensures ContactsUnique(ReplaceContact(users, cs, id, row).value)
  {}

  lemma WithoutContactUnique(cs: map<ContactId, Contact>, user: UserId, kind: Kind)
    requires ContactsUnique(cs)
    ensures ContactsUnique(WithoutContact(cs, user, kind))
  {}

  /** The consumption itself: the accepted challenge, the consumed row and the new
      contact appear together. */
  lemma BindKeeps(
    maxAttempts: int, users: set<UserId>, s: State, now: int, flight: ConfirmFlight, id: ContactId,
    cs': map<ContactId, Contact>)
    requires Inv(maxAttempts, users, s)
    requires FlightOk(s.log, s.db.verifications, flight)
    requires flight.id in s.db.verifications && id !in s.log.origin
    requires var row := s.db.verifications[flight.id]; row.status == Pending && now < row.expiresAt
    requires var row := s.db.verifications[flight.id];
             ReplaceContact(users, s.db.contacts, id, Contact(row.user, row.kind, row.value, now)) == Ok(cs')
    ensures var row := s.db.verifications[flight.id];
            var vs' := s.db.verifications[flight.id := row.(status := Consumed, consumedAt := Some(now))];
            && InPlace(s.db.verifications, vs')
            && Inv(maxAttempts, users,
                   s.(db := Db(cs', vs'),
                      log := ConfirmLog(s.log, flight, Accepted,
                                        Bound(id, Contact(row.user, row.kind, row.value, now)))))
  {
    var vs := s.db.verifications;
    var row := vs[flight.id];
    var contact := Contact(row.user, row.kind, row.value, now);
    var vs' := vs[flight.id := row.(status := Consumed, consumedAt := Some(now))];
    var log' := ConfirmLog(s.log, flight, Accepted, Bound(id, contact));
    ReplacedContactsUnique(users, s.db.contacts, id, contact);
    InPlaceUnique(vs, vs');
    BindRows(maxAttempts, users, s.log, vs, now, flight, Bound(id, contact));
    InPlaceProved(s.log, s.db, vs');
    BindProved(s.log, s.db, vs', flight, id, contact, cs');
    InPlaceFlights(s, vs');
    assert FlightsOk(s.(db := Db(cs', vs'), log := log')) by {
      assert forall request | request in s.confirms :: FlightOk(s.log, vs', s.confirms[request]);
    }
  }

  lemma BindProved(
    log: Log, db: Db, vs': map<VerificationId, Verification>, flight: ConfirmFlight, id: ContactId, contact: Contact,
    cs': map<ContactId, Contact>)
    requires ContactsProved(log, db.(verifications := vs'))
    requires id !in log.origin
    requires flight.id in vs' && Proves(vs'[flight.id], contact)
    requires cs' == WithoutContact(db.contacts, contact.user, contact.kind)[id := contact]
    ensures ContactsProved(ConfirmLog(log, flight, Accepted, Bound(id, contact)), Db(cs', vs'))
  {
    var log' := ConfirmLog(log, flight, Accepted, Bound(id, contact));
    forall c | c in cs' && c != id
      ensures c in log'.origin && log'.origin[c] in vs'
      ensures Proves(vs'[log'.origin[c]], cs'[c])
    {
      assert c in db.contacts && cs'[c] == db.contacts[c];
    }
  }

  lemma BindRows(
    maxAttempts: int, users: set<UserId>, log: Log, vs: map<VerificationId, Verification>, now: int,
    flight: ConfirmFlight, outcome: ConfirmOutcome)
    requires RowsOk(maxAttempts, users, log, vs)
    requires FlightOk(log, vs, flight) && flight.id in vs && outcome.Bound?
    requires vs[flight.id].status == Pending && now < vs[flight.id].expiresAt
    ensures var vs' := vs[flight.id := vs[flight.id].(status := Consumed, consumedAt := Some(now))];
            var log' := ConfirmLog(log, flight, Accepted, outcome);
            RowsOk(maxAttempts, users, log', vs')
  {
    var vs' := vs[flight.id := vs[flight.id].(status := Consumed, consumedAt := Some(now))];
    var log' := ConfirmLog(log, flight, Accepted, outcome);
    forall v | v in vs'
      ensures RowOk(maxAttempts, users, log', v, vs'[v])
    {
      assert RowOk(maxAttempts, users, log, v, vs[v]);
    }
  }

  /** A challenge accepted for a request that then fails only adds to the log. */
  lemma AcceptKeeps(maxAttempts: int, users: set<UserId>, s: State, challenge: (string, string))
    requires Inv(maxAttempts, users, s)
    ensures Inv(maxAttempts, users, s.(log := s.log.(accepted := s.log.accepted + {challenge})))
  {
    var log' := s.log.(accepted := s.log.accepted + {challenge});
    forall v | v in s.db.verifications
      ensures RowOk(maxAttempts, users, log', v, s.db.verifications[v])
    {
      assert RowOk(maxAttempts, users, s.log, v, s.db.verifications[v]);
    }
    forall request | request in s.confirms
      ensures FlightOk(log', s.db.verifications, s.confirms[request])
    {
      assert FlightOk(s.log, s.db.verifications, s.confirms[request]);
    }
  }

  lemma DropContactsKeeps(maxAttempts: int, users: set<UserId>, s: State, user: UserId, kind: Kind)
    requires Inv(maxAttempts, users, s)
    ensures Inv(maxAttempts, users, s.(db := s.db.(contacts := WithoutContact(s.db.contacts, user, kind))))
  {
    WithoutContactUnique(s.db.contacts, user, kind);
  }

  /** Deleting users with their rows. */
  lemma WithoutUsersKeeps(maxAttempts: int, users: set<UserId>, s: State, gone: set<UserId>)
    requires Inv(maxAttempts, users, s)
    ensures Inv(maxAttempts, users - gone, s.(db := WithoutUsers(s.db, gone)))
  {
    var db' := WithoutUsers(s.db, gone);
    forall v | v in db'.verifications
      ensures RowOk(maxAttempts, users - gone, s.log, v, db'.verifications[v])
    {
      assert RowOk(maxAttempts, users, s.log, v, s.db.verifications[v]);
    }
    forall request | request in s.confirms
      ensures FlightOk(s.log, db'.verifications, s.confirms[request])
    {
      assert FlightOk(s.log, s.db.verifications, s.confirms[request]);
    }
  }

  lemma MoreUsersKeeps(maxAttempts: int, users: set<UserId>, users': set<UserId>, s: State)
    requires Inv(maxAttempts, users, s)
    requires users <= users'
    ensures Inv(maxAttempts, users', s)
  {
    forall v | v in s.db.verifications
      ensures RowOk(maxAttempts, users', s.log, v, s.db.verifications[v])
    {
      assert RowOk(maxAttempts, users, s.log, v, s.db.verifications[v]);
    }
  }

  // What a step needs from the invariant, and the flights it adds or drops.

  lemma RowOf(maxAttempts: int, users: set<UserId>, s: State, v: VerificationId)
    requires Inv(maxAttempts, users, s)
    ensures v in s.db.verifications ==> RowOk(maxAttempts, users, s.log, v, s.db.verifications[v])
  {}

  lemma FlightOf(maxAttempts: int, users: set<UserId>, s: State, request: RequestId)
    requires Inv(maxAttempts, users, s) && request in s.confirms
    ensures FlightOk(s.log, s.db.verifications, s.confirms[request])
  {}

  lemma DropFlightKeeps(
    maxAttempts: int, users: set<UserId>, s: State, starts: map<RequestId, StartFlight>, request: RequestId)
    requires Inv(maxAttempts, users, s)
    ensures Inv(maxAttempts, users, s.(starts := starts))
    ensures Inv(maxAttempts, users, s.(confirms := s.confirms - {request}))
  {
    assert forall r | r in s.confirms :: FlightOk(s.log, s.db.verifications, s.confirms[r]);
  }

  lemma AddFlightKeeps(maxAttempts: int, users: set<UserId>, s: State, request: RequestId, flight: ConfirmFlight)
    requires Inv(maxAttempts, users, s)
    requires FlightOk(s.log, s.db.verifications, flight)
    ensures Inv(maxAttempts, users, s.(confirms := s.confirms[request := flight]))
  {
    assert forall r | r in s.confirms :: FlightOk(s.log, s.db.verifications, s.confirms[r]);
  }

  // Preservation: the steps.

  lemma BeginStartKeeps(
    cfg: Config, now: int, users: map<UserId, User>, s: State, request: RequestId, user: UserId, kind: Kind,
    raw: string)
    requires Inv(cfg.maxAttempts, users.Keys, s)
    ensures var s' := Apply(cfg, now, users, s, BeginStart(request, user, kind, raw));
            Inv(cfg.maxAttempts, users.Keys, s') && InPlace(s.db.verifications, s'.db.verifications)
  {
    hide Inv;
    hide Identifiers.ContactValue;
    var s' := Apply(cfg, now, users, s, BeginStart(request, user, kind, raw));
    var v := LatestPending(s.db.verifications, user, kind);
    if v.Some? && s'.db != s.db {
      ExpireKeeps(cfg.maxAttempts, users.Keys, s, v.value);
    }
    DropFlightKeeps(cfg.maxAttempts, users.Keys, s.(db := s'.db), s'.starts, request);
  }

  lemma FinishStartKeeps(
    cfg: Config, now: int, users: map<UserId, User>, s: State, request: RequestId, reply: StartReply,
    id: VerificationId)
    requires cfg.Valid()
    requires Inv(cfg.maxAttempts, users.Keys, s)
    requires Enabled(s, FinishStart(request, reply, id))
    ensures var s' := Apply(cfg, now, users, s, FinishStart(request, reply, id));
            && Inv(cfg.maxAttempts, users.Keys, s')
            && TableEvolves(s.log.usedVerifications, s.db.verifications, s'.db.verifications)
  {
    hide Inv;
    var flight := s.starts[request];
    var vs := s.db.verifications;
    var s' := Apply(cfg, now, users, s, FinishStart(request, reply, id));
    if StartFinish(cfg, users.Keys, s.db, flight, reply, id).1.Ok? {
      RowOf(cfg.maxAttempts, users.Keys, s, id);
      CancelKeeps(cfg.maxAttempts, users.Keys, s, flight.user, flight.kind, Some(id));
      var vs1 := CancelPending(vs, flight.user, flight.kind, Some(id));
      InsertKeeps(cfg.maxAttempts, users.Keys, s.(db := s.db.(verifications := vs1)), id,
                  StartRecord(cfg, flight, reply.id, reply.expiresAt));
    }
    DropFlightKeeps(cfg.maxAttempts, users.Keys, s.(db := s'.db, log := s'.log), s'.starts, request);
  }

  lemma BeginConfirmKeeps(
    cfg: Config, now: int, users: map<UserId, User>, s: State, request: RequestId, user: UserId, kind: Kind,
    id: VerificationId, code: string)
    requires Inv(cfg.maxAttempts, users.Keys, s)
    ensures var s' := Apply(cfg, now, users, s, BeginConfirm(request, user, kind, id, code));
            Inv(cfg.maxAttempts, users.Keys, s') && InPlace(s.db.verifications, s'.db.verifications)
  {
    hide Inv;
    var vs := s.db.verifications;
    var s' := Apply(cfg, now, users, s, BeginConfirm(request, user, kind, id, code));
    RowOf(cfg.maxAttempts, users.Keys, s, id);
    if id in vs && vs[id].status == Pending {
      ExpireKeeps(cfg.maxAttempts, users.Keys, s, id);
    }
    var r := ConfirmBegin(cfg, now, s.db, user, kind, id, code).1;
    if r.Ok? {
      AddFlightKeeps(cfg.maxAttempts, users.Keys, s, request, r.value);
    } else {
      DropFlightKeeps(cfg.maxAttempts, users.Keys, s.(db := s'.db), s.starts, request);
    }
  }

  lemma RejectedKeeps(
    cfg: Config, now: int, users: map<UserId, User>, s: State, request: RequestId, error: Error, id: ContactId)
    requires Inv(cfg.maxAttempts, users.Keys, s)
    requires Enabled(s, FinishConfirm(request, Rejected(error), id))
    ensures var s' := Apply(cfg, now, users, s, FinishConfirm(request, Rejected(error), id));
            Inv(cfg.maxAttempts, users.Keys, s') && InPlace(s.db.verifications, s'.db.verifications)
  {
    hide Inv;
    var flight := s.confirms[request];
    var s' := Apply(cfg, now, users, s, FinishConfirm(request, Rejected(error), id));
    FailureKeeps(cfg.maxAttempts, users.Keys, s, flight.id, flight.readAt);
    DropFlightKeeps(cfg.maxAttempts, users.Keys, s.(db := s'.db), s.starts, request);
  }

  lemma AcceptedKeeps(
    cfg: Config, now: int, users: map<UserId, User>, s: State, request: RequestId, id: ContactId)
    requires Inv(cfg.maxAttempts, users.Keys, s)
    requires Enabled(s, FinishConfirm(request, Accepted, id))
    ensures var s' := Apply(cfg, now, users, s, FinishConfirm(request, Accepted, id));
            Inv(cfg.maxAttempts, users.Keys, s') && InPlace(s.db.verifications, s'.db.verifications)
  {
    hide Inv;
    var flight := s.confirms[request];
    var s' := Apply(cfg, now, users, s, FinishConfirm(request, Accepted, id));
    var outcome := ConfirmAccepted(now, users.Keys, s.db, flight, id).1;
    FlightOf(cfg.maxAttempts, users.Keys, s, request);
    if outcome.Bound? {
      var row := s.db.verifications[flight.id];
      var vs1 := s.db.verifications[flight.id := row.(status := Consumed, consumedAt := Some(now))];
      BindKeeps(cfg.maxAttempts, users.Keys, s, now, flight, id, s'.db.contacts);
      var s1 := s.(db := Db(s'.db.contacts, vs1), log := s'.log);
      CancelKeeps(cfg.maxAttempts, users.Keys, s1, flight.user, flight.kind, Some(flight.id));
    } else {
      AcceptKeeps(cfg.maxAttempts, users.Keys, s, (flight.provider, flight.challenge));
    }
    DropFlightKeeps(cfg.maxAttempts, users.Keys, s.(db := s'.db, log := s'.log), s.starts, request);
  }

  lemma RemoveContactKeeps(cfg: Config, now: int, users: map<UserId, User>, s: State, user: UserId, kind: Kind)
    requires Inv(cfg.maxAttempts, users.Keys, s)
    ensures var s' := Apply(cfg, now, users, s, RemoveContact(user, kind));
            Inv(cfg.maxAttempts, users.Keys, s') && InPlace(s.db.verifications, s'.db.verifications)
  {
    hide Inv;
    DropContactsKeeps(cfg.maxAttempts, users.Keys, s, user, kind);
    var s1 := s.(db := s.db.(contacts := WithoutContact(s.db.contacts, user, kind)));
    CancelKeeps(cfg.maxAttempts, users.Keys, s1, user, kind, None);
  }

  /** Every step keeps the invariant, and changes only pending verifications. */
  lemma StepKeeps(cfg: Config, now: int, users: map<UserId, User>, s: State, step: Step)
    requires cfg.Valid()
    requires Inv(cfg.maxAttempts, users.Keys, s) && Enabled(s, step)
    ensures var s' := Apply(cfg, now, users, s, step);
            && Inv(cfg.maxAttempts, users.Keys, s')
            && TableEvolves(s.log.usedVerifications, s.db.verifications, s'.db.verifications)
            && s.log.usedVerifications <= s'.log.usedVerifications
  {
    hide Inv;
    match step
    case BeginStart(request, user, kind, raw) =>
      BeginStartKeeps(cfg, now, users, s, request, user, kind, raw);
    case FinishStart(request, reply, verification) =>
      FinishStartKeeps(cfg, now, users, s, request, reply, verification);
    case BeginConfirm(request, user, kind, verification, code) =>
      BeginConfirmKeeps(cfg, now, users, s, request, user, kind, verification, code);
    case FinishConfirm(request, reply, contact) =>
      match reply {
        case Rejected(e) => RejectedKeeps(cfg, now, users, s, request, e, contact);
        case Accepted => AcceptedKeeps(cfg, now, users, s, request, contact);
      }
    case RemoveContact(user, kind) =>
      RemoveContactKeeps(cfg, now, users, s, user, kind);
  }

  // Values are normal for their kind.

  ghost predicate ValuesNormal(s: State) {
    && (forall v | v in s.db.verifications ::
          Identifiers.IsNormal(s.db.verifications[v].kind, s.db.verifications[v].value))
    && (forall request | request in s.starts ::
          Identifiers.IsNormal(s.starts[request].kind, s.starts[request].value))
  }

  /** Flights are normal because Start normalizes what it is given. */
  predicate StartsNormal(s: State, s': State) {
    forall request | request in s'.starts ::
      || (request in s.starts && s'.starts[request] == s.starts[request])
      || Identifiers.IsNormal(s'.starts[request].kind, s'.starts[request].value)
  }

  lemma InPlaceNormal(s: State, s': State)
    requires ValuesNormal(s) && StartsNormal(s, s')
    requires InPlace(s.db.verifications, s'.db.verifications)
    ensures ValuesNormal(s')
  {
    hide Identifiers.IsNormal;
    var vs, vs' := s.db.verifications, s'.db.verifications;
    forall v | v in vs'
      ensures Identifiers.IsNormal(vs'[v].kind, vs'[v].value)
    {
      assert RowEvolves(vs[v], vs'[v]);
    }
  }

  lemma StepStartsNormal(cfg: Config, now: int, users: map<UserId, User>, s: State, step: Step)
    requires Enabled(s, step)
    ensures StartsNormal(s, Apply(cfg, now, users, s, step))
  {
    hide Identifiers.IsNormal, StartBegin, ConfirmBegin, ConfirmFinish, StartFinish, Unbind;
    if step.BeginStart? {
      FlightIsNormal(cfg, now, users, s.db, step.user, step.kind, step.raw);
    }
  }

  lemma FlightIsNormal(cfg: Config, now: int, users: map<UserId, User>, db: Db, user: UserId, kind: Kind, raw: string)
    ensures var r := StartBegin(cfg, now, users, db, user, kind, raw).1;
            r.Ok? ==> Identifiers.IsNormal(r.value.kind, r.value.value)
  {
    hide Identifiers.IsNormal, Identifiers.ContactValue, Identifiers.ValidateLoginIdentifier, LatestPending, ValueTaken;
    if Identifiers.ContactValue(kind, raw).Ok? {
      Identifiers.ContactValueNormal(kind, raw);
    }
  }

  lemma FinishStartNormal(
    cfg: Config, now: int, users: map<UserId, User>, s: State, request: RequestId, reply: StartReply,
    id: VerificationId)
    requires ValuesNormal(s) && Enabled(s, FinishStart(request, reply, id))
    ensures ValuesNormal(Apply(cfg, now, users, s, FinishStart(request, reply, id)))
  {
    hide Identifiers.IsNormal;
    var flight := s.starts[request];
    var vs := s.db.verifications;
    var vs' := Apply(cfg, now, users, s, FinishStart(request, reply, id)).db.verifications;
    forall v | v in vs'
      ensures Identifiers.IsNormal(vs'[v].kind, vs'[v].value)
    {
      if v in vs && v != id {
        assert vs'[v].kind == vs[v].kind && vs'[v].value == vs[v].value;
      } else {
        assert vs' != vs ==> vs'[id].kind == flight.kind && vs'[id].value == flight.value;
      }
    }
  }

  lemma StepKeepsNormal(cfg: Config, now: int, users: map<UserId, User>, s: State, step: Step)
    requires Inv(cfg.maxAttempts, users.Keys, s) && ValuesNormal(s) && Enabled(s, step)
    ensures ValuesNormal(Apply(cfg, now, users, s, step))
  {
    hide Inv, ValuesNormal, InPlace, StartsNormal, Apply;
    StepStartsNormal(cfg, now, users, s, step);
    match step
    case BeginStart(request, user, kind, raw) =>
      BeginStartKeeps(cfg, now, users, s, request, user, kind, raw);
      InPlaceNormal(s, Apply(cfg, now, users, s, step));
    case FinishStart(request, reply, verification) =>
      FinishStartNormal(cfg, now, users, s, request, reply, verification);
    case BeginConfirm(request, user, kind, verification, code) =>
      BeginConfirmKeeps(cfg, now, users, s, request, user, kind, verification, code);
      InPlaceNormal(s, Apply(cfg, now, users, s, step));
    case FinishConfirm(request, reply, contact) =>
      match reply {
        case Rejected(e) => RejectedKeeps(cfg, now, users, s, request, e, contact);
        case Accepted => AcceptedKeeps(cfg, now, users, s, request, contact);
      }
      InPlaceNormal(s, Apply(cfg, now, users, s, step));
    case RemoveContact(user, kind) =>
      RemoveContactKeeps(cfg, now, users, s, user, kind);
      InPlaceNormal(s, Apply(cfg, now, users, s, step));
  }

  // What a finished Confirm can return.

  /** Expiry found inside the transaction leaves no trace: the row stays pending,
      because the transaction that marked it is rolled back.  A Confirm moves a row
      to expired exactly when it had expired before the provider was called. */
  lemma ConfirmExpiresOnlyBeforeTheCall(
    cfg: Config, now: int, users: map<UserId, User>, s: State, user: UserId, kind: Kind, id: VerificationId,
    code: string, flight: ConfirmFlight, reply: VerifyReply, contact: ContactId)
    requires id in s.db.verifications && s.db.verifications[id].status == Pending
    ensures ConfirmBegin(cfg, now, s.db, user, kind, id, code).0.verifications[id].status == Expired
       <==> TrimSpace(code) != "" && s.db.verifications[id].user == user && s.db.verifications[id].kind == kind
            && s.db.verifications[id].expiresAt <= now
    ensures ConfirmFinish(cfg, now, users.Keys, s.db, flight, reply, contact).0.verifications[id].status != Expired
    ensures s.db.verifications[id].expiresAt <= now && flight.id == id && reply == Accepted ==>
              ConfirmFinish(cfg, now, users.Keys, s.db, flight, reply, contact).0 == s.db
  {}
}
