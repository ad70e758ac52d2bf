/** The contact verification service (`internal/identity/service/contact.go`) over the
    contact and verification tables (`internal/identity/repository/contact_store.go`).

    Start and Confirm call a host provider between reading and writing, so each is
    two functions: `...Begin` up to the call, `...Finish` after it.  A transaction
    whose callback returns an error leaves the tables as they were. */
module Contacts {
  import opened Types
  import opened Strings
  import Identifiers

  /** A provider is present when its name is. */
  datatype Config = Config(phone: Option<string>, email: Option<string>, ttl: int, resend: int, maxAttempts: int)
  {
    /** What `NewContactService` guarantees after filling in defaults. */
    predicate Valid() {
      ttl > 0 && resend > 0 && maxAttempts > 0
    }

    function Provider(kind: Kind): Option<string> {
      if kind == Phone then phone else email
    }
  }

  datatype Db = Db(contacts: map<ContactId, Contact>, verifications: map<VerificationId, Verification>)

  /** A Start request waiting for its provider. */
  datatype StartFlight = StartFlight(user: UserId, kind: Kind, value: string, provider: string, startedAt: int)

  /** A Confirm request waiting for its provider. */
  datatype ConfirmFlight = ConfirmFlight(
    user: UserId, kind: Kind, id: VerificationId, provider: string, challenge: string, readAt: int)

  datatype StartReply =
    | Challenge(provider: string, id: string, expiresAt: Option<int>)
    | StartFailed(error: Error)

  datatype VerifyReply = Accepted | Rejected(error: Error)

  /** `NothingBound` is a transaction that commits without an error and without a
      contact, which the caller would then dereference. */
  datatype ConfirmOutcome =
    | Bound(id: ContactId, contact: Contact)
    | Refused(error: Error)
    | NothingBound

  function StatusError(status: Status): Option<Error> {
    match status
    case Expired => Some(ErrVerificationExpired)
    case Pending => None
    case _ => Some(ErrVerificationInvalid)
  }

  function ProviderError(error: Error): Error {
    match error
    case ErrVerificationInvalid => ErrVerificationInvalid
    case ErrVerificationExpired => ErrVerificationExpired
    case ErrRateLimited => ErrRateLimited
    case ErrVerificationUnsupported => ErrVerificationUnsupported
    case _ => ErrVerificationUnavailable
  }

  // Statements of the repository.

  predicate IsPendingFor(row: Verification, user: UserId, kind: Kind) {
    row.user == user && row.kind == kind && row.status == Pending
  }

  function CancelPending(
    vs: map<VerificationId, Verification>, user: UserId, kind: Kind, except: Option<VerificationId>)
    : map<VerificationId, Verification>
  {
    map v | v in vs ::
      if IsPendingFor(vs[v], user, kind) && except != Some(v) then vs[v].(status := Cancelled) else vs[v]
  }

  function FailedRow(row: Verification, maxAttempts: int): Verification {
    row.(attempts := row.attempts + 1, status := if row.attempts + 1 >= maxAttempts then Failed else row.status)
  }

  function RecordFailure(
    vs: map<VerificationId, Verification>, id: VerificationId, maxAttempts: int, now: int)
    : map<VerificationId, Verification>
  {
    if id in vs && vs[id].status == Pending && vs[id].expiresAt > now
    then vs[id := FailedRow(vs[id], maxAttempts)]
    else vs
  }

  predicate ChallengeTaken(vs: map<VerificationId, Verification>, provider: string, challenge: string) {
    exists v :: v in vs && vs[v].provider == provider && vs[v].challenge == challenge
  }

  function WithoutContact(cs: map<ContactId, Contact>, user: UserId, kind: Kind): map<ContactId, Contact> {
    map c | c in cs && !(cs[c].user == user && cs[c].kind == kind) :: cs[c]
  }

  predicate HasContact(cs: map<ContactId, Contact>, user: UserId, kind: Kind) {
    exists c :: c in cs && cs[c].user == user && cs[c].kind == kind
  }

  predicate ValueTaken(cs: map<ContactId, Contact>, kind: Kind, value: string) {
    exists c :: c in cs && cs[c].kind == kind && cs[c].value == value
  }

  /** Delete then insert; the unique index on (kind, value) and the reference to the
      user can refuse the insert. */
  function ReplaceContact(users: set<UserId>, cs: map<ContactId, Contact>, id: ContactId, row: Contact)
    : Result<map<ContactId, Contact>>
  {
    if TrimSpace(row.value) == "" then Err(ErrInvalid)
    else
      var rest := WithoutContact(cs, row.user, row.kind);
      if row.user !in users then Err(ErrConflict)
      else if ValueTaken(rest, row.kind, row.value) then Err(ErrContactTaken)
      else Ok(rest[id := row])
  }

  function Insert(users: set<UserId>, vs: map<VerificationId, Verification>, id: VerificationId, row: Verification)
    : Result<map<VerificationId, Verification>>
  {
    if row.user !in users || ChallengeTaken(vs, row.provider, row.challenge) then Err(ErrConflict)
    else Ok(vs[id := row])
  }

  /** A pending row created last, the row the `ORDER BY ... LIMIT 1` query returns. */
  predicate IsLatestPending(
    vs: map<VerificationId, Verification>, user: UserId, kind: Kind, v: VerificationId)
  {
    && v in vs && IsPendingFor(vs[v], user, kind)
    && forall w | w in vs && IsPendingFor(vs[w], user, kind) :: vs[w].createdAt <= vs[v].createdAt
  }

  ghost function LatestPending(vs: map<VerificationId, Verification>, user: UserId, kind: Kind)
    : (r: Option<VerificationId>)
    ensures r.Some? ==> IsLatestPending(vs, user, kind, r.value)
    ensures r.None? <==> forall v | v in vs :: !IsPendingFor(vs[v], user, kind)
  {
    var candidates := set w | w in vs && IsPendingFor(vs[w], user, kind);
    assert forall v | v in vs && IsPendingFor(vs[v], user, kind) :: v in candidates;
    if candidates == {} then None
    else
      LatestPendingExists(vs, user, kind, candidates);
      assert exists v :: IsLatestPending(vs, user, kind, v) by {
        var v :| v in candidates && forall w | w in candidates :: vs[w].createdAt <= vs[v].createdAt;
        assert IsLatestPending(vs, user, kind, v);
      }
      var v :| IsLatestPending(vs, user, kind, v);
      Some(v)
  }

  /** The two unique indexes of the contact table. */
  ghost predicate ContactsUnique(cs: map<ContactId, Contact>) {
    && (forall c, d | c in cs && d in cs && cs[c].user == cs[d].user && cs[c].kind == cs[d].kind :: c == d)
    && (forall c, d | c in cs && d in cs && cs[c].kind == cs[d].kind && cs[c].value == cs[d].value :: c == d)
  }

  // The service.

  /** Returns the tables and, unless the request is refused, what waits for the
      provider. */
  ghost function StartBegin(
    cfg: Config, now: int, users: map<UserId, User>, db: Db, user: UserId, kind: Kind, raw: string)
    : (Db, Result<StartFlight>)
  {
    if user !in users then (db, Err(ErrNotFound))
    else if !users[user].IsActive() then (db, Err(ErrDisabled))
    else match Identifiers.ContactValue(kind, raw)
      case Err(e) => (db, Err(e))
      case Ok(value) =>
        if ValueTaken(db.contacts, kind, value) then (db, Err(ErrContactTaken))
        else if cfg.Provider(kind).None? then (db, Err(ErrVerificationUnsupported))
        else
          var flight := StartFlight(user, kind, value, TrimSpace(cfg.Provider(kind).value), now);
          match LatestPending(db.verifications, user, kind)
          case None => (db, Ok(flight))
          case Some(v) =>
            var row := db.verifications[v];
            if row.expiresAt > now && row.createdAt + cfg.resend > now then (db, Err(ErrRateLimited))
            else if row.expiresAt < now then
              (db.(verifications := db.verifications[v := row.(status := Expired)]), Ok(flight))
            else (db, Ok(flight))
  }

  function StartExpiry(cfg: Config, flight: StartFlight, expiresAt: Option<int>): int {
    var limit := flight.startedAt + cfg.ttl;
    if expiresAt.Some? && expiresAt.value < limit then expiresAt.value else limit
  }

  function StartRecord(cfg: Config, flight: StartFlight, challenge: string, expiresAt: Option<int>): Verification {
    Verification(flight.user, flight.kind, flight.value, flight.provider, TrimSpace(challenge), Pending, 0,
                 StartExpiry(cfg, flight, expiresAt), flight.startedAt, None)
  }

  function StartFinish(
    cfg: Config, users: set<UserId>, db: Db, flight: StartFlight, reply: StartReply, id: VerificationId)
    : (Db, Result<Verification>)
  {
    match reply
    case StartFailed(e) => (db, Err(ProviderError(e)))
    case Challenge(provider, challenge, expiresAt) =>
      if flight.provider == "" || TrimSpace(provider) != flight.provider || TrimSpace(challenge) == ""
      then (db, Err(ErrVerificationUnavailable))
      else if StartExpiry(cfg, flight, expiresAt) <= flight.startedAt then (db, Err(ErrVerificationExpired))
      else
        var row := StartRecord(cfg, flight, challenge, expiresAt);
        var cancelled := CancelPending(db.verifications, flight.user, flight.kind, Some(id));
        match Insert(users, cancelled, id, row)
        case Err(e) => (db, Err(e))
        case Ok(vs) => (db.(verifications := vs), Ok(row))
  }

  function ConfirmBegin(
    cfg: Config, now: int, db: Db, user: UserId, kind: Kind, id: VerificationId, code: string)
    : (Db, Result<ConfirmFlight>)
  {
    if TrimSpace(code) == "" then (db, Err(ErrVerificationInvalid))
    else if id !in db.verifications then (db, Err(ErrVerificationNotFound))
    else
      var row := db.verifications[id];
      if row.user != user || row.kind != kind then (db, Err(ErrVerificationNotFound))
      else if row.status != Pending then (db, Err(StatusError(row.status).value))
      else if row.expiresAt <= now then
        (db.(verifications := db.verifications[id := row.(status := Expired)]), Err(ErrVerificationExpired))
      else if cfg.Provider(kind).None? then (db, Err(ErrVerificationUnsupported))
      else if TrimSpace(cfg.Provider(kind).value) != row.provider then (db, Err(ErrVerificationUnavailable))
      else (db, Ok(ConfirmFlight(user, kind, id, row.provider, row.challenge, now)))
  }

  /** After a refusal by the provider; the failure counter uses the clock read
      before the call. */
  function ConfirmRejected(cfg: Config, db: Db, flight: ConfirmFlight, error: Error): (Db, ConfirmOutcome) {
    if ProviderError(error) != ErrVerificationInvalid then (db, Refused(ProviderError(error)))
    else
      var vs := RecordFailure(db.verifications, flight.id, cfg.maxAttempts, flight.readAt);
      var after := db.(verifications := vs);
      if flight.id !in vs then (after, Refused(ErrVerificationNotFound))
      else if vs[flight.id].status != Pending && vs[flight.id].status != Failed
      then (after, Refused(StatusError(vs[flight.id].status).value))
      else (after, Refused(ErrVerificationInvalid))
  }

  /** The transaction after the provider accepted the code. */
  function ConfirmAccepted(now: int, users: set<UserId>, db: Db, flight: ConfirmFlight, id: ContactId)
    : (Db, ConfirmOutcome)
  {
    if flight.id !in db.verifications then (db, Refused(ErrVerificationNotFound))
    else
      var row := db.verifications[flight.id];
      if row.user != flight.user || row.kind != flight.kind || row.status != Pending then
        match StatusError(row.status)
        case Some(e) => (db, Refused(e))
        case None => (db, NothingBound)
      else if row.expiresAt <= now then (db, Refused(ErrVerificationExpired))
      else
        var contact := Contact(flight.user, flight.kind, row.value, now);
        match ReplaceContact(users, db.contacts, id, contact)
        case Err(e) => (db, Refused(e))
        case Ok(cs) =>
          var consumed := db.verifications[flight.id := row.(status := Consumed, consumedAt := Some(now))];
          (Db(cs, CancelPending(consumed, flight.user, flight.kind, Some(flight.id))), Bound(id, contact))
  }

  function ConfirmFinish(
    cfg: Config, now: int, users: set<UserId>, db: Db, flight: ConfirmFlight, reply: VerifyReply, id: ContactId)
    : (Db, ConfirmOutcome)
  {
    match reply
    case Rejected(e) => ConfirmRejected(cfg, db, flight, e)
    case Accepted => ConfirmAccepted(now, users, db, flight, id)
  }

  function Unbind(db: Db, user: UserId, kind: Kind): Result<Db> {
    if !HasContact(db.contacts, user, kind) then Err(ErrContactNotFound)
    else Ok(Db(WithoutContact(db.contacts, user, kind), CancelPending(db.verifications, user, kind, None)))
  }

  /** What deleting users leaves of the two tables. */
  function WithoutUsers(db: Db, gone: set<UserId>): Db {
    Db(map c | c in db.contacts && db.contacts[c].user !in gone :: db.contacts[c],
       map v | v in db.verifications && db.verifications[v].user !in gone :: db.verifications[v])
  }

  lemma {:induction false} LatestPendingExists(
    vs: map<VerificationId, Verification>, user: UserId, kind: Kind, candidates: set<VerificationId>)
    requires forall w :: w in candidates ==> w in vs && IsPendingFor(vs[w], user, kind)
    requires candidates != {}
    ensures exists v :: v in candidates && forall w | w in candidates :: vs[w].createdAt <= vs[v].createdAt
  {
    var v :| v in candidates;
    if candidates != {v} {
      var rest := candidates - {v};
      assert candidates == rest + {v};
      LatestPendingExists(vs, user, kind, rest);
      var best :| best in rest && forall w | w in rest :: vs[w].createdAt <= vs[best].createdAt;
      var top := if vs[best].createdAt <= vs[v].createdAt then v else best;
      assert forall w | w in candidates :: vs[w].createdAt <= vs[top].createdAt;
    }
  }
}
