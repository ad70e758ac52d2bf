/** Why a verification changes: the step and the circumstances behind each status. */
module ContactReasons {
  import opened Types
  import opened Contacts
  import opened ContactProtocol
  import Identifiers
  import Strings

  /** What may have moved the pending row `r` to `r'` in one step. */
  predicate HasReason(cfg: Config, now: int, s: State, step: Step, v: VerificationId, r: Verification, r': Verification)
    requires Enabled(s, step)
  {
    match r'.status
    case Pending =>
      RejectedFor(s, step, v, r) && r.attempts + 1 < cfg.maxAttempts && r' == r.(attempts := r.attempts + 1)
    case Failed =>
      && RejectedFor(s, step, v, r) && r.attempts + 1 == cfg.maxAttempts
      && r' == r.(attempts := r.attempts + 1, status := Failed)
    case Consumed =>
      AcceptedFor(s, step, v) && now < r.expiresAt && r' == r.(status := Consumed, consumedAt := Some(now))
    case Expired =>
      && r.expiresAt <= now && r' == r.(status := Expired)
      && (step.BeginStart? || (step.BeginConfirm? && step.verification == v))
      && step.user == r.user && step.kind == r.kind
    case Cancelled => Supersedes(s, step, v, r) && r' == r.(status := Cancelled)
  }

  /** The provider called the code wrong, and the row had time left when it was read. */
  predicate RejectedFor(s: State, step: Step, v: VerificationId, r: Verification)
    requires Enabled(s, step)
  {
    && step.FinishConfirm? && step.verifyReply == Rejected(ErrVerificationInvalid)
    && s.confirms[step.request].id == v && s.confirms[step.request].readAt < r.expiresAt
  }

  predicate AcceptedFor(s: State, step: Step, v: VerificationId)
    requires Enabled(s, step)
  {
    step.FinishConfirm? && step.verifyReply == Accepted && s.confirms[step.request].id == v
  }

  /** A newer verification, another one's success, or the removal of the contact. */
  predicate Supersedes(s: State, step: Step, v: VerificationId, r: Verification)
    requires Enabled(s, step)
  {
    match step
    case FinishStart(request, _, id) => id != v && s.starts[request].user == r.user && s.starts[request].kind == r.kind
    case FinishConfirm(request, reply, _) =>
      reply == Accepted && s.confirms[request].id != v && s.confirms[request].user == r.user
      && s.confirms[request].kind == r.kind
    case RemoveContact(user, kind) => user == r.user && kind == r.kind
    case _ => false
  }

  /** Every change of a verification has its reason. */
  lemma ChangesForAReason(cfg: Config, now: int, users: map<UserId, User>, s: State, step: Step, v: VerificationId)
    requires cfg.Valid() && Inv(cfg.maxAttempts, users.Keys, s) && Enabled(s, step)
    requires var s' := Apply(cfg, now, users, s, step); v in s.db.verifications && v in s'.db.verifications
    ensures var r, r' := s.db.verifications[v], Apply(cfg, now, users, s, step).db.verifications[v];
            r' == r || HasReason(cfg, now, s, step, v, r, r')
  {
    RowOf(cfg.maxAttempts, users.Keys, s, v);
    assert s.db.verifications[v].status == Pending ==> s.db.verifications[v].attempts < cfg.maxAttempts;
    hide Inv, Apply, HasReason, RowOk;
    if step.BeginStart? {
      StartChanges(cfg, now, users, s, step, v);
    } else if step.FinishConfirm? {
      FinishChanges(cfg, now, users, s, step, v);
    } else {
      OtherChanges(cfg, now, users, s, step, v);
    }
  }

  /** No contact step deletes a verification. */
  lemma RowStays(cfg: Config, now: int, users: map<UserId, User>, s: State, step: Step, v: VerificationId)
    requires Enabled(s, step) && v in s.db.verifications
    ensures v in Apply(cfg, now, users, s, step).db.verifications
  {
    hide Identifiers.ContactValue, ReplaceContact, HasContact, ChallengeTaken;
    if step.BeginStart? {
      StartChanges(cfg, now, users, s, step, v);
    }
  }

  lemma OtherChanges(cfg: Config, now: int, users: map<UserId, User>, s: State, step: Step, v: VerificationId)
    requires Enabled(s, step) && !step.BeginStart? && !step.FinishConfirm? && v in s.db.verifications
    requires v in s.log.usedVerifications
    ensures v in Apply(cfg, now, users, s, step).db.verifications
    ensures var r, r' := s.db.verifications[v], Apply(cfg, now, users, s, step).db.verifications[v];
            r' == r || HasReason(cfg, now, s, step, v, r, r')
  {
    hide WithoutContact, HasContact, ChallengeTaken;
  }

  lemma StartChanges(cfg: Config, now: int, users: map<UserId, User>, s: State, step: Step, v: VerificationId)
    requires step.BeginStart? && v in s.db.verifications
    ensures v in Apply(cfg, now, users, s, step).db.verifications
    ensures var r, r' := s.db.verifications[v], Apply(cfg, now, users, s, step).db.verifications[v];
            r' == r || HasReason(cfg, now, s, step, v, r, r')
  {
    hide Identifiers.ContactValue;
    var latest := LatestPending(s.db.verifications, step.user, step.kind);
    assert latest.Some? ==> IsLatestPending(s.db.verifications, step.user, step.kind, latest.value);
  }

  lemma FinishChanges(cfg: Config, now: int, users: map<UserId, User>, s: State, step: Step, v: VerificationId)
    requires cfg.Valid() && Enabled(s, step) && step.FinishConfirm? && v in s.db.verifications
    requires s.db.verifications[v].status == Pending ==> s.db.verifications[v].attempts < cfg.maxAttempts
    ensures v in Apply(cfg, now, users, s, step).db.verifications
    ensures var r, r' := s.db.verifications[v], Apply(cfg, now, users, s, step).db.verifications[v];
            r' == r || HasReason(cfg, now, s, step, v, r, r')
  {
    hide ReplaceContact;
  }

  // The pace of resends.

  /** All the checks of a Start but the one on the resend interval. */
  predicate Ready(cfg: Config, users: map<UserId, User>, db: Db, user: UserId, kind: Kind, raw: string) {
    && user in users && users[user].IsActive() && Identifiers.ContactValue(kind, raw).Ok?
    && !ValueTaken(db.contacts, kind, Identifiers.ContactValue(kind, raw).value)
    && (if kind == Phone then cfg.phone.Some? else cfg.email.Some?)
  }

  /** A pending verification that has time left and is younger than the interval. */
  predicate Holds(cfg: Config, now: int, db: Db, user: UserId, kind: Kind, v: VerificationId) {
    && v in db.verifications && IsPendingFor(db.verifications[v], user, kind)
    && now < db.verifications[v].expiresAt && now < db.verifications[v].createdAt + cfg.resend
  }

  /** A Start goes ahead exactly if it is ready and nothing it reads holds it back,
      and is refused as too early exactly if it is ready and something does. */
  lemma StartPacesResends(
    cfg: Config, now: int, users: map<UserId, User>, db: Db, user: UserId, kind: Kind, raw: string)
    requires PendingUnique(db.verifications)
    ensures var r := StartBegin(cfg, now, users, db, user, kind, raw).1;
            var held := exists v :: Holds(cfg, now, db, user, kind, v);
            && (r.Ok? <==> Ready(cfg, users, db, user, kind, raw) && !held)
            && (r == Err(ErrRateLimited) <==> Ready(cfg, users, db, user, kind, raw) && held)
  {
    ContactValueErrors(kind, raw);
    hide Identifiers.ContactValue;
    var latest := LatestPending(db.verifications, user, kind);
    if latest.Some? && db.verifications[latest.value].expiresAt > now
       && db.verifications[latest.value].createdAt + cfg.resend > now
    {
      assert Holds(cfg, now, db, user, kind, latest.value);
    }
  }

  /** A finished Start stores a pending row of its user and kind, or none. */
  lemma FinishStores(
    cfg: Config, now: int, users: map<UserId, User>, s: State, request: RequestId, reply: StartReply, v: VerificationId)
    requires Enabled(s, FinishStart(request, reply, v)) && v !in s.db.verifications
    ensures var vs := Apply(cfg, now, users, s, FinishStart(request, reply, v)).db.verifications;
            v in vs ==> IsPendingFor(vs[v], s.starts[request].user, s.starts[request].kind)
  {
    hide ChallengeTaken, Strings.TrimSpace;
  }

  lemma ContactValueErrors(kind: Kind, raw: string)
    ensures Identifiers.ContactValue(kind, raw) != Err(ErrRateLimited)
  {}

  /** The pace can be lost without any overlap.  A finished Start left a verification,
      however new, that holds the next one back; the last code it allows is refused, and
      at the same moment the next Start goes ahead. */
  lemma LastRefusalEndsThePace(
    cfg: Config, now: int, users: map<UserId, User>, s: State, user: UserId, kind: Kind, raw: string,
    v: VerificationId, request: RequestId, id: ContactId)
    requires cfg.Valid() && PendingUnique(s.db.verifications)
    requires Ready(cfg, users, s.db, user, kind, raw) && Holds(cfg, now, s.db, user, kind, v)
    requires s.db.verifications[v].attempts == cfg.maxAttempts - 1
    requires request in s.confirms && s.confirms[request].id == v
    requires s.confirms[request].readAt < s.db.verifications[v].expiresAt
    requires id !in s.log.origin
    ensures StartBegin(cfg, now, users, s.db, user, kind, raw).1 == Err(ErrRateLimited)
    ensures var s' := Apply(cfg, now, users, s, FinishConfirm(request, Rejected(ErrVerificationInvalid), id));
            && v in s'.db.verifications && s'.db.verifications[v].status == Failed
            && StartBegin(cfg, now, users, s'.db, user, kind, raw).1.Ok?
  {
    hide Identifiers.ContactValue, StartBegin;
    StartPacesResends(cfg, now, users, s.db, user, kind, raw);
    var s' := Apply(cfg, now, users, s, FinishConfirm(request, Rejected(ErrVerificationInvalid), id));
    assert s'.db == s.db.(verifications := s.db.verifications[v := FailedRow(s.db.verifications[v], cfg.maxAttempts)]);
    assert PendingUnique(s'.db.verifications);
    StartPacesResends(cfg, now, users, s'.db, user, kind, raw);
  }

  /** Nor is it kept between overlapping Starts.  Two that both read before either
      writes both go through, whatever the interval: the provider is asked twice, and
      the second verification cancels the first. */
  lemma OverlappingStartsBothPass(
    cfg: Config, now: int, users: map<UserId, User>, s: State, user: UserId, kind: Kind, raw: string,
    one: RequestId, two: RequestId, v: VerificationId, w: VerificationId, provider: string, c: string, d: string)
    requires cfg.Valid() && one != two && v != w
    requires v !in s.log.usedVerifications && w !in s.log.usedVerifications
    requires forall x | x in s.db.verifications :: x in s.log.usedVerifications
    requires LatestPending(s.db.verifications, user, kind).None?
    requires StartBegin(cfg, now, users, s.db, user, kind, raw).1.Ok?
    requires StartBegin(cfg, now, users, s.db, user, kind, raw).1.value.provider == provider != ""
    requires Strings.IsTrimmed(provider) && Strings.IsTrimmed(c) && Strings.IsTrimmed(d) && c != "" && d != "" && c != d
    requires !ChallengeTaken(s.db.verifications, provider, c) && !ChallengeTaken(s.db.verifications, provider, d)
    ensures var s1 := Apply(cfg, now, users, s, BeginStart(one, user, kind, raw));
            var s2 := Apply(cfg, now, users, s1, BeginStart(two, user, kind, raw));
            && one in s2.starts && two in s2.starts
            && var s3 := Apply(cfg, now, users, s2, FinishStart(one, Challenge(provider, c, None), v));
               && two in s3.starts && w !in s3.log.usedVerifications
               && var s4 := Apply(cfg, now, users, s3, FinishStart(two, Challenge(provider, d, None), w));
                  var vs := s4.db.verifications;
                  && v in vs && w in vs && vs[v].status == Cancelled && vs[w].status == Pending
                  && vs[v].createdAt == vs[w].createdAt == now
  {
    Strings.TrimSpaceFixed(provider);
    Strings.TrimSpaceFixed(c);
    Strings.TrimSpaceFixed(d);
    hide Identifiers.ContactValue, Strings.TrimSpace;
    var flight := StartBegin(cfg, now, users, s.db, user, kind, raw).1.value;
    FirstStart(cfg, users.Keys, s.db, flight, c, v);
    var db := StartFinish(cfg, users.Keys, s.db, flight, Challenge(provider, c, None), v).0;
    SecondStart(cfg, users.Keys, s.db, db, flight, c, d, v, w);
    hide StartFinish;
  }

  lemma FirstStart(cfg: Config, users: set<UserId>, db: Db, flight: StartFlight, c: string, v: VerificationId)
    requires cfg.Valid() && flight.user in users && flight.provider != ""
    requires Strings.TrimSpace(flight.provider) == flight.provider && Strings.TrimSpace(c) == c != ""
    requires !ChallengeTaken(db.verifications, flight.provider, c)
    ensures var (after, r) := StartFinish(cfg, users, db, flight, Challenge(flight.provider, c, None), v);
            && r.Ok?
            && after == db.(verifications := CancelPending(db.verifications, flight.user, flight.kind, Some(v))[
                              v := StartRecord(cfg, flight, c, None)])
  {
    hide Strings.TrimSpace;
    var cancelled := CancelPending(db.verifications, flight.user, flight.kind, Some(v));
    assert forall x | x in cancelled ::
        && cancelled[x].provider == db.verifications[x].provider
        && cancelled[x].challenge == db.verifications[x].challenge;
  }

  lemma SecondStart(
    cfg: Config, users: set<UserId>, db0: Db, db: Db, flight: StartFlight, c: string, d: string, v: VerificationId,
    w: VerificationId)
    requires cfg.Valid() && flight.user in users && flight.provider != "" && v != w && c != d
    requires Strings.TrimSpace(flight.provider) == flight.provider
    requires Strings.TrimSpace(c) == c && Strings.TrimSpace(d) == d != ""
    requires db == db0.(verifications := CancelPending(db0.verifications, flight.user, flight.kind, Some(v))[
                          v := StartRecord(cfg, flight, c, None)])
    requires !ChallengeTaken(db0.verifications, flight.provider, d)
    ensures var (after, r) := StartFinish(cfg, users, db, flight, Challenge(flight.provider, d, None), w);
            && r.Ok? && v in after.verifications && w in after.verifications
            && after.verifications[v] == StartRecord(cfg, flight, c, None).(status := Cancelled)
            && after.verifications[w] == StartRecord(cfg, flight, d, None)
  {
    hide Strings.TrimSpace;
    assert !ChallengeTaken(db.verifications, flight.provider, d);
    FirstStart(cfg, users, db, flight, d, w);
  }
}
