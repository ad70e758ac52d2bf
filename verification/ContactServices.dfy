/** The contact verification service (`internal/identity/service/contact.go`) as it
    runs: reads, checks and statements in order, a transaction undone when its
    callback fails.  Each method is proved against the function of the same name in
    `Contacts`, the meaning that the protocol is built from. */
module ContactServices {
  import opened Types
  import opened Strings
  import opened Repository
  import Accounts
  import C = ContactProtocol
  import ContactOutcomes
  import Contacts
  import Identifiers

  const MINUTE := 60_000_000_000 // in nanoseconds
  const DEFAULT_TTL := 10 * MINUTE
  const DEFAULT_RESEND := MINUTE
  const DEFAULT_MAX_ATTEMPTS := 5

  method NormalizeContactValue(kind: Kind, raw: string) returns (r: Result<string>)
    ensures r == Identifiers.ContactValue(kind, raw)
  {
    match kind
    case Phone =>
      var normalized := Identifiers.NormalizePhone(raw);
      if normalized == Ok("") {
        return Err(ErrInvalidPhone);
      }
      return normalized;
    case Email =>
      var normalized := Identifiers.EmailAddress(raw);
      if normalized == Ok("") {
        return Err(ErrInvalidEmail);
      }
      return normalized;
  }

  class ContactService {
    const store: Store
    const cfg: Contacts.Config

    constructor (store: Store, phone: Option<string>, email: Option<string>, ttl: int, resend: int, maxAttempts: int)
      ensures this.store == store && cfg.Valid()
      ensures cfg == Contacts.Config(phone, email, if ttl <= 0 then DEFAULT_TTL else ttl,
                                     if resend <= 0 then DEFAULT_RESEND else resend,
                                     if maxAttempts <= 0 then DEFAULT_MAX_ATTEMPTS else maxAttempts)
    {
      this.store := store;
      cfg := Contacts.Config(phone, email, if ttl <= 0 then DEFAULT_TTL else ttl,
                             if resend <= 0 then DEFAULT_RESEND else resend,
                             if maxAttempts <= 0 then DEFAULT_MAX_ATTEMPTS else maxAttempts);
    }

    /** Up to the call of the provider.  The row to look at is determined while at most
        one is pending, which every run guarantees. */
    method StartBegin(now: int, user: UserId, kind: Kind, raw: string) returns (r: Result<Contacts.StartFlight>)
      requires store.Valid()
      modifies store`verifications
      ensures store.Valid()
      ensures C.PendingUnique(old(store.verifications)) ==>
                (store.ContactTables(), r)
                == Contacts.StartBegin(cfg, now, store.users, old(store.ContactTables()), user, kind, raw)
    {
      hide ValidTables, Identifiers.ContactValue;
      if user !in store.users {
        return Err(ErrNotFound);
      }
      if !store.users[user].IsActive() {
        return Err(ErrDisabled);
      }
      var value :- NormalizeContactValue(kind, raw);
      var owner := store.OwnerOf(kind, value);
      OwnedIffTaken(store.Snapshot(), kind, value);
      if owner.Some? {
        return Err(ErrContactTaken);
      }
      var provider := cfg.Provider(kind);
      if provider.None? {
        return Err(ErrVerificationUnsupported);
      }
      var pending := store.GetPendingContactVerification(user, kind);
      if pending.Some? {
        var row := store.verifications[pending.value];
        if row.expiresAt > now && row.createdAt + cfg.resend > now {
          return Err(ErrRateLimited);
        }
        if row.expiresAt < now {
          row := row.(status := Expired);
          var _ := store.UpdateContactVerification(pending.value, row);
        }
      }
      return Ok(Contacts.StartFlight(user, kind, value, TrimSpace(provider.value), now));
    }

    /** After the provider answered; the id is a fresh one. */
    method StartFinish(flight: Contacts.StartFlight, reply: Contacts.StartReply, id: VerificationId)
      returns (r: Result<Verification>)
      requires store.Valid() && id !in store.verifications
      modifies store
      ensures store.Valid()
      ensures var (db, outcome) := Contacts.StartFinish(cfg, old(store.users).Keys, old(store.ContactTables()), flight,
                                                        reply, id);
              r == outcome && store.Snapshot() == old(store.Snapshot()).(contacts := db)
    {
      hide ValidTables;
      if reply.StartFailed? {
        return Err(Contacts.ProviderError(reply.error));
      }
      if flight.provider == "" || TrimSpace(reply.provider) != flight.provider || TrimSpace(reply.id) == "" {
        return Err(ErrVerificationUnavailable);
      }
      var expiresAt := flight.startedAt + cfg.ttl;
      if reply.expiresAt.Some? && reply.expiresAt.value < expiresAt {
        expiresAt := reply.expiresAt.value;
      }
      if expiresAt <= flight.startedAt {
        return Err(ErrVerificationExpired);
      }
      var record := Verification(flight.user, flight.kind, flight.value, flight.provider, TrimSpace(reply.id), Pending,
                                 0, expiresAt, flight.startedAt, None);
      var before := store.Snapshot();
      store.CancelPendingContactVerifications(flight.user, flight.kind, Some(id));
      var created := store.CreateContactVerification(id, record);
      if created.Err? {
        store.Restore(before);
        return Err(created.error);
      }
      return Ok(record);
    }

    /** Up to the call of the provider. */
    method ConfirmBegin(now: int, user: UserId, kind: Kind, id: VerificationId, code: string)
      returns (r: Result<Contacts.ConfirmFlight>)
      requires store.Valid()
      modifies store`verifications
      ensures store.Valid()
      ensures (store.ContactTables(), r)
           == Contacts.ConfirmBegin(cfg, now, old(store.ContactTables()), user, kind, id, code)
    {
      hide ValidTables;
      if TrimSpace(code) == "" {
        return Err(ErrVerificationInvalid);
      }
      if id !in store.verifications {
        return Err(ErrVerificationNotFound);
      }
      var record := store.verifications[id];
      if record.user != user || record.kind != kind {
        return Err(ErrVerificationNotFound);
      }
      if record.status != Pending {
        return Err(Contacts.StatusError(record.status).value);
      }
      if record.expiresAt <= now {
        record := record.(status := Expired);
        var _ := store.UpdateContactVerification(id, record);
        return Err(ErrVerificationExpired);
      }
      var provider := cfg.Provider(kind);
      if provider.None? {
        return Err(ErrVerificationUnsupported);
      }
      if TrimSpace(provider.value) != record.provider {
        return Err(ErrVerificationUnavailable);
      }
      return Ok(Contacts.ConfirmFlight(user, kind, id, record.provider, record.challenge, now));
    }

    method ConfirmRejected(flight: Contacts.ConfirmFlight, error: Error) returns (outcome: Contacts.ConfirmOutcome)
      requires store.Valid() && cfg.Valid()
      modifies store`verifications
      ensures store.Valid()
      ensures (store.ContactTables(), outcome)
           == Contacts.ConfirmRejected(cfg, old(store.ContactTables()), flight, error)
    {
      hide ValidTables;
      var normalized := Contacts.ProviderError(error);
      if normalized == ErrVerificationInvalid {
        var updated := store.RecordContactVerificationFailure(flight.id, cfg.maxAttempts, flight.readAt);
        if updated.None? {
          return Contacts.Refused(ErrVerificationNotFound);
        }
        if updated.value.status != Pending && updated.value.status != Failed {
          return Contacts.Refused(Contacts.StatusError(updated.value.status).value);
        }
      }
      return Contacts.Refused(normalized);
    }

    /** The transaction after the provider accepted the code. */
    method ConfirmAccepted(now: int, flight: Contacts.ConfirmFlight, id: ContactId)
      returns (outcome: Contacts.ConfirmOutcome)
      requires store.Valid() && id !in store.contacts
      modifies store
      ensures store.Valid()
      ensures var (db, expected) := Contacts.ConfirmAccepted(now, old(store.users).Keys, old(store.ContactTables()),
                                                             flight, id);
              outcome == expected && store.Snapshot() == old(store.Snapshot()).(contacts := db)
      ensures outcome.Bound? ==>
                && ContactOutcomes.Binds(old(store.ContactTables()), store.ContactTables(), now, flight.id, id)
                && outcome == Contacts.Bound(id, store.contacts[id])
    {
      hide ValidTables, Contacts.ReplaceContact, ContactOutcomes.Binds;
      ContactOutcomes.AcceptanceStores(cfg, now, store.users.Keys, store.ContactTables(), flight, id);
      var before := store.Snapshot();
      if flight.id !in store.verifications {
        return Contacts.Refused(ErrVerificationNotFound);
      }
      var current := store.verifications[flight.id];
      if current.user != flight.user || current.kind != flight.kind || current.status != Pending {
        var error := Contacts.StatusError(current.status);
        return if error.Some? then Contacts.Refused(error.value) else Contacts.NothingBound;
      }
      if current.expiresAt <= now {
        current := current.(status := Expired);
        var _ := store.UpdateContactVerification(flight.id, current);
        store.Restore(before);
        return Contacts.Refused(ErrVerificationExpired);
      }
      var item := Contact(flight.user, flight.kind, current.value, now);
      var replaced := store.ReplaceUserContact(id, item);
      if replaced.Err? {
        store.Restore(before);
        return Contacts.Refused(replaced.error);
      }
      current := current.(status := Consumed, consumedAt := Some(now));
      var _ := store.UpdateContactVerification(flight.id, current);
      store.CancelPendingContactVerifications(flight.user, flight.kind, Some(flight.id));
      return Contacts.Bound(id, item);
    }

    method Unbind(user: UserId, kind: Kind) returns (r: Result<()>)
      requires store.Valid()
      modifies store
      ensures store.Valid()
      ensures var unbound := Contacts.Unbind(old(store.ContactTables()), user, kind);
              && (r.Ok? <==> unbound.Ok?) && (r.Err? ==> r.error == unbound.error)
              && store.Snapshot()
                 == if unbound.Ok? then old(store.Snapshot()).(contacts := unbound.value) else old(store.Snapshot())
    {
      hide ValidTables;
      var before := store.Snapshot();
      var deleted := store.DeleteUserContact(user, kind);
      if deleted.Err? {
        store.Restore(before);
        return deleted;
      }
      store.CancelPendingContactVerifications(user, kind, None);
      return Ok(());
    }
  }

  lemma OwnedIffTaken(t: Tables, kind: Kind, value: string)
    requires ValidTables(t)
    ensures Accounts.Lookup(t.accounts.users, t.contacts.contacts, Identifiers.ContactIdentifier(kind, value)).Some?
       <==> Contacts.ValueTaken(t.contacts.contacts, kind, value)
  {
    var id, cs := Identifiers.ContactIdentifier(kind, value), t.contacts.contacts;
    if Contacts.ValueTaken(cs, kind, value) {
      var c :| c in cs && cs[c].kind == kind && cs[c].value == value;
      assert cs[c] == Contact(cs[c].user, kind, value, cs[c].verifiedAt);
      assert Accounts.Names(t.accounts.users, cs, id, cs[c].user);
    }
  }
}
