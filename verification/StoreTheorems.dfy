/** Every reachable world satisfies what the repository and the services rely on. */
module StoreTheorems {
  import opened World
  import A = AccountProtocol
  import C = ContactProtocol
  import Contacts
  import Rbac
  import Repository

  function TablesOf(w: World): Repository.Tables {
    Repository.Tables(w.account.db, w.contact.db, w.rbac)
  }

  /** The unique indexes and references hold in every reachable world, and at most one
      verification per user and kind is pending: the preconditions of the service
      methods are met throughout every run. */
  lemma RunIsValid(cfg: Config, ws: seq<World>, steps: seq<Step>, i: nat)
    requires cfg.Valid() && Run(cfg, ws, steps) && i < |ws|
    ensures Repository.ValidTables(TablesOf(ws[i])) && C.PendingUnique(ws[i].contact.db.verifications)
  {
    hide Inv, Apply;
    RunInv(cfg, ws, steps, i);
    hide Run;
    WorldIsValid(cfg, ws[i]);
  }

  lemma WorldIsValid(cfg: Config, w: World)
    requires Inv(cfg, w)
    ensures Repository.ValidTables(TablesOf(w)) && C.PendingUnique(w.contact.db.verifications)
  {
    hide Inv;
    ContactsValid(cfg, w);
    AccountsValid(cfg, w);
  }

  /** The ids in the contact tables were all logged, so fresh ones are new to them. */
  lemma IdsAreUsed(cfg: Config, w: World)
    requires Inv(cfg, w)
    ensures w.contact.db.verifications.Keys <= w.contact.log.usedVerifications
    ensures w.contact.db.contacts.Keys <= w.contact.log.origin.Keys
  {
    hide A.Inv, Rbac.Inv, C.ValuesNormal;
    assert forall v | v in w.contact.db.verifications ::
        C.RowOk(cfg.contact.maxAttempts, w.Users().Keys, w.contact.log, v, w.contact.db.verifications[v]);
    assert C.ContactsProved(w.contact.log, w.contact.db);
  }

  lemma ContactsValid(cfg: Config, w: World)
    requires Inv(cfg, w)
    ensures C.PendingUnique(w.contact.db.verifications) && Contacts.ContactsUnique(w.contact.db.contacts)
    ensures forall c | c in w.contact.db.contacts :: w.contact.db.contacts[c].user in w.Users()
    ensures forall v | v in w.contact.db.verifications :: w.contact.db.verifications[v].user in w.Users()
  {
    hide A.Inv, Rbac.Inv, C.ValuesNormal;
    assert forall v | v in w.contact.db.verifications ::
        C.RowOk(cfg.contact.maxAttempts, w.Users().Keys, w.contact.log, v, w.contact.db.verifications[v]);
    assert C.ContactsProved(w.contact.log, w.contact.db);
  }

  lemma AccountsValid(cfg: Config, w: World)
    requires Inv(cfg, w)
    ensures var a := w.account.db;
            && Repository.UsernamesUnique(a.users) && Repository.TokensUnique(a.sessions)
            && a.passwords.Keys <= a.users.Keys
            && (forall s | s in a.sessions :: a.sessions[s].user in a.users)
            && Rbac.CodesUnique(w.rbac.roles) && Rbac.CodesUnique(w.rbac.permissions)
  {
    hide C.Inv, C.ValuesNormal, A.LiveOk;
    assert A.SessionsOk(cfg.account, w.now, w.Users(), A.Secrets(cfg.account.hasher, w.account.db.passwords),
                        w.account.db.sessions, w.account.sessionLog);
    assert forall s | s in w.account.db.sessions ::
        A.RowOk(cfg.account, w.now, w.Users().Keys, w.account.sessionLog, s, w.account.db.sessions[s]);
  }
}
