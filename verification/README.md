# Identity store: model and proofs

A Dafny model of the identity module: the relational store (users, contacts, verifications, passwords, sessions, roles,
permissions and the two link tables), the services that work on it, the text formats they rely on, and the in-memory image
challenge store. `dafny verify dfyconfig.toml` checks all of it.

## How it is built

| layer | modules | what it is |
|---|---|---|
| values | `Types`, `Strings`, `Encoding` | rows, errors, the string functions of Go's library that the services use, on ASCII |
| formats | `Identifiers`, `Argon2id`, `Credentials` | usernames, phone numbers, addresses, login identifiers; the credential text |
| meaning | `Contacts`, `Accounts`, `Rbac`, `Claims` | one function a transaction or a half of a split operation, on tables as values |
| protocols | `ContactProtocol`, `AccountProtocol`, `World` | those functions as steps that interleave, with the invariants every step keeps |
| outcomes | `ContactOutcomes`, `AccountOutcomes`, `RoleOutcomes`, `StepOutcomes` | what each of those functions and steps answers and changes, row by row, without naming it |
| theorems | `ContactTheorems`, `ContactReasons`, `ContactAttempts`, `ContactOrigins`, `AccountTheorems`, `SessionTheorems`, `AccountOrigins`, `Simulation`, `RoundTrips`, `StoreTheorems` | what holds over whole runs |
| code | `Repository`, `ContactServices`, `AccountServices`, `Execution`, `ImageChallenge` | the store as a class with a field a table, the services as classes that run statement after statement, each method proved equal to its meaning, and the module that runs them step by step |

A run starts from a store with consistent users, credentials and roles and takes any number of steps in any order: time
passing, contact requests, account operations, role changes. Two kinds of operation are cut in two so that others can come
between the halves: Start and Confirm at the call of the host's provider, and what runs outside a transaction, the
credential check of `Module.Authenticate` (reading, then a compare-and-swap) and `Resolve` (reading, then a guarded touch).
Everything else is one step. `Execution` performs such a run on the store with the services, step by step, and ends in the
same world. Steps keep a log (accepted challenges, touches, events, ids used) that only the properties
read, apart from the freshness of ids.

## What is assumed

- Transactions are serializable and a failed one leaves the tables as they were. Inserts enforce unique indexes and
  references to users.
- Ids and tokens are fresh and never used again. The clock is an integer that never goes back and is read once in a step.
- Four operations of several statements are single steps although they run outside a transaction: deleting a role, deleting
  a permission, `Revoke` (a query, then an update) and `RecordContactVerificationFailure` (an update, then a query).
- The touch interval and the time to live are positive.
- A password hash is ideal: it remembers its value. `Credentials` relates it to the credential text, for a key derivation
  that does not collide on the values at hand. SHA-256 is represented by what it is applied to.
- Text is ASCII. `net/mail.ParseAddress` is an addr-spec predicate (section 3.4.1 of RFC 5322) without quoted local parts,
  which the services refuse because the parsed address differs from the text. The inside of a domain literal is any run of
  `dtext`; Go's parser also asks that it be an IP address.
- Password policies, session bindings, login guards, the host's delete participant and the replies of providers and
  their names are inputs of the steps.
- SQLite's text functions stop at a NUL. Go's base64 decoder skips line breaks and ignores unused trailing bits.

## Where the code does not do what one might read into it

- The write of `expired` in the Confirm transaction (`internal/identity/service/contact.go:243-245`) is undone with the
  transaction: the row stays pending. The model does the same.
- `verificationStatusError` returns no error for `pending`, so a Confirm transaction could commit without a contact; it is
  proved that no run gets there.
- The resend interval is kept against a stored verification exactly while it is there, pending and unexpired
  (`ContactTheorems.PaceIsKeptIff`). It is lost when the last code is refused, when the provider's expiry is shorter than the
  interval, when Unbind or a consumed code settles the verification, for a Start whose reply or insert was refused, and
  between overlapping Starts.
- An attempt is counted when a code is refused, not when it is sent, so any number of codes can be at the provider at once
  (`ContactAttempts.AnyNumberOfGuesses`). What holds is that none binds after `maxAttempts` refusals.
- A permission the host supplies with outer white space is listed in the claims, but `HasPermission` trims the question
  only, so such an entry grants nothing by itself.
- `image.go` reads its clock before it takes the mutex, so its clocks are not assumed to be in order.
- An idle timeout no longer than the touch interval is never extended by use.

## Model

| member | source | states |
|---|---|---|
| World.StepFollows | internal/identity/repository/store.go:35-51 | every step of every part, taken atomically, keeps the invariant of the whole store, and no row an earlier step removed or settled comes back |
| World.RunInv | internal/identity/repository/store.go:35-51 | the invariant of the whole store holds in every world of every run |
| World.RunFollows | internal/identity/repository/contact_store.go:186-249 | in a run, any later world follows any earlier one: a verification that left `pending` stays as it is, sessions keep their identity, only move forward in time and stay revoked |
| ContactProtocol.StepKeeps | internal/identity/service/contact.go:97-309 | Start, Confirm and Unbind, cut at the provider call and interleaved freely, keep the contact invariant and change only pending verifications |
| ContactTheorems.TerminalIsFinal | internal/identity/service/contact.go:192-270 | a verification that has left `pending` is final, row and all, in every run |
| ContactTheorems.MovesOnce | internal/identity/repository/contact_store.go:186-249 | in a whole run a verification changes its status at most once, and then out of `pending` |
| ContactTheorems.NeverReturns | internal/identity/repository/contact_store.go:157-184 | a deleted verification never comes back |
| ContactTheorems.PendingIsUnique | internal/identity/repository/contact_store.go:134-155 | at most one verification per user and kind is pending, so the `LIMIT 1` query finds exactly the pending ones; pending rows have attempts to spare and failed ones have used them all |
| ContactTheorems.AcceptedWasAnswered | internal/identity/service/contact.go:212-232 | a challenge counts as accepted only if some earlier step brought the acceptance of its provider |
| ContactTheorems.ContactIsProved | internal/identity/service/contact.go:234-270 | behind every bound contact stands a consumed verification of the same user, kind and value, consumed at the time the contact was verified and before it expired, for a challenge its provider accepted |
| ContactTheorems.BindsOnce | internal/identity/service/contact.go:233-283 | however many Confirm requests for it are in flight, a verification binds a contact at most once in a run |
| ContactTheorems.ConfirmBindsIff | internal/identity/service/contact.go:233-283 | after the provider accepted, a Confirm binds exactly if its verification is still pending and in time and no other user has the value; binding stores the contact in place of the former one of the user and kind and consumes the verification |
| ContactTheorems.NamesOne | internal/identity/repository/store.go:83-109 | a login identifier names at most one user |
| ContactTheorems.AliasWasVerified | internal/identity/repository/store.go:83-109 | an email address or phone number leads a login only to a user with a consumed verification of it whose challenge the provider accepted |
| ContactTheorems.ContactLogsIn | internal/identity/repository/store.go:83-109 | the value of a bound contact is read as a login identifier of its own kind and leads to its owner |
| ContactOrigins.ConfirmBindsOrRefuses | internal/identity/service/contact.go:233-283 | a Confirm transaction without an error always produced a contact, and the contact it answers with is in the table |
| ContactProtocol.ConfirmExpiresOnlyBeforeTheCall | internal/identity/service/contact.go:200-247 | a Confirm marks a row expired exactly when it had expired before the provider was called; expiry found inside the transaction is rolled back and the row stays pending |
| ContactReasons.ChangesForAReason | internal/identity/service/contact.go:122-283 | every change of a verification has its reason: expired only after its time and by a request that looked at it, failed only by the last refused code, consumed only in time by an accepted one, cancelled only by something newer of the same user and kind |
| ContactReasons.StartPacesResends | internal/identity/service/contact.go:97-132 | a Start that is ready (active user, value well formed and free, a provider for the kind) goes ahead exactly if no pending verification of the user and kind is both unexpired and younger than the resend interval, and is refused for the rate exactly if there is one |
| ContactTheorems.PaceIsKeptIff | internal/identity/service/contact.go:97-166 | in every run, from the finished Start that stored a verification until its resend interval is over, a ready Start of the same user and kind is refused for that verification exactly while it is still there, pending and unexpired |
| ContactTheorems.PendingEndsForAReason | internal/identity/service/contact.go:122-283 | between a world where a verification is pending and a later one where it is not lies a step that ended it for a reason: one of `ChangesForAReason`, or the deletion of its user |
| ContactReasons.LastRefusalEndsThePace | internal/identity/repository/contact_store.go:205-227 | the resend interval can be lost without overlap: when the last code a new verification allows is refused, the Start it held back goes ahead at the same moment |
| ContactReasons.OverlappingStartsBothPass | internal/identity/service/contact.go:122-166 | it can be lost by overlap too: two Starts that both read before either writes both go through, and the second cancels the first |
| ContactAttempts.AttemptsAreRefusals | internal/identity/repository/contact_store.go:205-227 | the failure count of a stored verification is the number of refusals in the run that came while it was pending |
| ContactAttempts.RefusalsAreBounded | internal/identity/repository/contact_store.go:205-227 | in a whole run at most `maxAttempts` refusals are counted for a verification, also when it is deleted |
| ContactAttempts.BindsBeforeTheLastRefusal | internal/identity/service/contact.go:192-283 | a verification binds a contact only if fewer than `maxAttempts` codes for it, counted or not, were refused before: never after the last one |
| ContactAttempts.AnyNumberOfGuesses | internal/identity/service/contact.go:192-211 | the failure count does not bound how many codes are tried: every run that reaches a pending unexpired verification whose provider is configured goes on with any number of Confirm requests for it at the provider at once, the tables unchanged |
| ContactAttempts.AnyGuessMayBind | internal/identity/service/contact.go:233-283 | each of those requests, accepted before the others are refused, binds and stores the contact unless another user has the value |
| ContactOrigins.BindStores | internal/identity/repository/contact_store.go:68-97 | in a run, the step that binds a verification stores its user, kind and value as a contact verified at that moment, drops the former contact of the user and kind, leaves every other, and consumes the verification |
| ContactOrigins.ContactWasBound | internal/identity/service/contact.go:233-283 | every contact of a run is, as it stands, the one that some earlier Confirm bound |
| ContactOrigins.VerificationWasAsked | internal/identity/service/contact.go:97-166 | every verification goes back to a Start of a user active then, with the normalized value that was given, the provider configured for its kind and an expiry within the time to live, and was stored by the end of that Start |
| ContactOutcomes.StartAnswers | internal/identity/service/contact.go:97-132 | a Start goes on to the provider of its kind, phone or email, with the normalized value, exactly if the user is active, nobody has the value and nothing pending holds it back |
| ContactOutcomes.StartRefusals | internal/identity/service/contact.go:97-132 | which error refuses a Start, by what is wrong, in the order looked for |
| ContactOutcomes.StartMarksExpired | internal/identity/service/contact.go:122-130 | a Start marks exactly the pending verification it supersedes as expired, and only if it is past its time |
| ContactOutcomes.StartStoresIff | internal/identity/service/contact.go:133-166 | a reply is stored exactly if it names the provider asked and a new challenge with time left and the user still exists; each refusal has its error and changes nothing |
| ContactOutcomes.StartStores | internal/identity/service/contact.go:138-166 | the stored row has the earlier of the time to live and the expiry of the provider, and takes the place of what was pending for the user and kind |
| ContactOutcomes.ConfirmAnswers | internal/identity/service/contact.go:175-211 | a Confirm goes on to the provider exactly if the code is not blank and the verification is its user and kind, pending, in time and of the provider configured; each refusal has its error |
| ContactOutcomes.ConfirmMarksExpired | internal/identity/service/contact.go:200-204 | before the provider is called exactly a pending verification past its time is marked expired |
| ContactOutcomes.RefusalAnswers | internal/identity/service/contact.go:212-232 | a refusal counts exactly if the provider called the code wrong and the row is pending and was in time when read; it fails the row at the limit, changes nothing else, and is answered by what it found |
| ContactOutcomes.AcceptanceAnswers | internal/identity/service/contact.go:233-283 | an accepted code binds exactly under the guards of the transaction; otherwise nothing changes and the error says which guard failed |
| ContactOutcomes.BindingStores | internal/identity/repository/contact_store.go:68-97 | a Confirm that answers with a contact stored that contact, removed exactly the other contacts of the user and kind, consumed the verification and cancelled what else was pending |
| ContactOutcomes.UnbindAnswers | internal/identity/service/contact.go:286-309 | Unbind removes exactly the contact of the user and kind and cancels what is pending for it, exactly if there is a contact |
| AccountProtocol.StepKeeps | internal/identity/service/account.go:41-366 | every account, password and session operation keeps the account and role invariants |
| SessionTheorems.LogIsHistory | internal/identity/repository/store.go:328-335 | the log of a session is the history of its run: `touched` counts the finished resolutions that changed its row, `settled` is the latest clock it was opened or resolved with |
| SessionTheorems.OpenedIff | internal/identity/service/account.go:191-252 | the log names a password for a session exactly if an earlier `Login` or `RegisterAndLogin` step with that password inserted its row |
| SessionTheorems.LiveSessionHasCurrentPassword | internal/identity/service/account.go:191-366 | from the step on at which a `Login` or `RegisterAndLogin` opened a session, and while it is unrevoked, a credential check of its user succeeds with exactly the password of that step, across all interleavings with changes, resets and late rehashes |
| AccountTheorems.LiveSessionHasActiveOwner | internal/identity/service/user.go:161-202 | the owner of an unrevoked session exists and is active in both columns |
| AccountTheorems.DeadTokenStaysDead | internal/identity/repository/store.go:336-379 | once a session is revoked or its row gone, its token never resolves again, whatever happens later |
| AccountTheorems.SecretChangesOnlyWhenSet | internal/identity/service/password.go:324-385 | the set of values that verify for a user changes only when a password is set; a rehash racing with anything leaves every value accepted or refused as before |
| AccountTheorems.CurrentStaysCurrent | internal/identity/service/password.go:354-366 | a hash made under the current policy never becomes stale again |
| AccountTheorems.UpgradesOnce | internal/identity/repository/store.go:264-282 | at most one rehash of a user takes effect in a whole run, however many checks raced to write one |
| SessionTheorems.TouchesFitInLifetime | internal/identity/repository/store.go:328-335 | the number of steps of a run that moved a session forward, times the touch interval, stays below its time to live, also when resolutions write late and when the row is gone |
| SessionTheorems.IdleWindow | internal/identity/service/session.go:145-171 | with L the latest clock among the steps that opened the session or finished a resolution of it, `last_seen_at` is in (L - touch, L]; a session idle for `idle` since L is refused, one idle for at most `idle - touch` is not |
| AccountTheorems.ShortIdleIsAbsolute | internal/identity/service/session.go:145-171 | if the idle timeout is at most the touch interval, `last_seen_at` never advances and the token dies by its creation plus the smaller limit |
| AccountTheorems.ResolvesExactly | internal/identity/service/session.go:110-171 | in a reachable world a session resolves exactly while it is unrevoked, unexpired and not idle, for requests whose binding matches; a mismatch is answered as such, and its owner is never in the way |
| SessionTheorems.PrincipalIsTruthful | internal/identity/service/session.go:110-179 | a resolution about to answer was begun by an earlier step with its token; its principal describes the session and user as they were at that step, live, unexpired and active, even if their rows are gone by now, and carries exactly the roles and permissions the user has at the end, none if the user is gone |
| AccountTheorems.UserEventsBalance | internal/identity/service/user.go:51-78 | in the log of a run, `UserCreated` events minus `UserDeleted` events, counting the users the run began with, is the number of users |
| AccountTheorems.SessionAnnouncedOnce | internal/identity/service/session.go:68-109 | in the log of a run, a session has one `SessionCreated` event if it was ever committed, and none otherwise |
| AccountTheorems.DeletionIsExact | internal/identity/repository/store.go:206-239 | deleting users removes them and every account, contact, verification and role row that refers to them, changes no other row, and changes nothing when it is refused |
| Simulation.DeletionIsInvisible | internal/identity/repository/store.go:373-379 | every run has a twin without `DeleteExpired` steps that accepts the same tokens at the same times, answers with the same principals and agrees on every table but the sessions |
| StoreTheorems.RunIsValid | internal/identity/repository/models.go:12-172 | unique indexes, references to users and the single pending verification hold in every reachable world, so the preconditions of the service methods below are always met |
| AccountOrigins.AuthenticatesExactly | internal/identity/service/password.go:386-411 | in a reachable world an identifier and a password authenticate a user exactly if the identifier names the user, the user is active in both columns and the password is accepted |
| AccountOrigins.SessionWasGranted | internal/identity/service/account.go:138-286 | every session goes back to the step that opened it, which was entitled to: a login the guard let and whose input authenticated the user, the registration of the user, or an issue for an active user, each with a good binding |
| AccountOutcomes.AuthenticatesIff | internal/identity/service/password.go:386-411 | the same for any tables in which an identifier names at most one user; every other input is answered alike |
| AccountOutcomes.CreationAnswers | internal/identity/service/user.go:51-78 | a user is created exactly under a well formed, free username, with the state asked for in both columns; no other row changes |
| AccountOutcomes.StateIsSet | internal/identity/service/user.go:161-202 | the users asked for have the state asked for, in both columns, and when disabling no session of theirs is left live; nothing else changes, and a refusal says whether nothing was asked or someone is unknown |
| AccountOutcomes.DeletionAnswers | internal/identity/service/user.go:210-261 | when a deletion is refused, and why |
| AccountOutcomes.CheckAnswers | internal/identity/service/password.go:303-339 | a check succeeds exactly if the value is accepted, and then leaves a current hash of it, a stale one replaced with the time of the last change kept |
| AccountOutcomes.LateUpgrade | internal/identity/service/password.go:303-337 | outside a transaction a check has an upgrade left to write exactly if the hash it read was stale |
| AccountOutcomes.UpgradeIsWritten | internal/identity/repository/store.go:264-282 | the upgrade replaces the hash exactly if the row still holds the one that was read |
| AccountOutcomes.ResetAnswers | internal/identity/service/account.go:331-366 | a reset is done exactly for a known user and a password the policy allows; it sets the hash and its times and revokes exactly the unrevoked sessions of the user |
| AccountOutcomes.ChangeAnswers | internal/identity/service/account.go:288-329 | a change is done exactly for an active user with the current password and one the policy allows; each refusal has its error |
| AccountOutcomes.OpeningAnswers | internal/identity/service/session.go:68-109 | a session is opened exactly for an active user, under a good binding, with a new id and token; the row lives for the time to live and the login is noted |
| AccountOutcomes.LoginAnswers | internal/identity/service/account.go:191-252 | a login succeeds exactly if the guard lets it, the input authenticates a user and the session can be opened; it upgrades a stale hash |
| AccountOutcomes.ResolutionAnswers | internal/identity/service/session.go:110-171 | a token resolves exactly for a session that is unrevoked, in time, not idle, whose binding matches and whose user is active; each refusal has its error, in the order looked for |
| AccountOutcomes.TouchAnswers | internal/identity/repository/store.go:328-335 | a resolution moves exactly its own session, and exactly if the interval had passed and the row is unrevoked and was not moved since |
| AccountOutcomes.RevocationAnswers | internal/identity/service/session.go:195-247 | revoking a token or an id marks exactly its row |
| AccountOutcomes.RevokingUsersAnswers | internal/identity/repository/store.go:351-363 | revoking for users marks exactly their unrevoked sessions |
| AccountOutcomes.ExpiryAnswers | internal/identity/repository/store.go:373-379 | exactly the sessions with time left survive the deletion of expired ones |
| AccountOutcomes.RegistrationAnswers | internal/identity/service/account.go:41-72 | a user is registered exactly if the policy allows the password, the username is free and every default role exists, and then has that password and exactly the default roles |
| AccountOutcomes.ProvisionAnswers | internal/identity/service/account.go:76-134 | a user is provisioned exactly in the active state, with at least one code, all of existing roles, under an allowed password; each refusal has its error |
| AccountOutcomes.RegisterAndLoginAnswers | internal/identity/service/account.go:138-186 | registering with a login does both or neither, and is refused for what the first half or the session lacks |
| StepOutcomes.ContactStepDoes | internal/identity/service/contact.go:97-309 | in a reachable world every contact step takes effect exactly when it may: requests go on, verifications are stored, contacts bound and removed |
| StepOutcomes.AccountStepDoes | internal/identity/service/account.go:41-366 | in a reachable world every account step that opens no session takes effect exactly when it may, and then is the whole change of the tables |
| StepOutcomes.SessionsAreOpened | internal/identity/service/account.go:138-286 | a login, registration with login or issue opens its session exactly if it is entitled to for some user |
| StepOutcomes.UpgradesAreBegun | internal/identity/service/password.go:303-337 | a check of an active user that meets a stale hash leaves an upgrade to write, to a current hash of the same value |
| StepOutcomes.RoleStepDoes | internal/identity/service/authorization.go:88-273 | every step on roles, permissions and links takes effect exactly when it may and changes nothing else |
| RoundTrips.RegisteredAuthenticates | internal/identity/service/account.go:41-72 | a user registered as active authenticates under the normalized username with exactly the password given |
| RoundTrips.ProvisionIsExact | internal/identity/service/account.go:74-134 | a provisioned user is active, has exactly the password given and exactly the normalized requested roles; everyone else keeps theirs |
| RoundTrips.SetPasswordIsExact | internal/identity/service/account.go:288-366 | after a password is set exactly it is accepted, no session of the user is live, and nobody else is affected |
| RoundTrips.ChangeIsCheckedReset | internal/identity/service/account.go:288-366 | a change of password succeeds exactly for an active user who gives the current one, and then leaves what a reset would have left |
| RoundTrips.IssuedTokenResolves | internal/identity/service/session.go:68-171 | an issued token resolves to its user until the session runs out, by time to live or idling, and is refused as expired from then on |
| RoundTrips.RevokedTokenIsRefused | internal/identity/service/session.go:221-247 | a revoked token is refused as revoked at any time |
| RoundTrips.OnlyCurrentHashesStay | internal/identity/service/password.go:142-168 | of the hashes that verify anything exactly those made by the current policy need no rehash, and hashes of fallback schemes verify |
| Argon2id.ParseFields | internal/identity/service/password.go:182-192 | the loop over the parameter fields accepts each of m, t, p once and returns what they say |
| Argon2id.ParsePrint | internal/identity/service/password.go:170-209 | parsing a printed credential returns exactly its parameters, salt and key, within the length limit |
| Argon2id.PrintLength | internal/identity/service/password.go:46-57 | a printed credential is at most 561 characters long |
| Argon2id.ReprintParsed | internal/identity/service/password.go:170-209 | whatever the parser accepts, printing it again gives a text that parses the same |
| Argon2id.ParameterOrderIrrelevant | internal/identity/service/password.go:178-202 | the three parameter fields mean the same in any of the six orders |
| Argon2id.AllParametersPresent | internal/identity/service/password.go:178-192 | three accepted fields are exactly m, t and p |
| Argon2id.VerifyHash | internal/identity/service/password.go:58-65 | a hash verifies for its own value, and for another exactly when that derives the same key |
| Argon2id.NeedsRehashHash | internal/identity/service/password.go:70-76 | a hash needs rehashing exactly when its parameters are not the current ones |
| Encoding.DecodeEncode | internal/identity/service/password.go:55-56 | unpadded base64 decodes what it encodes |
| Encoding.DecimalValue | internal/identity/service/password.go:56-56 | a printed number reads back as itself |
| Credentials.NewHasherChain | internal/identity/service/password.go:125-140 | a hasher chain is built exactly from named, pairwise different schemes |
| Credentials.VerifiesAlike | internal/identity/service/password.go:58-65 | a stored text is accepted for a value exactly when the ideal hash of the account model is |
| Credentials.StaleAlike | internal/identity/service/password.go:70-76 | a stored text needs rehashing exactly when the ideal hash does |
| Credentials.EqualAlike | internal/identity/repository/store.go:264-282 | two stored texts are equal, which is what the compare-and-swap compares, exactly when the ideal hashes are |
| Identifiers.NormalizeUsername | pkg/identity/domain/types.go:725-750 | the byte scanner accepts exactly the usernames of the language, trimmed |
| Identifiers.NormalizePhone | pkg/identity/domain/types.go:752-769 | the byte scanner accepts exactly the E.164 numbers of the language, and the empty text |
| Identifiers.PostgresAgrees | internal/identity/repository/models.go:24-32 | the PostgreSQL expression with its length bound accepts exactly the usernames the scanner accepts |
| Identifiers.SqliteAgrees | internal/identity/repository/models.go:24-32 | the SQLite constraint accepts exactly the texts whose part before a NUL is a username |
| Identifiers.SqliteIgnoresTail | internal/identity/repository/models.go:24-32 | on its own the SQLite constraint accepts any username followed by a NUL and anything at all, which is no username |
| Identifiers.UsernameLanguagesAgree | pkg/identity/domain/types.go:725-750 | on texts without a NUL the three definitions of a username are the same language |
| Identifiers.EmailAcceptedIff | pkg/identity/domain/types.go:771-788 | an email address is accepted exactly if it is a short enough addr-spec of the modelled grammar: parsing it again in lower case refuses nothing more |
| Identifiers.NormalizedEmail | pkg/identity/domain/types.go:771-788 | email normalization is idempotent, and only blank text normalizes to nothing |
| Identifiers.NormalizedShapes | pkg/identity/domain/types.go:752-788 | normalized phone numbers and email addresses, described without the normalizers |
| Identifiers.KindsDisjoint | pkg/identity/domain/types.go:790-817 | no text is normal for two kinds |
| Identifiers.StoredValueResolvesToItself | pkg/identity/domain/types.go:790-817 | every stored value is read back as itself, under its own kind |
| Identifiers.ValidIffProduced | pkg/identity/domain/types.go:834-858 | `ValidateLoginIdentifier` accepts exactly the outputs of `NormalizeLoginIdentifier` |
| Identifiers.AttemptPreimageInjective | pkg/identity/domain/types.go:822-832 | two inputs share a throttling key exactly when they normalize alike |
| Strings.TrimSpaceIff | pkg/identity/domain/types.go:726-726 | trimming finds the one text without outer white space that the input surrounds with white space |
| Identifiers.UsernameAcceptedIff | pkg/identity/domain/types.go:725-750 | a username is read from exactly the texts that have it between white space |
| Identifiers.PhoneAcceptedIff | pkg/identity/domain/types.go:752-769 | a phone number is read from exactly the texts that have it between white space |
| Identifiers.ContactValueIff | internal/identity/service/contact.go:319-345 | the value of a contact is a phone number or an address by its kind, never the empty text |
| Identifiers.LoginIdentifierIff | pkg/identity/domain/types.go:790-817 | a text that is not too long is read as exactly the kinds it is accepted for, and refused if there is none |
| Rbac.CodeAcceptedIff | internal/identity/service/authorization.go:359-374 | a code is read from exactly the texts that have it, in either case, between white space |
| RoleOutcomes.CreationAnswers | internal/identity/service/authorization.go:88-100 | a role or permission is created exactly under a well formed free code; no other row changes |
| RoleOutcomes.EnsuringAnswers | internal/identity/repository/authorization_store.go:73-80 | ensuring writes the flag of the row that has the code, or a new row if none has |
| RoleOutcomes.RenamingAnswers | internal/identity/repository/authorization_store.go:81-96 | a row is renamed exactly if it exists and no other has the code; its system flag stays |
| RoleOutcomes.RoleDeletionAnswers | internal/identity/repository/authorization_store.go:97-119 | a role is deleted exactly if it exists and is no system role, with exactly its links |
| RoleOutcomes.PermissionDeletionAnswers | internal/identity/repository/authorization_store.go:204-223 | a permission is deleted exactly if it exists and is no system permission, with exactly its links |
| RoleOutcomes.FirstFailure | internal/identity/service/authorization.go:281-303 | a refused list of codes is refused for its first code that is malformed or names nothing |
| RoleOutcomes.SettingRolesAnswers | internal/identity/service/authorization.go:236-303 | roles are set exactly if the user exists and every code names a role, and then exactly the links of the user change |
| RoleOutcomes.SettingPermissionsAnswers | internal/identity/service/authorization.go:259-327 | permissions are set exactly if the role exists and every code names a permission, and then exactly the links of the role change |
| Rbac.NormalizeCode | internal/identity/service/authorization.go:359-374 | the loop accepts exactly the codes of the language, after trimming and lower-casing |
| Rbac.ResolveIsExact | internal/identity/service/authorization.go:281-327 | the ids resolved are exactly those of the normalized requested codes |
| Rbac.SetUserRolesIsExact | internal/identity/service/authorization.go:281-303 | after `SetUserRoles` the codes of the user are exactly the normalized requested ones; nobody else changes |
| Rbac.SetRolePermissionsIsExact | internal/identity/service/authorization.go:305-327 | after `SetRolePermissions` a user reaches through the role exactly the normalized requested permissions, and otherwise what it reached before |
| Rbac.DeleteRoleIsExact | internal/identity/repository/authorization_store.go:97-119 | deleting a role takes its code, and the permissions only it led to, from every user |
| Rbac.DeletePermissionIsExact | internal/identity/repository/authorization_store.go:204-223 | deleting a permission takes exactly its code from every user |
| Rbac.RenamePermissionIsExact | internal/identity/repository/authorization_store.go:188-202 | renaming a permission renames it for everyone who reaches it, and changes nothing else |
| Rbac.ClaimsIgnoreDanglingLinks | internal/identity/repository/authorization_store.go:307-344 | links with a missing end are invisible to claims |
| Rbac.PermissionCodesAreReached | internal/identity/repository/authorization_store.go:307-344 | the permission codes of a user are exactly those reached through a role |
| Claims.Compact | pkg/identity/module.go:425-434 | the in-place filter never overwrites what is still unread: the kept prefix is the distinct non-empty elements of the original array, the rest of the array is untouched |
| Claims.DistinctIsExact | pkg/identity/module.go:425-445 | exactly the non-empty elements are kept, once each, in the order of their first occurrence |
| Claims.DistinctFixed | pkg/identity/module.go:425-445 | a list merged before is left as it is |
| Claims.MergeClaims | pkg/identity/module.go:418-455 | merged claims are base then extra without duplicates or blanks, extra attributes win, and the inputs are left as they were |
| Claims.ListUserClaims | internal/identity/repository/authorization_store.go:307-344 | for the rows of the join in any order and number, the result is the sorted duplicate-free codes the user has and reaches |
| Claims.ClaimsDetermined | internal/identity/repository/authorization_store.go:307-344 | claims do not depend on the order of the rows nor on dangling links |
| Claims.ClaimsAfterSetUserRoles | internal/identity/service/authorization.go:236-249 | the claims read after `SetUserRoles` list exactly the normalized requested roles |
| Claims.HasPermission | internal/identity/service/authorization.go:75-86 | a permission is granted exactly if it is not blank and the trimmed text is among the claims |
| Claims.Authorize | internal/identity/service/authorization.go:65-73 | authorization succeeds exactly for an active principal with the permission, and says which of the two is missing |
| Claims.GrantedIffReachedOrSupplied | pkg/identity/module.go:88-101 | `HasPermission` grants exactly the questions that, trimmed, are not blank and are a permission the user reaches through a role or the host supplies |
| Claims.SuppliedIsGrantedIffTrimmed | internal/identity/service/authorization.go:75-86 | every permission reached through a role is granted as it stands; one the host supplies is always listed, and granted as it stands exactly if it has no outer white space or its trimmed form is reached or supplied too |
| Claims.UntrimmedIsNeverGranted | internal/identity/service/authorization.go:75-86 | a supplied permission with outer white space, alone in the claims, is listed while no question at all is granted |
| ImageChallenge.ImageProvider.Put | pkg/identity/challenge/image.go:99-115 | a challenge is refused exactly when as many unexpired ones as allowed are held, and otherwise stored with its expiry; expired ones go in either case |
| ImageChallenge.ImageProvider.VerifyAndDelete | pkg/identity/challenge/image.go:117-134 | an answer is accepted exactly if it is the stored one, trimmed and case-folded, in time; any answer that is not blank uses the challenge up |
| ImageChallenge.ImageProvider.Cleanup | pkg/identity/challenge/image.go:136-142 | the loop removes exactly the expired challenges |
| ImageChallenge.NeverOverfull | pkg/identity/challenge/image.go:99-115 | the table never holds more than its limit |
| ImageChallenge.RefusedIffFull | pkg/identity/challenge/image.go:99-115 | a creation is refused exactly when the table holds its limit of challenges unexpired at the clock of the creation |
| ImageChallenge.TableIsExact | pkg/identity/challenge/image.go:99-142 | after any run the table holds exactly the challenges that nothing removed since they were stored |
| ImageChallenge.SucceedsIffAnswered | pkg/identity/challenge/image.go:117-134 | in a run an answer is accepted exactly if an unanswered challenge of that id was stored with it and is still in time |
| ImageChallenge.AnsweredOnce | pkg/identity/challenge/image.go:117-134 | any answer to an id, right or wrong, uses it up until the id is stored again |
| ImageChallenge.SucceedsOnce | pkg/identity/challenge/image.go:117-134 | an id handed out once is answered with success at most once |
| Repository.Store.DeleteUsers | internal/identity/repository/store.go:206-239 | the loop succeeds exactly on distinct existing ids and then leaves the store without them and their rows |
| Repository.Store.UpdateUserState | internal/identity/repository/store.go:175-192 | writes both state columns of the users found and counts them |
| Repository.Store.DeleteExpiredSessions | internal/identity/repository/store.go:373-379 | deletes exactly the expired sessions and counts them |
| Repository.Store.ReplaceUserContact | internal/identity/repository/contact_store.go:68-97 | replaces the contact of the user and kind unless another user has the value; a refused insert leaves the deletion to be rolled back |
| Repository.Store.ReplaceUserRoles | internal/identity/repository/authorization_store.go:241-264 | links the user to exactly the given roles, however often they are listed |
| Repository.Store.ReplaceRolePermissions | internal/identity/repository/authorization_store.go:282-305 | links the role to exactly the given permissions, however often they are listed |
| Repository.Store.GetUserByLoginIdentifier | internal/identity/repository/store.go:83-109 | finds the user a valid identifier names |
| ContactServices.ContactService.StartFinish | internal/identity/service/contact.go:133-173 | runs as the protocol step it is proved against, the transaction undone when the insert is refused |
| ContactServices.ContactService.ConfirmAccepted | internal/identity/service/contact.go:233-283 | runs as the protocol step it is proved against; every error, expiry included, restores the tables |
| ContactServices.ContactService.Unbind | internal/identity/service/contact.go:286-309 | removes the contact and cancels what is pending, or changes nothing |
| AccountServices.NormalizeUserIds | internal/identity/service/user.go:266-281 | the loop keeps every id once |
| AccountServices.AllFoundIff | internal/identity/service/user.go:181-187 | the number of rows updated equals the number of distinct ids exactly if all of them exist |
| AccountServices.UserService.SetState | internal/identity/service/user.go:161-202 | changes all the users asked for and revokes their sessions when disabling, or changes nothing if one is unknown |
| AccountServices.UserService.DeleteUsers | internal/identity/service/user.go:210-264 | deletes all the users asked for and announces each once after the commit, or changes and announces nothing |
| AccountServices.PasswordService.Authenticate | internal/identity/service/password.go:386-411 | authenticates exactly whom the identifier names, if active and the password fits, and says the same in every other case |
| AccountServices.AuthorizationService.ReplaceUserRoles | internal/identity/service/authorization.go:281-303 | the resolving loop stops at the first bad code without a change, and otherwise sets exactly the resolved roles |
| AccountServices.AuthorizationService.ReplaceRolePermissions | internal/identity/service/authorization.go:305-327 | the same loop for the permissions of a role |
| AccountServices.NormalizeRequiredRoleCodes | internal/identity/service/account.go:378-398 | sorted, duplicate-free, exactly the normalized requested codes; refused exactly if there are none or one is malformed |
| AccountServices.AccountService.Register | internal/identity/service/account.go:41-72 | creates the user with default roles and password and announces it, or changes and announces nothing |
| AccountServices.AccountService.ProvisionUser | internal/identity/service/account.go:76-134 | resolving the sorted codes does the same as resolving the requested ones; all or nothing |
| AccountServices.AccountService.RegisterAndLogin | internal/identity/service/account.go:138-186 | user, password, session and login time in one transaction, announced after it, or nothing |
| AccountServices.AccountService.Login | internal/identity/service/account.go:191-252 | credential check, upgrade, session and login time in one transaction, announced after it, or nothing |
| AccountServices.AccountService.IssueSession | internal/identity/service/account.go:257-286 | session and login time for an active user in one transaction, or nothing |
| AccountServices.AccountService.ChangePassword | internal/identity/service/account.go:288-329 | check, upgrade, new hash and revocation in one transaction, or nothing |
| AccountServices.AccountService.ResetPassword | internal/identity/service/account.go:331-366 | new hash and revocation in one transaction, or nothing |
| Execution.Module.Perform | pkg/identity/module.go:198-416 | performing a step of a run with the services, on the store and the event sink, is taking that step of the protocol: same tables, same requests in flight, and the sink has received exactly the events the log of the step counts |
| Execution.Module.PerformAll | pkg/identity/module.go:198-416 | a whole run performed with the services ends in the last world of the run; what the sink received balances with the users in the store, and announces every session ever committed exactly once and no other |
| Execution.TallyDeletions | internal/identity/service/user.go:210-264 | the announcements of distinct deleted users add each of them once to what the sink is counted to have received |

## Left out

- HTTP handlers, cookies, middleware and status mapping.
- Schema inspection and the texts of driver errors: a refused insert is one of the domain errors.
- `challenge/remote.go`, captcha drawing, random bytes, UUID generation and the internals of Argon2, bcrypt and SHA-256.
- Isolation weaker than serializable, and interleavings finer than the two cuts: a clock read separated from the record
  read in Confirm, or the expiry write of Start separated from its read, would let an old value overwrite a settled row.
- A resend interval that survives the end of its verification: it does not hold (`ContactReasons.LastRefusalEndsThePace`,
  `ContactReasons.OverlappingStartsBothPass`); the exact condition is `ContactTheorems.PaceIsKeptIff`.
- Identifiers.EmailAcceptedIff: a domain literal need not hold an IP address, which Go's parser asks for; `net/mail` is not
  part of this model.
- The character classes of `PasswordPolicy` and the list of common passwords: the verdict is an input.
- Secondary hashers beyond their scheme name: a fallback verifies and always asks for a rehash, as in the chain.
- Columns no property speaks about: display name, avatar, addresses, user agents, binding hash, revocation reason,
  role names and descriptions.
- Profile edits, `MarkUserLogin` on its own, listings, filters and pages, `CreateWithUniqueUsername`.
- Events other than `UserCreated`, `UserDeleted` and `SessionCreated`.
- Request metadata: an unparsable client address refuses a request before anything is read.
- Queries that return several rows in an order of the database, except the rows behind claims.
