/** Rows of the identity tables and the outcomes the services report.

    Identifiers are abstract UUIDv7 values, times are integers (one clock unit is
    the resolution of the host clock), and every error is one of the sentinels of
    `pkg/identity/domain/types.go`. */
module Types {

  datatype Option<+T> = None | Some(value: T)

  datatype Result<+T> = Ok(value: T) | Err(error: Error)
  {
    predicate IsFailure() {
      Err?
    }

    function PropagateFailure<U>(): Result<U>
      requires Err?
    {
      Err(error)
    }

    function Extract(): T
      requires Ok?
    {
      value
    }
  }

  datatype Error =
    | ErrInvalid
    | ErrNotFound
    | ErrConflict
    | ErrInvalidUsername
    | ErrUsernameTaken
    | ErrInvalidPhone
    | ErrInvalidEmail
    | ErrInvalidIdentifier
    | ErrContactTaken
    | ErrContactNotFound
    | ErrVerificationNotFound
    | ErrVerificationExpired
    | ErrVerificationInvalid
    | ErrVerificationUnavailable
    | ErrVerificationUnsupported
    | ErrDisabled
    | ErrInvalidState
    | ErrEmptySelection
    | ErrUnauthenticated
    | ErrExpired
    | ErrRevoked
    | ErrBindingMismatch
    | ErrWeakPassword
    | ErrRateLimited
    | ErrForbidden
    | ErrHumanChallengeInvalid
    | ErrHumanChallengeLimitExceeded

  function Max(a: int, b: int): int {
    if a < b then b else a
  }

  type UserId = nat
  type ContactId = nat
  type VerificationId = nat
  type SessionId = nat
  type RoleId = nat
  type PermissionId = nat

  datatype Kind = Phone | Email

  datatype UserState = Active | Disabled

  datatype User = User(
    username: string,
    state: UserState,
    disabledAt: Option<int>,
    createdAt: int,
    lastLoginAt: Option<int>,
    updatedAt: int)
  {
    /** The zero identifier cannot be stored, so only the two columns matter. */
    predicate IsActive() {
      state == Active && disabledAt == None
    }
  }

  datatype Contact = Contact(user: UserId, kind: Kind, value: string, verifiedAt: int)

  datatype Status = Pending | Consumed | Expired | Cancelled | Failed

  datatype Verification = Verification(
    user: UserId,
    kind: Kind,
    value: string,
    provider: string,
    challenge: string,
    status: Status,
    attempts: nat,
    expiresAt: int,
    createdAt: int,
    consumedAt: Option<int>)

  /** Role and permission rows share their shape; `system` rows cannot be deleted. */
  datatype CodeRow = CodeRow(code: string, system: bool)
}
