/** Entities, error values and permissions shared by every component of the wallet. */
module Domain {
  import Text

  datatype Result<+T> = Ok(value: T) | Err(error: Error)

  datatype Option<+T> = None | Some(value: T) {
    function GetOr(other: T): T {
      if Some? then value else other
    }
  }

  /** An instant, in nanoseconds from 0001-01-01T00:00:00Z. Zero is the absent time. */
  type Time = int

  const NO_TIME: Time := 0

  /** The start of UTC year 0 and the end of UTC year 9999. */
  const YEAR_ZERO: Time := -31_622_400_000_000_000
  const YEAR_TEN_THOUSAND: Time := 315_537_897_600_000_000_000

  /** A time whose stored text has a year of four digits, and so can be read back. */
  predicate InYears(t: Time) {
    YEAR_ZERO <= t < YEAR_TEN_THOUSAND
  }

  /** The largest BIGINT, and so the largest balance a row can hold. */
  const MAX_INT64: int := 0x7FFF_FFFF_FFFF_FFFF

  const KIND_EARN := "earn"
  const KIND_SPEND := "spend"

  const PERM_ACCOUNT_READ_OWN := "account:read:own"
  const PERM_ACCOUNT_READ_ALL := "account:read:all"
  const PERM_ACCOUNT_WRITE_OWN := "account:write:own"
  const PERM_ACCOUNT_WRITE_ALL := "account:write:all"
  const PERM_AUDIT_READ_OWN := "audit:read:own"
  const PERM_AUDIT_READ_ALL := "audit:read:all"
  const PERM_TRANSACTION_READ_OWN := "transaction:read:own"
  const PERM_TRANSACTION_READ_ALL := "transaction:read:all"
  const PERM_USER_READ_OWN := "user:read:own"
  const PERM_USER_READ_ALL := "user:read:all"
  const PERM_WALLET_TRANSACT_OWN := "wallet:transact:own"
  const PERM_WALLET_TRANSACT_ALL := "wallet:transact:all"
  const PERM_WALLET_BATCH_ALL := "wallet:batch:all"
  const PERM_AUTH_LOGOUT := "auth:logout"

  datatype Role = Member | Admin

  /** Everything a role may do, with no wildcard. */
  function PermissionsForRole(role: Role): seq<string> {
    match role
    case Member => [PERM_ACCOUNT_READ_OWN, PERM_ACCOUNT_WRITE_OWN, PERM_AUDIT_READ_OWN,
                    PERM_TRANSACTION_READ_OWN, PERM_USER_READ_OWN, PERM_WALLET_TRANSACT_OWN,
                    PERM_AUTH_LOGOUT]
    case Admin => [PERM_ACCOUNT_READ_ALL, PERM_ACCOUNT_WRITE_ALL, PERM_AUDIT_READ_ALL,
                   PERM_TRANSACTION_READ_ALL, PERM_USER_READ_ALL, PERM_WALLET_TRANSACT_ALL,
                   PERM_WALLET_BATCH_ALL, PERM_AUTH_LOGOUT]
  }

  /** `claims` are the permissions of the login claim in the context; none when there is no claim. */
  predicate IsGranted(claims: seq<string>, permission: string) {
    permission in claims
  }

  /** No permission of a member reaches across owners; every data permission of an admin does. */
  lemma RoleScopes()
    ensures var member := PermissionsForRole(Member);
            && !IsGranted(member, PERM_ACCOUNT_READ_ALL) && !IsGranted(member, PERM_ACCOUNT_WRITE_ALL)
            && !IsGranted(member, PERM_TRANSACTION_READ_ALL)
    ensures var admin := PermissionsForRole(Admin);
            && IsGranted(admin, PERM_ACCOUNT_READ_ALL) && IsGranted(admin, PERM_ACCOUNT_WRITE_ALL)
            && IsGranted(admin, PERM_TRANSACTION_READ_ALL)
  {
    var lengths := [16, 17, 14, 20, 13, 19, 11];
    assert PERM_ACCOUNT_READ_ALL[13] == 'a' && PERM_ACCOUNT_READ_OWN[13] == 'o';
    assert PERM_ACCOUNT_WRITE_ALL[14] == 'a' && PERM_ACCOUNT_WRITE_OWN[14] == 'o';
    assert PERM_TRANSACTION_READ_ALL[17] == 'a' && PERM_TRANSACTION_READ_OWN[17] == 'o';
    var member := PermissionsForRole(Member);
    assert forall k :: 0 <= k < |member| ==> |member[k]| == lengths[k];
    var admin := PermissionsForRole(Admin);
    assert admin[0] == PERM_ACCOUNT_READ_ALL && admin[1] == PERM_ACCOUNT_WRITE_ALL && admin[3] == PERM_TRANSACTION_READ_ALL;
  }

  /** A permission that reaches across owners. */
  predicate IsAcross(permission: string) {
    |permission| >= 4 && permission[|permission| - 4..] == ":all"
  }

  /** A member holds none of those, whatever the permission. */
  lemma MembersReachNobodyElse()
    ensures forall p :: IsAcross(p) ==> p !in PermissionsForRole(Member)
    ensures IsAcross(PERM_ACCOUNT_READ_ALL) && IsAcross(PERM_ACCOUNT_WRITE_ALL) && IsAcross(PERM_TRANSACTION_READ_ALL)
  {
    var member := PermissionsForRole(Member);
    assert forall k :: 0 <= k < |member| ==> member[k] != "" && member[k][|member[k]| - 1] != 'l';
    forall p | IsAcross(p)
      ensures p !in member
    {
      AcrossEnds(p);
    }
  }

  lemma AcrossEnds(p: string)
    requires IsAcross(p)
    ensures p[|p| - 1] == 'l'
  {
    assert p[|p| - 1] == p[|p| - 4..][3];
  }

  datatype Account = Account(ownerID: string, name: string, balance: int)

  datatype Transaction = Transaction(
    id: string, ref: string, accountID: string, ownerID: string, kind: string, points: int,
    occurredAt: Time, recordedAt: Time, createdBy: string)

  datatype AuditOutcome = AuditAccepted | AuditRejected | AuditDuplicate

  datatype AuditEntry = AuditEntry(
    id: int, ref: string, accountID: string, ownerID: Option<string>, kind: string, points: int,
    outcome: AuditOutcome, reason: string, userID: string, createdAt: Time)

  datatype ProcessRequest = ProcessRequest(
    userID: string, ref: string, accountID: string, kind: string, points: int, occurredAt: Time)

  datatype Error =
    | NotFound
    | InsufficientBalance
    | Forbidden
    | DuplicateRef
    | AlreadyExists
    | Unauthorized
    | Unreadable                                        // a stored timestamp that does not parse
    | OutOfRange                                        // a BIGINT overflow raised by the UPDATE
    | Invalid(operation: string, reasons: seq<string>)  // a request that failed Validate
    | Storage(operation: string, cause: string)         // a statement, begin or commit that failed
    | RollbackFailed(cause: string, original: Error)

  /** The error underneath any failed rollbacks; the wrapper still matches what it wraps. */
  function Root(e: Error): Error {
    if e.RollbackFailed? then Root(e.original) else e
  }

  /** The text of an error that has no fixed reason of its own. */
  function Message(e: Error): string {
    match e
    case NotFound => "not found"
    case InsufficientBalance => "insufficient balance"
    case Forbidden => "forbidden"
    case DuplicateRef => "duplicate ref"
    case AlreadyExists => "already exists"
    case Unauthorized => "unauthorized"
    case Unreadable => "could not parse timestamp"
    case OutOfRange => "could not update account balance: bigint out of range"
    case Invalid(operation, reasons) =>
      "invalid request for " + operation + ": validation failed: " + Text.Join(reasons, "; ")
    case Storage(operation, cause) => "could not " + operation + ": " + cause
    case RollbackFailed(cause, original) =>
      "could not roll back transaction: " + cause + " (original error: " + Message(original) + ")"
  }

  /** The reason recorded for a rejected attempt. */
  function ReasonFor(e: Error): string {
    match Root(e)
    case InsufficientBalance => "insufficient balance"
    case NotFound => "unknown account"
    case Forbidden => "not account owner"
    case _ => Message(e)
  }

  /** Spends are debits; every other kind keeps the sign of its points. */
  function SignedDelta(kind: string, points: int): int {
    if kind == KIND_SPEND then -points else points
  }

  /** What `Validate` asks of a request before anything is read or written. */
  predicate ValidRequest(r: ProcessRequest) {
    && r.ref != "" && r.accountID != "" && r.userID != ""
    && (r.kind == KIND_EARN || r.kind == KIND_SPEND)
    && r.points > 0
  }
}
