/** The wallet as one person sees it: each attempt runs alone, on the committed tables. */
module Wallet {
  import opened Domain

  /** The two tables an attempt can change for others to see. */
  datatype Books = Books(accounts: map<string, Account>, ledger: seq<Transaction>)

  /** One attempt: the claims in its context, the request, the clock it read and its fresh row id. */
  datatype Call = Call(claims: seq<string>, request: ProcessRequest, now: Time, uuid: string)

  datatype Outcome =
    | Accepted(transaction: Transaction, balance: int)
    | Duplicate(transaction: Transaction, balance: int)
    | Rejected(error: Error)

  datatype Processed = Processed(books: Books, outcome: Outcome)

  function FindRef(ledger: seq<Transaction>, ref: string): (r: Option<Transaction>)
    ensures r.Some? ==> r.value in ledger && r.value.ref == ref
    ensures r.None? ==> forall t :: t in ledger ==> t.ref != ref
  {
    if ledger == [] then None
    else
      var last := ledger[|ledger| - 1];
      var earlier := FindRef(ledger[..|ledger| - 1], ref);
      assert ledger == ledger[..|ledger| - 1] + [last];
      if earlier.Some? then earlier else if last.ref == ref then Some(last) else None
  }

  predicate Recorded(ledger: seq<Transaction>, ref: string) {
    FindRef(ledger, ref).Some?
  }

  /** The points the ledger holds for an account. */
  function LedgerSum(ledger: seq<Transaction>, accountID: string): int {
    if ledger == [] then 0
    else
      var last := ledger[|ledger| - 1];
      LedgerSum(ledger[..|ledger| - 1], accountID) + (if last.accountID == accountID then last.points else 0)
  }

  /** The scoped account read: someone else's account reads like a missing one. */
  predicate Visible(accounts: map<string, Account>, accountID: string, claims: seq<string>, userID: string) {
    accountID in accounts && (IsGranted(claims, PERM_ACCOUNT_READ_ALL) || accounts[accountID].ownerID == userID)
  }

  /** The scoped ledger read. */
  predicate Readable(t: Transaction, claims: seq<string>, userID: string) {
    IsGranted(claims, PERM_TRANSACTION_READ_ALL) || t.ownerID == userID
  }

  /** The row that was read can be turned into a transaction: its stored timestamps parse. */
  predicate Scannable(t: Transaction) {
    InYears(t.occurredAt) && InYears(t.recordedAt)
  }

  /** The UPDATE is pinned to the owner unless the caller may write every account. */
  predicate MayWrite(account: Account, claims: seq<string>, ownerID: string) {
    IsGranted(claims, PERM_ACCOUNT_WRITE_ALL) || account.ownerID == ownerID
  }

  function Delta(call: Call): int {
    SignedDelta(call.request.kind, call.request.points)
  }

  /** The business time of an attempt; an absent one is stamped with the clock. */
  function BusinessTime(call: Call): Time {
    if call.request.occurredAt == NO_TIME then call.now else call.request.occurredAt
  }

  /** The business time and the clock lie in years that can be read back. */
  predicate InTime(call: Call) {
    InYears(BusinessTime(call)) && InYears(call.now)
  }

  /** The ledger row an attempt inserts. */
  function NewRow(call: Call, ownerID: string): Transaction {
    var r := call.request;
    Transaction(call.uuid, r.ref, r.accountID, ownerID, r.kind, Delta(call),
                BusinessTime(call), call.now, r.userID)
  }

  /** The audit row of an attempt, before the table gives it an id. */
  function NewEntry(call: Call, ownerID: Option<string>, outcome: AuditOutcome, reason: string): AuditEntry {
    var r := call.request;
    AuditEntry(0, r.ref, r.accountID, ownerID, r.kind, Delta(call), outcome, reason, r.userID, call.now)
  }

  function SetBalance(accounts: map<string, Account>, accountID: string, balance: int): map<string, Account> {
    if accountID in accounts then accounts[accountID := accounts[accountID].(balance := balance)] else accounts
  }

  /** What a validated attempt does when nothing fails and nobody interferes. */
  function Process(b: Books, call: Call): Processed {
    var r := call.request;
    if !Visible(b.accounts, r.accountID, call.claims, r.userID) then Processed(b, Rejected(NotFound))
    else
      var account := b.accounts[r.accountID];
      var original := FindRef(b.ledger, r.ref);
      var after := account.balance + Delta(call);
      if original.Some? then
        if !Readable(original.value, call.claims, r.userID) then Processed(b, Rejected(NotFound))
        else if !Scannable(original.value) then Processed(b, Rejected(Unreadable))
        else Processed(b, Duplicate(original.value, account.balance))
      else if after > MAX_INT64 then Processed(b, Rejected(OutOfRange))
      else if after < 0 then Processed(b, Rejected(InsufficientBalance))
      else
        var row := NewRow(call, account.ownerID);
        Processed(Books(SetBalance(b.accounts, r.accountID, after), b.ledger + [row]), Accepted(row, after))
  }

  /** The audit row of an attempt says what was asked, by whom and when, the points with their sign, what
      came of it and why. */
  ghost predicate EntryOf(e: AuditEntry, call: Call, outcome: Outcome) {
    var r := call.request;
    && e.ref == r.ref && e.accountID == r.accountID && e.kind == r.kind && e.userID == r.userID && e.createdAt == call.now
    && (r.kind == KIND_EARN ==> e.points == r.points) && (r.kind == KIND_SPEND ==> e.points == -r.points)
    && match outcome
       case Accepted(t, _) => e.outcome == AuditAccepted && e.reason == "ok" && e.ownerID == Some(t.ownerID)
       case Duplicate(_, _) => e.outcome == AuditDuplicate && e.reason == "duplicate" && e.ownerID.Some?
       case Rejected(error) => e.outcome == AuditRejected && Explains(e.reason, error)
  }

  /** The reason recorded for an error: fixed words for three of them, beneath any failed rollback. */
  ghost predicate Explains(reason: string, error: Error) {
    match Root(error)
    case InsufficientBalance => reason == "insufficient balance"
    case NotFound => reason == "unknown account"
    case Forbidden => reason == "not account owner"
    case _ => reason == Message(error)
  }

  // ---------------------------------------------------------------- what the answers mean

  /** The caller may act on the account: it is theirs, or they read every account. */
  ghost predicate Reaches(b: Books, call: Call) {
    var a := call.request.accountID;
    a in b.accounts && (PERM_ACCOUNT_READ_ALL in call.claims || b.accounts[a].ownerID == call.request.userID)
  }

  /** What the account would hold: an earn adds the points, a spend takes them away. */
  ghost predicate WouldHold(b: Books, call: Call, balance: int) {
    var r := call.request;
    r.accountID in b.accounts
    && (r.kind == KIND_EARN ==> balance == b.accounts[r.accountID].balance + r.points)
    && (r.kind == KIND_SPEND ==> balance == b.accounts[r.accountID].balance - r.points)
  }

  /** An acceptance: the ref is new; the balance moves by the points, up for an earn and down for a
      spend, within bounds, and is the one reported; and one row is added that says so. */
  ghost predicate Posted(b: Books, call: Call, b': Books, t: Transaction, balance: int) {
    var r := call.request;
    && Reaches(b, call) && WouldHold(b, call, balance) && 0 <= balance <= 0x7FFF_FFFF_FFFF_FFFF
    && (forall row :: row in b.ledger ==> row.ref != r.ref)
    && b'.accounts == b.accounts[r.accountID := b.accounts[r.accountID].(balance := balance)]
    && b'.ledger == b.ledger + [t]
    && (r.kind == KIND_EARN ==> t.points == r.points) && (r.kind == KIND_SPEND ==> t.points == -r.points)
    && t == Transaction(call.uuid, r.ref, r.accountID, b.accounts[r.accountID].ownerID, r.kind, t.points,
                        if r.occurredAt == NO_TIME then call.now else r.occurredAt, call.now, r.userID)
  }

  /** A row on record under the ref that the caller may read. */
  ghost predicate OnFile(b: Books, call: Call, t: Transaction) {
    && t in b.ledger && t.ref == call.request.ref
    && (PERM_TRANSACTION_READ_ALL in call.claims || t.ownerID == call.request.userID)
  }

  ghost predicate InReadableYears(t: Transaction) {
    YEAR_ZERO <= t.occurredAt < YEAR_TEN_THOUSAND && YEAR_ZERO <= t.recordedAt < YEAR_TEN_THOUSAND
  }

  /** A duplicate: the recorded row, and the balance the account has now. */
  ghost predicate Repeated(b: Books, call: Call, t: Transaction, balance: int) {
    && Reaches(b, call) && OnFile(b, call, t) && InReadableYears(t)
    && balance == b.accounts[call.request.accountID].balance
  }

  /** A rejection has its ground in the books. */
  ghost predicate Grounded(b: Books, call: Call, error: Error) {
    var r := call.request;
    match error
    case NotFound =>
      !Reaches(b, call) || exists t :: t in b.ledger && t.ref == r.ref && !OnFile(b, call, t)
    case Unreadable => Reaches(b, call) && exists t :: OnFile(b, call, t) && !InReadableYears(t)
    case InsufficientBalance =>
      && Reaches(b, call) && (forall t :: t in b.ledger ==> t.ref != r.ref)
      && exists balance :: WouldHold(b, call, balance) && balance < 0
    case OutOfRange =>
      && Reaches(b, call) && (forall t :: t in b.ledger ==> t.ref != r.ref)
      && exists balance :: WouldHold(b, call, balance) && balance > 0x7FFF_FFFF_FFFF_FFFF
    case _ => false
  }

  /** What an outcome means for the books before and after it. */
  ghost predicate Means(b: Books, call: Call, b': Books, outcome: Outcome) {
    match outcome
    case Accepted(t, balance) => Posted(b, call, b', t, balance)
    case Duplicate(t, balance) => b' == b && Repeated(b, call, t, balance)
    case Rejected(error) => b' == b && Grounded(b, call, error)
  }

  /** The request could be acted on at all. */
  ghost predicate WellFormed(r: ProcessRequest) {
    r.ref != "" && r.accountID != "" && r.userID != "" && (r.kind == "earn" || r.kind == "spend") && r.points >= 1
  }

  lemma ProcessMeans(b: Books, call: Call)
    requires ValidRequest(call.request)
    ensures Means(b, call, Process(b, call).books, Process(b, call).outcome)
  {
    var r := call.request;
    KindsDiffer();
    if Visible(b.accounts, r.accountID, call.claims, r.userID) {
      var original := FindRef(b.ledger, r.ref);
      if original.Some? {
        assert OnFile(b, call, original.value) <==> Readable(original.value, call.claims, r.userID);
      } else {
        assert WouldHold(b, call, b.accounts[r.accountID].balance + Delta(call));
      }
    }
  }

  lemma KindsDiffer()
    ensures KIND_EARN != KIND_SPEND
  {
    assert |KIND_EARN| != |KIND_SPEND|;
  }

  lemma ValidMeans(r: ProcessRequest)
    ensures ValidRequest(r) <==> WellFormed(r)
  {
  }

  /** An attempt is accepted exactly when the caller reaches the account, the ref is new and the balance
      stays within bounds. */
  lemma AcceptedIff(b: Books, call: Call, balance: int)
    requires WellFormed(call.request) && WouldHold(b, call, balance)
    ensures Process(b, call).outcome.Accepted? <==>
              && Reaches(b, call) && (forall t :: t in b.ledger ==> t.ref != call.request.ref)
              && 0 <= balance <= 0x7FFF_FFFF_FFFF_FFFF
  {
    KindsDiffer();
  }

  lemma FindRefAppend(ledger: seq<Transaction>, row: Transaction, ref: string)
    ensures FindRef(ledger + [row], ref) ==
            if FindRef(ledger, ref).Some? then FindRef(ledger, ref)
            else if row.ref == ref then Some(row) else None
  {
    assert (ledger + [row])[..|ledger|] == ledger;
  }

  lemma LedgerSumAppend(ledger: seq<Transaction>, row: Transaction, accountID: string)
    ensures LedgerSum(ledger + [row], accountID) ==
            LedgerSum(ledger, accountID) + if row.accountID == accountID then row.points else 0
  {
    assert (ledger + [row])[..|ledger|] == ledger;
  }

  lemma {:induction false} LedgerSumOfStranger(ledger: seq<Transaction>, accountID: string)
    requires forall t :: t in ledger ==> t.accountID != accountID
    ensures LedgerSum(ledger, accountID) == 0
  {
    if ledger != [] {
      assert ledger[|ledger| - 1] in ledger;
      LedgerSumOfStranger(ledger[..|ledger| - 1], accountID);
    }
  }
}
