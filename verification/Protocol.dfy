/** The concurrent protocol: any number of attempts, raw adjustments, account openings and renames
    interleave statement by statement over one database. An attempt's uncommitted writes stay in its
    own local state, where they act as the row locks other attempts wait for. */
module Protocol {
  import opened Domain
  import opened Wallet

  /** What a call returned. Refused attempts failed Validate; Unaudited ones could not even be
      recorded as rejected. */
  datatype Result = Refused | Settled(outcome: Outcome) | Unaudited(error: Error)

  /** Where an attempt stands: each phase names the statement it issues next. */
  datatype Phase =
    | Idle
    | Preflight                                            // scoped account read, on the pool
    | BeginTx
    | InsertRow                                            // INSERT .. ON CONFLICT (ref) DO NOTHING
    | UpdateBalance(created: Transaction)                  // guarded UPDATE
    | Classify                                             // zero rows updated: missing, or overdrawn?
    | ReadBack(created: Transaction)                       // SELECT of the balance just written
    | AuditAccept(created: Transaction, balance: int)
    | CommitAccept(created: Transaction, balance: int)
    | ReadOriginal                                         // the ref was taken: read its row
    | ReadAccount(original: Transaction)
    | AuditRepeat(original: Transaction, balance: int)
    | CommitRepeat(original: Transaction, balance: int)
    | RollingBack(error: Error)
    | Rejecting(error: Error)                              // audit row of a rejection, on the pool
    | Done(result: Result)
  {
    /** The phases in which the attempt holds a transaction, and so a pooled connection. */
    predicate InTx() {
      !(Idle? || Preflight? || BeginTx? || Rejecting? || Done?)
    }
  }

  /** `row`, `write` and `entry` are the transaction's uncommitted ledger row, balance and audit row:
      a pending row is a held ref, a pending balance is a held account row. `aborted` is set once a
      statement of the transaction raised an error. */
  datatype Local = Local(
    phase: Phase, owner: Option<string>, row: Option<Transaction>, write: Option<int>,
    entry: Option<AuditEntry>, aborted: bool)

  const FRESH := Local(Idle, None, None, None, None, false)

  /** A raw balance correction runs two autocommit statements. */
  datatype AdjustCall = AdjustCall(claims: seq<string>, userID: string, accountID: string, delta: int)

  datatype AdjustPhase = AdjustIdle | AdjustClassify | AdjustReadBack | AdjustDone(result: AdjustResult)

  datatype AdjustResult = Adjusted(balance: int) | NotAdjusted(error: Error) | AdjustRefused

  /** An accepted raw adjustment, remembered although the program records it nowhere. */
  datatype Adjustment = Adjustment(accountID: string, delta: int)

  /** An audit row together with the attempt that wrote it. */
  datatype Audited = Audited(entry: AuditEntry, attempt: nat)

  datatype Config = Config(calls: seq<Call>, adjusts: seq<AdjustCall>, poolSize: nat)

  datatype State = State(
    accounts: map<string, Account>, ledger: seq<Transaction>, audit: seq<Audited>, nextEntry: nat,
    locals: seq<Local>, adjusting: seq<AdjustPhase>, adjustments: seq<Adjustment>)
  {
    function Books(): Books { Wallet.Books(accounts, ledger) }
  }

  datatype Action =
    | Advance(i: nat)                                      // the attempt's next statement succeeds
    | Fault(i: nat, cause: string)                         // it fails
    | Adjust(j: nat)
    | AdjustFault(j: nat, cause: string)
    | Open(accountID: string, ownerID: string, name: string)
    | Rename(claims: seq<string>, userID: string, accountID: string, name: string)

  /** Row ids are fresh UUIDs. */
  ghost predicate ValidConfig(cfg: Config) {
    && cfg.poolSize > 0
    && forall i, k :: 0 <= i < k < |cfg.calls| ==> cfg.calls[i].uuid != cfg.calls[k].uuid
  }

  ghost predicate Init(cfg: Config, s: State) {
    && s.accounts == map[] && s.ledger == [] && s.audit == [] && s.adjustments == []
    && s.locals == seq(|cfg.calls|, _ => FRESH)
    && s.adjusting == seq(|cfg.adjusts|, _ => AdjustIdle)
  }

  ghost predicate Shaped(cfg: Config, s: State) {
    |s.locals| == |cfg.calls| && |s.adjusting| == |cfg.adjusts|
  }

  // ---------------------------------------------------------------- locks and the connection pool

  ghost predicate RefHeld(s: State, ref: string) {
    exists k :: 0 <= k < |s.locals| && s.locals[k].row.Some? && s.locals[k].row.value.ref == ref
  }

  ghost predicate RowHeld(cfg: Config, s: State, accountID: string)
    requires Shaped(cfg, s)
  {
    exists k :: 0 <= k < |s.locals| && s.locals[k].write.Some? && cfg.calls[k].request.accountID == accountID
  }

  function Connections(locals: seq<Local>): nat {
    if locals == [] then 0
    else Connections(locals[..|locals| - 1]) + if locals[|locals| - 1].phase.InTx() then 1 else 0
  }

  predicate PoolFree(cfg: Config, s: State) {
    Connections(s.locals) < cfg.poolSize
  }

  /** Whether the guarded UPDATE would change a row, judged on the committed version. */
  predicate GuardPasses(accounts: map<string, Account>, accountID: string, delta: int) {
    accountID in accounts && 0 <= accounts[accountID].balance + delta <= MAX_INT64
  }

  // ---------------------------------------------------------------- one attempt's next statement

  /** The attempt can issue its next statement now. It waits for a connection before its
      transaction begins and between transactions, for a ref another live transaction inserted, and
      for an account row another live transaction updated; a committed ref or a failing guard makes
      it wait for nothing. */
  ghost predicate Ready(cfg: Config, s: State, i: nat)
    requires Shaped(cfg, s)
  {
    i < |s.locals| &&
    var call := cfg.calls[i];
    match s.locals[i].phase
    case Preflight => PoolFree(cfg, s)
    case BeginTx => PoolFree(cfg, s)
    case Rejecting(_) => PoolFree(cfg, s)
    case InsertRow => Recorded(s.ledger, call.request.ref) || !RefHeld(s, call.request.ref)
    case UpdateBalance(_) =>
      GuardPasses(s.accounts, call.request.accountID, Delta(call)) ==> !RowHeld(cfg, s, call.request.accountID)
    case Done(_) => false
    case _ => true
  }

  function Put(s: State, i: nat, l: Local): State
    requires i < |s.locals|
  {
    s.(locals := s.locals[i := l])
  }

  /** Leaves the transaction: nothing it wrote is kept. */
  function Drop(l: Local, phase: Phase): Local {
    Local(phase, l.owner, None, None, None, false)
  }

  /** Commits the transaction: everything it wrote becomes visible at once. */
  function Publish(s: State, i: nat, call: Call, phase: Phase): State
    requires i < |s.locals|
  {
    var l := s.locals[i];
    s.(accounts := if l.write.Some? then SetBalance(s.accounts, call.request.accountID, l.write.value) else s.accounts,
       ledger := if l.row.Some? then s.ledger + [l.row.value] else s.ledger,
       audit := if l.entry.Some? then s.audit + [Audited(l.entry.value, i)] else s.audit,
       locals := s.locals[i := Drop(l, phase)])
  }

  /** The audit insert draws the next identity value, which a rollback does not give back. */
  function WriteEntry(s: State, i: nat, entry: AuditEntry, phase: Phase): State
    requires i < |s.locals|
  {
    var l := s.locals[i];
    Put(s, i, l.(phase := phase, entry := Some(entry.(id := s.nextEntry)))).(nextEntry := s.nextEntry + 1)
  }

  function Step(cfg: Config, s: State, i: nat): State
    requires |s.locals| == |cfg.calls| && i < |s.locals| && !s.locals[i].phase.Done?
  {
    var call := cfg.calls[i];
    var r := call.request;
    var l := s.locals[i];
    match l.phase
    case Idle =>
      Put(s, i, l.(phase := if ValidRequest(r) then Preflight else Done(Refused)))
    case Preflight =>
      if Visible(s.accounts, r.accountID, call.claims, r.userID)
      then Put(s, i, l.(phase := BeginTx, owner := Some(s.accounts[r.accountID].ownerID)))
      else Put(s, i, l.(phase := Rejecting(NotFound)))
    case BeginTx =>
      Put(s, i, l.(phase := InsertRow))
    case InsertRow =>
      if Recorded(s.ledger, r.ref) then Put(s, i, l.(phase := ReadOriginal))
      else if r.accountID !in s.accounts then // foreign key violation
        Put(s, i, l.(phase := RollingBack(NotFound), aborted := true))
      else
        var created := NewRow(call, l.owner.GetOr(""));
        Put(s, i, l.(phase := UpdateBalance(created), row := Some(created)))
    case UpdateBalance(created) =>
      if r.accountID !in s.accounts || !MayWrite(s.accounts[r.accountID], call.claims, l.owner.GetOr(""))
      then Put(s, i, l.(phase := Classify))
      else
        var after := s.accounts[r.accountID].balance + Delta(call);
        if after > MAX_INT64 then Put(s, i, l.(phase := RollingBack(OutOfRange), aborted := true))
        else if after < 0 then Put(s, i, l.(phase := Classify))
        else Put(s, i, l.(phase := ReadBack(created), write := Some(after)))
    case Classify =>
      if r.accountID !in s.accounts || !MayWrite(s.accounts[r.accountID], call.claims, l.owner.GetOr(""))
      then Put(s, i, l.(phase := RollingBack(NotFound)))
      else Put(s, i, l.(phase := RollingBack(InsufficientBalance)))
    case ReadBack(created) => // the transaction sees its own write
      if r.accountID !in s.accounts then Put(s, i, l.(phase := RollingBack(Storage("read updated account balance", "no rows"))))
      else Put(s, i, l.(phase := AuditAccept(created, l.write.GetOr(s.accounts[r.accountID].balance))))
    case AuditAccept(created, balance) =>
      WriteEntry(s, i, NewEntry(call, l.owner, AuditAccepted, "ok"), CommitAccept(created, balance))
    case CommitAccept(created, balance) =>
      Publish(s, i, call, Done(Settled(Accepted(created, balance))))
    case ReadOriginal =>
      var original := FindRef(s.ledger, r.ref);
      if original.None? || !Readable(original.value, call.claims, r.userID)
      then Put(s, i, l.(phase := RollingBack(NotFound)))
      else if !Scannable(original.value) then Put(s, i, l.(phase := RollingBack(Unreadable)))
      else Put(s, i, l.(phase := ReadAccount(original.value)))
    case ReadAccount(original) =>
      if Visible(s.accounts, r.accountID, call.claims, r.userID)
      then Put(s, i, l.(phase := AuditRepeat(original, s.accounts[r.accountID].balance)))
      else Put(s, i, l.(phase := RollingBack(NotFound)))
    case AuditRepeat(original, balance) =>
      WriteEntry(s, i, NewEntry(call, l.owner, AuditDuplicate, "duplicate"), CommitRepeat(original, balance))
    case CommitRepeat(original, balance) =>
      Publish(s, i, call, Done(Settled(Duplicate(original, balance))))
    case RollingBack(error) =>
      Put(s, i, Drop(l, Rejecting(error)))
    case Rejecting(error) => // autocommit
      var entry := NewEntry(call, l.owner, AuditRejected, ReasonFor(error)).(id := s.nextEntry);
      Put(s, i, l.(phase := Done(Settled(Rejected(error)))))
        .(audit := s.audit + [Audited(entry, i)], nextEntry := s.nextEntry + 1)
  }

  /** Which operation a failing statement is reported as. */
  function Operation(phase: Phase): string {
    match phase
    case Preflight => "scan account"
    case BeginTx => "begin transaction"
    case InsertRow => "insert transaction"
    case UpdateBalance(_) => "update account balance"
    case Classify => "read account balance"
    case ReadBack(_) => "read updated account balance"
    case ReadOriginal => "scan transaction"
    case ReadAccount(_) => "scan account"
    case CommitAccept(_, _) => "commit transaction"
    case CommitRepeat(_, _) => "commit transaction"
    case _ => "insert audit entry"
  }

  /** The attempt's next statement fails: inside a transaction the error aborts it, and only the
      rollback may follow; a failed begin or commit leaves no transaction behind. */
  function StepFault(s: State, i: nat, cause: string): State
    requires i < |s.locals| && !s.locals[i].phase.Done? && !s.locals[i].phase.Idle?
  {
    var l := s.locals[i];
    var failure := Storage(Operation(l.phase), cause);
    match l.phase
    case Preflight => Put(s, i, l.(phase := Rejecting(failure)))
    case BeginTx => Put(s, i, l.(phase := Rejecting(failure)))
    case CommitAccept(_, _) => Put(s, i, Drop(l, Rejecting(failure)))
    case CommitRepeat(_, _) => Put(s, i, Drop(l, Rejecting(failure)))
    case RollingBack(error) => Put(s, i, Drop(l, Rejecting(RollbackFailed(cause, error))))
    case Rejecting(_) => Put(s, i, l.(phase := Done(Unaudited(failure))))
    case _ => Put(s, i, l.(phase := RollingBack(failure), aborted := true))
  }

  // ---------------------------------------------------------------- everybody else

  predicate ValidAdjust(call: AdjustCall) {
    call.accountID != "" && call.delta != 0 && call.userID != ""
  }

  predicate Adjustable(s: State, call: AdjustCall) {
    call.accountID in s.accounts && MayWrite(s.accounts[call.accountID], call.claims, call.userID)
  }

  ghost predicate AdjustReady(cfg: Config, s: State, j: nat)
    requires Shaped(cfg, s)
  {
    j < |s.adjusting| && !s.adjusting[j].AdjustDone? &&
    (s.adjusting[j].AdjustIdle? && GuardPasses(s.accounts, cfg.adjusts[j].accountID, cfg.adjusts[j].delta)
     ==> !RowHeld(cfg, s, cfg.adjusts[j].accountID))
  }

  function PutAdjust(s: State, j: nat, phase: AdjustPhase): State
    requires j < |s.adjusting|
  {
    s.(adjusting := s.adjusting[j := phase])
  }

  function AdjustStep(cfg: Config, s: State, j: nat): State
    requires |s.adjusting| == |cfg.adjusts| && j < |s.adjusting| && !s.adjusting[j].AdjustDone?
  {
    var call := cfg.adjusts[j];
    match s.adjusting[j]
    case AdjustIdle =>
      if !ValidAdjust(call) then PutAdjust(s, j, AdjustDone(AdjustRefused))
      else if !Adjustable(s, call) then PutAdjust(s, j, AdjustClassify)
      else
        var after := s.accounts[call.accountID].balance + call.delta;
        if after > MAX_INT64 then PutAdjust(s, j, AdjustDone(NotAdjusted(OutOfRange)))
        else if after < 0 then PutAdjust(s, j, AdjustClassify)
        else
          PutAdjust(s, j, AdjustReadBack)
            .(accounts := SetBalance(s.accounts, call.accountID, after),
              adjustments := s.adjustments + [Adjustment(call.accountID, call.delta)])
    case AdjustClassify =>
      PutAdjust(s, j, AdjustDone(NotAdjusted(if Adjustable(s, call) then InsufficientBalance else NotFound)))
    case AdjustReadBack =>
      PutAdjust(s, j, AdjustDone(
        if call.accountID in s.accounts then Adjusted(s.accounts[call.accountID].balance)
        else NotAdjusted(Storage("read updated account balance", "no rows"))))
  }

  function AdjustOperation(phase: AdjustPhase): string {
    match phase
    case AdjustIdle => "update account balance"
    case AdjustClassify => "read account balance"
    case _ => "read updated account balance"
  }

  // ---------------------------------------------------------------- runs

  ghost predicate Enabled(cfg: Config, s: State, a: Action)
    requires Shaped(cfg, s)
  {
    match a
    case Advance(i) => Ready(cfg, s, i)
    case Fault(i, _) => i < |s.locals| && !s.locals[i].phase.Idle? && !s.locals[i].phase.Done?
    case Adjust(j) => AdjustReady(cfg, s, j)
    case AdjustFault(j, _) => j < |s.adjusting| && !s.adjusting[j].AdjustDone?
    case Open(accountID, ownerID, name) =>
      accountID != "" && ownerID != "" && name != "" && accountID !in s.accounts
    case Rename(claims, userID, accountID, name) =>
      accountID != "" && userID != "" && name != "" && !RowHeld(cfg, s, accountID)
  }

  ghost function Apply(cfg: Config, s: State, a: Action): State
    requires Shaped(cfg, s) && Enabled(cfg, s, a)
  {
    match a
    case Advance(i) => Step(cfg, s, i)
    case Fault(i, cause) => StepFault(s, i, cause)
    case Adjust(j) => AdjustStep(cfg, s, j)
    case AdjustFault(j, cause) => PutAdjust(s, j, AdjustDone(NotAdjusted(Storage(AdjustOperation(s.adjusting[j]), cause))))
    case Open(accountID, ownerID, name) =>
      s.(accounts := s.accounts[accountID := Account(ownerID, name, 0)])
    case Rename(claims, userID, accountID, name) =>
      if accountID in s.accounts && MayWrite(s.accounts[accountID], claims, userID)
      then s.(accounts := s.accounts[accountID := s.accounts[accountID].(name := name)])
      else s
  }

  ghost predicate Next(cfg: Config, s: State, a: Action, s': State) {
    Shaped(cfg, s) && Enabled(cfg, s, a) && s' == Apply(cfg, s, a)
  }

  /** `states` are the states a run passes through, `actions` the steps between them. */
  ghost predicate Run(cfg: Config, states: seq<State>, actions: seq<Action>) {
    && |states| == |actions| + 1
    && Init(cfg, states[0])
    && forall n :: 0 <= n < |actions| ==> Next(cfg, states[n], actions[n], states[n + 1])
  }
}
