/** What every interleaving keeps: the facts each phase relies on, the exclusion of the row locks,
    the books and the audit trail. */
module Invariants {
  import opened Domain
  import opened Wallet
  import opened Protocol

  // ---------------------------------------------------------------- attempts

  ghost predicate EntryFits(e: AuditEntry, call: Call, owner: Option<string>, outcome: AuditOutcome, reason: string, next: nat) {
    e == NewEntry(call, owner, outcome, reason).(id := e.id) && 0 <= e.id < next
  }

  /** An accepted row for `ref` is already in the trail, under a smaller id. */
  ghost predicate AcceptedBefore(audit: seq<Audited>, ref: string, id: int) {
    exists n :: 0 <= n < |audit| && audit[n].entry.outcome == AuditAccepted
                && audit[n].entry.ref == ref && audit[n].entry.id < id
  }

  ghost predicate NothingPending(l: Local) {
    l.row.None? && l.write.None? && l.entry.None?
  }

  /** What the attempt's phase says about its own pending writes and the committed tables. */
  ghost predicate PhaseOk(cfg: Config, s: State, i: nat)
    requires Shaped(cfg, s) && i < |s.locals|
  {
    var call := cfg.calls[i];
    var ref := call.request.ref;
    var l := s.locals[i];
    match l.phase
    case InsertRow => NothingPending(l)
    case UpdateBalance(created) => l.row == Some(created) && l.write.None? && l.entry.None?
    case Classify => l.row.Some? && l.write.None? && l.entry.None?
    case ReadBack(created) => l.row == Some(created) && l.write.Some? && l.entry.None?
    case AuditAccept(created, balance) => l.row == Some(created) && l.write == Some(balance) && l.entry.None?
    case CommitAccept(created, balance) =>
      && l.row == Some(created) && l.write == Some(balance)
      && l.entry.Some? && EntryFits(l.entry.value, call, l.owner, AuditAccepted, "ok", s.nextEntry)
    case ReadOriginal => NothingPending(l) && Recorded(s.ledger, ref)
    case ReadAccount(original) =>
      && NothingPending(l) && FindRef(s.ledger, ref) == Some(original)
      && Readable(original, call.claims, call.request.userID) && Scannable(original)
    case AuditRepeat(original, balance) =>
      && NothingPending(l) && FindRef(s.ledger, ref) == Some(original)
      && Readable(original, call.claims, call.request.userID) && Scannable(original)
    case CommitRepeat(original, balance) =>
      && l.row.None? && l.write.None?
      && l.entry.Some? && EntryFits(l.entry.value, call, l.owner, AuditDuplicate, "duplicate", s.nextEntry)
      && AcceptedBefore(s.audit, ref, l.entry.value.id)
    case _ => true
  }

  ghost predicate LocalOk(cfg: Config, s: State, i: nat)
    requires Shaped(cfg, s) && i < |s.locals|
  {
    var call := cfg.calls[i];
    var r := call.request;
    var l := s.locals[i];
    && (!l.phase.Idle? && l.phase != Done(Refused) ==> ValidRequest(r))
    && (l.phase.Idle? || l.phase.Preflight? || l.phase == Done(Refused) ==> l.owner.None?)
    && (l.phase.BeginTx? || l.phase.InTx() ==> l.owner.Some?)
    && (l.owner.Some? ==> Visible(s.accounts, r.accountID, call.claims, r.userID)
                          && s.accounts[r.accountID].ownerID == l.owner.value)
    && (!l.phase.InTx() ==> NothingPending(l))
    && (l.aborted <==> l.phase.RollingBack? && (l.phase.error.Storage? || l.phase.error.OutOfRange?))
    && (l.row.Some? ==> l.owner.Some? && l.row.value == NewRow(call, l.owner.value) && !Recorded(s.ledger, r.ref))
    && (l.write.Some? ==> l.row.Some? && l.write.value == s.accounts[r.accountID].balance + Delta(call)
                          && 0 <= l.write.value <= MAX_INT64)
    && PhaseOk(cfg, s, i)
  }

  /** No two live transactions hold the same ref or the same account row. */
  ghost predicate Exclusive(cfg: Config, s: State)
    requires Shaped(cfg, s)
  {
    forall i, k :: 0 <= i < k < |s.locals| ==>
      && (s.locals[i].row.Some? && s.locals[k].row.Some? ==> cfg.calls[i].request.ref != cfg.calls[k].request.ref)
      && (s.locals[i].write.Some? && s.locals[k].write.Some? ==>
            cfg.calls[i].request.accountID != cfg.calls[k].request.accountID)
  }

  // ---------------------------------------------------------------- books

  /** The raw adjustments accepted for an account. */
  function AdjustmentSum(adjustments: seq<Adjustment>, accountID: string): int {
    if adjustments == [] then 0
    else
      var last := adjustments[|adjustments| - 1];
      AdjustmentSum(adjustments[..|adjustments| - 1], accountID) + if last.accountID == accountID then last.delta else 0
  }

  ghost predicate AccountOk(s: State, accountID: string)
    requires accountID in s.accounts
  {
    var account := s.accounts[accountID];
    && account.balance == LedgerSum(s.ledger, accountID) + AdjustmentSum(s.adjustments, accountID)
    && 0 <= account.balance <= MAX_INT64
    && account.ownerID != ""
  }

  ghost predicate RowOk(s: State, t: Transaction) {
    t.accountID in s.accounts && s.accounts[t.accountID].ownerID == t.ownerID
  }

  ghost predicate UniqueRefs(ledger: seq<Transaction>) {
    forall m, n :: 0 <= m < n < |ledger| ==> ledger[m].ref != ledger[n].ref
  }

  ghost predicate BooksOk(s: State) {
    && (forall accountID :: accountID in s.accounts ==> AccountOk(s, accountID))
    && (forall t :: t in s.ledger ==> RowOk(s, t))
    && (forall a :: a in s.adjustments ==> a.accountID in s.accounts)
    && UniqueRefs(s.ledger)
  }

  // ---------------------------------------------------------------- trail

  /** What a ledger row and its accepted audit row must agree on. */
  datatype Fact = Fact(ref: string, accountID: string, ownerID: Option<string>, points: int)

  function RowFacts(ledger: seq<Transaction>): seq<Fact> {
    if ledger == [] then []
    else
      var t := ledger[|ledger| - 1];
      RowFacts(ledger[..|ledger| - 1]) + [Fact(t.ref, t.accountID, Some(t.ownerID), t.points)]
  }

  function AcceptedFacts(audit: seq<Audited>): seq<Fact> {
    if audit == [] then []
    else
      var e := audit[|audit| - 1].entry;
      var earlier := AcceptedFacts(audit[..|audit| - 1]);
      if e.outcome == AuditAccepted then earlier + [Fact(e.ref, e.accountID, e.ownerID, e.points)] else earlier
  }

  ghost predicate TrailOk(s: State) {
    && AcceptedFacts(s.audit) == RowFacts(s.ledger)
    && (forall n :: 0 <= n < |s.audit| ==> 0 <= s.audit[n].entry.id < s.nextEntry)
    && (forall n :: 0 <= n < |s.audit| && s.audit[n].entry.outcome == AuditDuplicate ==>
          AcceptedBefore(s.audit[..n], s.audit[n].entry.ref, s.audit[n].entry.id))
  }

  lemma {:induction false} FactOfRow(ledger: seq<Transaction>, t: Transaction)
    requires t in ledger
    ensures Fact(t.ref, t.accountID, Some(t.ownerID), t.points) in RowFacts(ledger)
  {
    var last := ledger[|ledger| - 1];
    assert ledger == ledger[..|ledger| - 1] + [last];
    if t != last {
      FactOfRow(ledger[..|ledger| - 1], t);
    }
  }

  lemma {:induction false} RowOfFact(audit: seq<Audited>, f: Fact) returns (n: nat)
    requires f in AcceptedFacts(audit)
    ensures n < |audit| && audit[n].entry.outcome == AuditAccepted && audit[n].entry.ref == f.ref
  {
    var last := |audit| - 1;
    if f in AcceptedFacts(audit[..last]) {
      n := RowOfFact(audit[..last], f);
    } else {
      n := last;
    }
  }

  /** A recorded row has its accepted entry in the trail, under an id already given out. */
  lemma AcceptedInTrail(s: State, t: Transaction)
    requires TrailOk(s) && t in s.ledger
    ensures AcceptedBefore(s.audit, t.ref, s.nextEntry)
  {
    FactOfRow(s.ledger, t);
    var n := RowOfFact(s.audit, Fact(t.ref, t.accountID, Some(t.ownerID), t.points));
  }

  // ---------------------------------------------------------------- the core invariant

  ghost predicate Core(cfg: Config, s: State) {
    && Shaped(cfg, s)
    && (forall i :: 0 <= i < |s.locals| ==> LocalOk(cfg, s, i))
    && Exclusive(cfg, s)
    && BooksOk(s)
    && TrailOk(s)
  }

  // ---------------------------------------------------------------- one attempt against the rest

  /** `s'` is `s` as seen by an attempt k that did not move: accounts keep their owners, k's locked
      row keeps its balance, and a row added to the ledger is not the one k is about to add. */
  ghost predicate Undisturbed(cfg: Config, s: State, s': State, k: nat)
    requires Shaped(cfg, s) && Shaped(cfg, s') && k < |s.locals|
  {
    var l := s.locals[k];
    var r := cfg.calls[k].request;
    && s'.locals[k] == l
    && (forall a :: a in s.accounts ==> a in s'.accounts && s'.accounts[a].ownerID == s.accounts[a].ownerID)
    && (l.write.Some? && r.accountID in s.accounts ==> s'.accounts[r.accountID].balance == s.accounts[r.accountID].balance)
    && (s'.ledger == s.ledger || (exists row :: s'.ledger == s.ledger + [row] && (l.row.Some? ==> row.ref != r.ref)))
    && (s'.audit == s.audit || (exists e :: s'.audit == s.audit + [e]))
    && s.nextEntry <= s'.nextEntry
  }

  lemma AcceptedBeforeGrows(audit: seq<Audited>, e: Audited, ref: string, id: int)
    requires AcceptedBefore(audit, ref, id)
    ensures AcceptedBefore(audit + [e], ref, id)
  {
    var n :| 0 <= n < |audit| && audit[n].entry.outcome == AuditAccepted
             && audit[n].entry.ref == ref && audit[n].entry.id < id;
    assert (audit + [e])[n] == audit[n];
  }

  lemma UndisturbedKeeps(cfg: Config, s: State, s': State, k: nat)
    requires Shaped(cfg, s) && Shaped(cfg, s') && k < |s.locals|
    requires LocalOk(cfg, s, k) && Undisturbed(cfg, s, s', k)
    ensures LocalOk(cfg, s', k)
  {
    var r := cfg.calls[k].request;
    if s'.ledger != s.ledger {
      var row :| s'.ledger == s.ledger + [row] && (s.locals[k].row.Some? ==> row.ref != r.ref);
      FindRefAppend(s.ledger, row, r.ref);
    }
    if s'.audit != s.audit && s.locals[k].phase.CommitRepeat? {
      var e :| s'.audit == s.audit + [e];
      AcceptedBeforeGrows(s.audit, e, r.ref, s.locals[k].entry.value.id);
    }
  }

  /** What a step of attempt i can change: its own local state, the identity counter, at most one
      audit row; the books only when it commits an accepted attempt. */
  ghost predicate Shape(cfg: Config, s: State, s': State, i: nat)
    requires Shaped(cfg, s) && i < |s.locals|
  {
    && Shaped(cfg, s')
    && s'.locals == s.locals[i := s'.locals[i]]
    && s'.adjusting == s.adjusting && s'.adjustments == s.adjustments
    && s.nextEntry <= s'.nextEntry
    && (s'.audit == s.audit || (|s'.audit| == |s.audit| + 1 && s'.audit == s.audit + [s'.audit[|s.audit|]]))
    && (if Commits(s, s', i)
        then s'.accounts == SetBalance(s.accounts, cfg.calls[i].request.accountID, s.locals[i].write.GetOr(0))
             && s'.ledger == s.ledger + [s.locals[i].phase.created]
        else s'.accounts == s.accounts && s'.ledger == s.ledger)
  }

  predicate Commits(s: State, s': State, i: nat) {
    i < |s.locals| == |s'.locals| && s.locals[i].phase.CommitAccept? && s'.locals[i].phase.Done?
  }

  lemma StepShape(cfg: Config, s: State, i: nat)
    requires Shaped(cfg, s) && i < |s.locals| && LocalOk(cfg, s, i) && !s.locals[i].phase.Done?
    ensures Shape(cfg, s, Step(cfg, s, i), i)
  {
    match s.locals[i].phase
    case Preflight =>
    case InsertRow =>
    case UpdateBalance(_) =>
    case CommitAccept(_, _) =>
    case CommitRepeat(_, _) =>
    case Rejecting(_) =>
    case _ =>
  }

  lemma FaultShape(cfg: Config, s: State, i: nat, cause: string)
    requires Shaped(cfg, s) && i < |s.locals| && !s.locals[i].phase.Done? && !s.locals[i].phase.Idle?
    ensures Shape(cfg, s, StepFault(s, i, cause), i)
  {
  }

  lemma ShapeUndisturbs(cfg: Config, s: State, s': State, i: nat, k: nat)
    requires Core(cfg, s) && i < |s.locals| && k < |s.locals| && i != k && Shape(cfg, s, s', i)
    ensures Undisturbed(cfg, s, s', k)
  {
    assert LocalOk(cfg, s, i) && LocalOk(cfg, s, k);
    assert i < k || k < i;
  }

  // ---------------------------------------------------------------- one attempt's own facts

  lemma ClaimKeepsSelf(cfg: Config, s: State, i: nat)
    requires Shaped(cfg, s) && i < |s.locals| && LocalOk(cfg, s, i)
    requires var p := s.locals[i].phase; p.Idle? || p.Preflight? || p.BeginTx? || p.InsertRow?
    ensures LocalOk(cfg, Step(cfg, s, i), i)
  {
  }

  lemma UpdateKeepsSelf(cfg: Config, s: State, i: nat)
    requires Shaped(cfg, s) && i < |s.locals| && LocalOk(cfg, s, i)
    requires var p := s.locals[i].phase; p.UpdateBalance? || p.Classify? || p.ReadBack? || p.AuditAccept?
    ensures LocalOk(cfg, Step(cfg, s, i), i)
  {
  }

  lemma OriginalKeepsSelf(cfg: Config, s: State, i: nat)
    requires Shaped(cfg, s) && i < |s.locals| && LocalOk(cfg, s, i)
    requires var p := s.locals[i].phase; p.ReadOriginal? || p.ReadAccount?
    ensures LocalOk(cfg, Step(cfg, s, i), i)
  {
  }

  lemma RepeatKeepsSelf(cfg: Config, s: State, i: nat)
    requires Shaped(cfg, s) && i < |s.locals| && LocalOk(cfg, s, i) && TrailOk(s)
    requires s.locals[i].phase.AuditRepeat?
    ensures LocalOk(cfg, Step(cfg, s, i), i)
  {
    AcceptedInTrail(s, s.locals[i].phase.original);
  }

  lemma FinishKeepsSelf(cfg: Config, s: State, i: nat)
    requires Shaped(cfg, s) && i < |s.locals| && LocalOk(cfg, s, i)
    requires var p := s.locals[i].phase; p.CommitAccept? || p.CommitRepeat? || p.RollingBack? || p.Rejecting?
    ensures LocalOk(cfg, Step(cfg, s, i), i)
  {
  }

  lemma StepKeepsSelf(cfg: Config, s: State, i: nat)
    requires Shaped(cfg, s) && i < |s.locals| && LocalOk(cfg, s, i) && TrailOk(s) && !s.locals[i].phase.Done?
    ensures Shaped(cfg, Step(cfg, s, i)) && LocalOk(cfg, Step(cfg, s, i), i)
  {
    StepShape(cfg, s, i);
    match s.locals[i].phase
    case CommitAccept(_, _) => FinishKeepsSelf(cfg, s, i);
    case CommitRepeat(_, _) => FinishKeepsSelf(cfg, s, i);
    case RollingBack(_) => FinishKeepsSelf(cfg, s, i);
    case Rejecting(_) => FinishKeepsSelf(cfg, s, i);
    case ReadOriginal => OriginalKeepsSelf(cfg, s, i);
    case ReadAccount(_) => OriginalKeepsSelf(cfg, s, i);
    case AuditRepeat(_, _) => RepeatKeepsSelf(cfg, s, i);
    case UpdateBalance(_) => UpdateKeepsSelf(cfg, s, i);
    case Classify => UpdateKeepsSelf(cfg, s, i);
    case ReadBack(_) => UpdateKeepsSelf(cfg, s, i);
    case AuditAccept(_, _) => UpdateKeepsSelf(cfg, s, i);
    case _ => ClaimKeepsSelf(cfg, s, i);
  }

  lemma FaultInTxKeepsSelf(cfg: Config, s: State, i: nat, cause: string)
    requires Shaped(cfg, s) && i < |s.locals| && LocalOk(cfg, s, i) && s.locals[i].phase.InTx()
    ensures LocalOk(cfg, StepFault(s, i, cause), i)
  {
  }

  lemma FaultKeepsSelf(cfg: Config, s: State, i: nat, cause: string)
    requires Shaped(cfg, s) && i < |s.locals| && LocalOk(cfg, s, i)
    requires !s.locals[i].phase.Done? && !s.locals[i].phase.Idle?
    ensures Shaped(cfg, StepFault(s, i, cause)) && LocalOk(cfg, StepFault(s, i, cause), i)
  {
    if s.locals[i].phase.InTx() {
      FaultInTxKeepsSelf(cfg, s, i, cause);
    }
  }

  // ---------------------------------------------------------------- what a step claims and commits

  /** A ref or an account row is claimed only when no other live transaction holds it. */
  ghost predicate ClaimsFree(cfg: Config, s: State, s': State, i: nat)
    requires Shaped(cfg, s) && Shaped(cfg, s') && i < |s.locals|
  {
    && (s'.locals[i].row.Some? && s.locals[i].row.None? ==> !RefHeld(s, cfg.calls[i].request.ref))
    && (s'.locals[i].write.Some? && s.locals[i].write.None? ==> !RowHeld(cfg, s, cfg.calls[i].request.accountID))
  }

  lemma StepClaimsFree(cfg: Config, s: State, i: nat)
    requires Shaped(cfg, s) && Ready(cfg, s, i) && LocalOk(cfg, s, i)
    ensures Shaped(cfg, Step(cfg, s, i)) && ClaimsFree(cfg, s, Step(cfg, s, i), i)
  {
    StepShape(cfg, s, i);
  }

  lemma ExclusiveKept(cfg: Config, s: State, s': State, i: nat)
    requires Core(cfg, s) && i < |s.locals| && Shape(cfg, s, s', i) && ClaimsFree(cfg, s, s', i)
    ensures Exclusive(cfg, s')
  {
    forall m, n | 0 <= m < n < |s'.locals| && (m == i || n == i)
      ensures s'.locals[m].row.Some? && s'.locals[n].row.Some? ==> cfg.calls[m].request.ref != cfg.calls[n].request.ref
      ensures s'.locals[m].write.Some? && s'.locals[n].write.Some? ==>
                cfg.calls[m].request.accountID != cfg.calls[n].request.accountID
    {
      assert LocalOk(cfg, s, m) && LocalOk(cfg, s, n);
    }
  }

  lemma BooksKept(cfg: Config, s: State, s': State, i: nat)
    requires Core(cfg, s) && i < |s.locals| && Shape(cfg, s, s', i)
    ensures BooksOk(s')
  {
    assert LocalOk(cfg, s, i);
    if Commits(s, s', i) {
      var row := s.locals[i].phase.created;
      assert row in s'.ledger;
      assert !Recorded(s.ledger, row.ref);
      forall accountID | accountID in s'.accounts
        ensures AccountOk(s', accountID)
      {
        assert AccountOk(s, accountID);
        LedgerSumAppend(s.ledger, row, accountID);
      }
      forall t | t in s'.ledger
        ensures RowOk(s', t)
      {
        assert t in s.ledger || t == row;
      }
    } else {
      assert forall accountID :: accountID in s'.accounts ==> AccountOk(s, accountID);
      assert forall t :: t in s'.ledger ==> RowOk(s, t);
    }
  }

  /** An audit row appears exactly when its attempt settles, and says what the attempt returned. */
  ghost predicate AuditsOutcome(cfg: Config, s: State, s': State, i: nat)
    requires Shaped(cfg, s) && Shaped(cfg, s') && i < |s.locals|
  {
    && !s.locals[i].phase.Done?
    && (s'.locals[i].phase.Done? && s'.locals[i].phase.result.Settled? <==> s'.audit != s.audit)
    && (s'.audit != s.audit ==>
          && |s'.audit| == |s.audit| + 1
          && var a := s'.audit[|s.audit|];
             var outcome := s'.locals[i].phase.result.outcome;
             && a.attempt == i && 0 <= a.entry.id < s'.nextEntry
             && EntryOf(a.entry, cfg.calls[i], outcome) && a.entry.ownerID == s'.locals[i].owner
             && (outcome.Accepted? <==> Commits(s, s', i))
             && (outcome.Accepted? ==> outcome.transaction == s.locals[i].phase.created)
             && (outcome.Duplicate? ==> AcceptedBefore(s.audit, a.entry.ref, a.entry.id)))
    && (Commits(s, s', i) ==> s'.audit != s.audit)
  }

  lemma StepAudits(cfg: Config, s: State, i: nat)
    requires Shaped(cfg, s) && i < |s.locals| && LocalOk(cfg, s, i) && !s.locals[i].phase.Done?
    ensures Shaped(cfg, Step(cfg, s, i)) && AuditsOutcome(cfg, s, Step(cfg, s, i), i)
  {
    match s.locals[i].phase
    case CommitAccept(_, _) =>
    case CommitRepeat(_, _) =>
    case Rejecting(_) =>
    case _ =>
  }

  lemma FaultAudits(cfg: Config, s: State, i: nat, cause: string)
    requires Shaped(cfg, s) && i < |s.locals| && !s.locals[i].phase.Done? && !s.locals[i].phase.Idle?
    ensures Shaped(cfg, StepFault(s, i, cause)) && AuditsOutcome(cfg, s, StepFault(s, i, cause), i)
  {
  }

  lemma TrailKept(cfg: Config, s: State, s': State, i: nat)
    requires Core(cfg, s) && i < |s.locals| && Shape(cfg, s, s', i) && AuditsOutcome(cfg, s, s', i)
    ensures TrailOk(s')
  {
    assert LocalOk(cfg, s, i);
    if s'.audit != s.audit {
      var a := s'.audit[|s.audit|];
      assert s'.audit[..|s.audit|] == s.audit;
      assert Commits(s, s', i) ==> s'.ledger[..|s.ledger|] == s.ledger;
      forall n | 0 <= n < |s'.audit| && s'.audit[n].entry.outcome == AuditDuplicate
        ensures AcceptedBefore(s'.audit[..n], s'.audit[n].entry.ref, s'.audit[n].entry.id)
      {
        assert s'.audit[..n] == s.audit[..n];
      }
    }
  }
}
