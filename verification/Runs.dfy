/** The invariants over whole runs, and what they mean for balances, refs and the audit trail. */
module Runs {
  import opened Domain
  import opened Wallet
  import opened Protocol
  import opened Invariants

  // ---------------------------------------------------------------- every attempt leaves its mark

  ghost predicate OnlyEntry(audit: seq<Audited>, i: nat, n: nat) {
    n < |audit| && audit[n].attempt == i &&
    forall m :: 0 <= m < |audit| && m != n ==> audit[m].attempt != i
  }

  /** The attempt is the one that recorded `t`. */
  ghost predicate Wrote(s: State, i: nat, t: Transaction) {
    && i < |s.locals| && s.locals[i].phase.Done? && s.locals[i].phase.result.Settled?
    && s.locals[i].phase.result.outcome.Accepted? && s.locals[i].phase.result.outcome.transaction == t
  }

  /** A settled attempt has exactly one audit row, matching what it returned, and its ledger row
      exactly when it was accepted; no other attempt has any. */
  ghost predicate AttemptOk(cfg: Config, s: State, i: nat)
    requires Shaped(cfg, s) && i < |s.locals|
  {
    var call := cfg.calls[i];
    match s.locals[i].phase
    case Done(Settled(outcome)) =>
      && (exists n: nat :: OnlyEntry(s.audit, i, n) && EntryOf(s.audit[n].entry, call, outcome)
                           && s.audit[n].entry.ownerID == s.locals[i].owner)
      && (outcome.Accepted? ==>
            outcome.transaction in s.ledger && outcome.transaction == NewRow(call, outcome.transaction.ownerID))
    case _ => forall n :: 0 <= n < |s.audit| ==> s.audit[n].attempt != i
  }

  ghost predicate AttemptsOk(cfg: Config, s: State)
    requires Shaped(cfg, s)
  {
    && (forall i :: 0 <= i < |s.locals| ==> AttemptOk(cfg, s, i))
    && (forall t :: t in s.ledger ==> exists i :: Wrote(s, i, t))
  }

  ghost predicate Inv(cfg: Config, s: State) {
    Core(cfg, s) && AttemptsOk(cfg, s)
  }

  // ---------------------------------------------------------------- steps of attempts

  lemma OtherAttemptKept(cfg: Config, s: State, s': State, i: nat, k: nat)
    requires Shaped(cfg, s) && Shaped(cfg, s') && i < |s.locals| && k < |s.locals| && k != i
    requires s'.locals[k] == s.locals[k] && AttemptOk(cfg, s, k)
    requires s'.audit == s.audit || (|s'.audit| == |s.audit| + 1 && s'.audit == s.audit + [s'.audit[|s.audit|]]
                                     && s'.audit[|s.audit|].attempt == i)
    requires s.ledger <= s'.ledger
    ensures AttemptOk(cfg, s', k)
  {
    if s.locals[k].phase.Done? && s.locals[k].phase.result.Settled? {
      var n: nat :| OnlyEntry(s.audit, k, n) && EntryOf(s.audit[n].entry, cfg.calls[k], s.locals[k].phase.result.outcome)
                    && s.audit[n].entry.ownerID == s.locals[k].owner;
      assert OnlyEntry(s'.audit, k, n);
      var outcome := s.locals[k].phase.result.outcome;
      if outcome.Accepted? {
        assert outcome.transaction in s'.ledger[..|s.ledger|];
      }
    }
  }

  lemma OwnAttemptKept(cfg: Config, s: State, s': State, i: nat)
    requires Shaped(cfg, s) && Shaped(cfg, s') && i < |s.locals| && AuditsOutcome(cfg, s, s', i)
    requires s'.audit == s.audit || s'.audit == s.audit + [s'.audit[|s.audit|]]
    requires Commits(s, s', i) ==>
               var t := s.locals[i].phase.created;
               t in s'.ledger && t == NewRow(cfg.calls[i], t.ownerID)
    requires AttemptOk(cfg, s, i)
    ensures AttemptOk(cfg, s', i)
  {
    if s'.audit != s.audit {
      assert OnlyEntry(s'.audit, i, |s.audit|);
    }
  }

  lemma AttemptsKept(cfg: Config, s: State, s': State, i: nat)
    requires Inv(cfg, s) && i < |s.locals| && Shape(cfg, s, s', i) && AuditsOutcome(cfg, s, s', i)
    ensures AttemptsOk(cfg, s')
  {
    assert LocalOk(cfg, s, i) && AttemptOk(cfg, s, i);
    forall k | 0 <= k < |s'.locals|
      ensures AttemptOk(cfg, s', k)
    {
      assert AttemptOk(cfg, s, k);
      if k == i {
        OwnAttemptKept(cfg, s, s', i);
      } else {
        OtherAttemptKept(cfg, s, s', i, k);
      }
    }
    forall t | t in s'.ledger
      ensures exists k :: Wrote(s', k, t)
    {
      if t in s.ledger {
        var k: nat :| Wrote(s, k, t);
        assert Wrote(s', k, t);
      } else {
        assert Wrote(s', i, t);
      }
    }
  }

  lemma MoveKeepsInv(cfg: Config, s: State, s': State, i: nat)
    requires Inv(cfg, s) && i < |s.locals| && Shape(cfg, s, s', i)
    requires AuditsOutcome(cfg, s, s', i) && ClaimsFree(cfg, s, s', i) && LocalOk(cfg, s', i)
    ensures Inv(cfg, s')
  {
    forall k | 0 <= k < |s'.locals|
      ensures LocalOk(cfg, s', k)
    {
      if k != i {
        ShapeUndisturbs(cfg, s, s', i, k);
        UndisturbedKeeps(cfg, s, s', k);
      }
    }
    ExclusiveKept(cfg, s, s', i);
    BooksKept(cfg, s, s', i);
    TrailKept(cfg, s, s', i);
    AttemptsKept(cfg, s, s', i);
  }

  // ---------------------------------------------------------------- steps of everybody else

  /** Steps outside the attempts touch neither the ledger nor the audit trail, and of the accounts
      only balances and names nobody has locked. */
  ghost predicate Outside(cfg: Config, s: State, s': State)
    requires Shaped(cfg, s)
  {
    && Shaped(cfg, s')
    && s'.locals == s.locals && s'.ledger == s.ledger && s'.audit == s.audit && s'.nextEntry == s.nextEntry
    && (forall a :: a in s.accounts ==> a in s'.accounts && s'.accounts[a].ownerID == s.accounts[a].ownerID)
    && (forall a :: a in s.accounts && s'.accounts[a].balance != s.accounts[a].balance ==> !RowHeld(cfg, s, a))
  }

  predicate IsOutside(a: Action) {
    !a.Advance? && !a.Fault?
  }

  lemma AdjustmentBalances(s: State, s': State, a: Adjustment)
    requires BooksOk(s) && a.accountID in s.accounts
    requires var after := s.accounts[a.accountID].balance + a.delta;
             0 <= after <= MAX_INT64 && s'.accounts == SetBalance(s.accounts, a.accountID, after)
    requires s'.ledger == s.ledger && s'.adjustments == s.adjustments + [a]
    ensures BooksOk(s')
  {
    assert s'.adjustments[..|s.adjustments|] == s.adjustments;
    forall accountID | accountID in s'.accounts
      ensures AccountOk(s', accountID)
    {
      assert AccountOk(s, accountID);
    }
    assert forall t :: t in s.ledger ==> RowOk(s, t);
  }

  lemma SameBooks(s: State, s': State)
    requires BooksOk(s)
    requires s'.accounts == s.accounts && s'.ledger == s.ledger && s'.adjustments == s.adjustments
    ensures BooksOk(s')
  {
    assert forall a :: a in s.accounts ==> AccountOk(s, a);
    assert forall t :: t in s.ledger ==> RowOk(s, t);
  }

  lemma AdjustIsOutside(cfg: Config, s: State, j: nat)
    requires Core(cfg, s) && AdjustReady(cfg, s, j)
    ensures Outside(cfg, s, AdjustStep(cfg, s, j)) && BooksOk(AdjustStep(cfg, s, j))
  {
    var s' := AdjustStep(cfg, s, j);
    if s'.adjustments == s.adjustments {
      SameBooks(s, s');
    } else {
      AdjustmentBalances(s, s', Adjustment(cfg.adjusts[j].accountID, cfg.adjusts[j].delta));
    }
  }

  lemma OpenIsOutside(cfg: Config, s: State, accountID: string, ownerID: string, name: string)
    requires Core(cfg, s) && accountID !in s.accounts && ownerID != ""
    ensures var s' := s.(accounts := s.accounts[accountID := Account(ownerID, name, 0)]);
            Outside(cfg, s, s') && BooksOk(s')
  {
    var s' := s.(accounts := s.accounts[accountID := Account(ownerID, name, 0)]);
    assert forall t :: t in s.ledger ==> RowOk(s, t);
    LedgerSumOfStranger(s.ledger, accountID);
    AdjustmentSumOfStranger(s.adjustments, accountID);
    assert forall a :: a in s.accounts ==> AccountOk(s, a);
    assert AccountOk(s', accountID);
  }

  lemma RenameIsOutside(cfg: Config, s: State, accountID: string, name: string)
    requires Core(cfg, s) && accountID in s.accounts
    ensures var s' := s.(accounts := s.accounts[accountID := s.accounts[accountID].(name := name)]);
            Outside(cfg, s, s') && BooksOk(s')
  {
    assert forall t :: t in s.ledger ==> RowOk(s, t);
    assert forall a :: a in s.accounts ==> AccountOk(s, a);
  }

  lemma OutsideSteps(cfg: Config, s: State, a: Action)
    requires Core(cfg, s) && Enabled(cfg, s, a) && IsOutside(a)
    ensures Outside(cfg, s, Apply(cfg, s, a)) && BooksOk(Apply(cfg, s, a))
  {
    match a
    case Adjust(j) => AdjustIsOutside(cfg, s, j);
    case Open(accountID, ownerID, name) => OpenIsOutside(cfg, s, accountID, ownerID, name);
    case Rename(claims, userID, accountID, name) =>
      if accountID in s.accounts {
        RenameIsOutside(cfg, s, accountID, name);
      }
    case AdjustFault(j, cause) => SameBooks(s, Apply(cfg, s, a));
    case _ =>
  }

  lemma {:induction false} AdjustmentSumOfStranger(adjustments: seq<Adjustment>, accountID: string)
    requires forall a :: a in adjustments ==> a.accountID != accountID
    ensures AdjustmentSum(adjustments, accountID) == 0
  {
    if adjustments != [] {
      assert adjustments[|adjustments| - 1] in adjustments;
      AdjustmentSumOfStranger(adjustments[..|adjustments| - 1], accountID);
    }
  }

  lemma OutsideKeepsInv(cfg: Config, s: State, s': State)
    requires Inv(cfg, s) && Outside(cfg, s, s') && BooksOk(s')
    ensures Inv(cfg, s')
  {
    forall k | 0 <= k < |s'.locals|
      ensures LocalOk(cfg, s', k) && AttemptOk(cfg, s', k)
    {
      assert LocalOk(cfg, s, k) && AttemptOk(cfg, s, k);
      UndisturbedKeeps(cfg, s, s', k);
    }
    forall t | t in s'.ledger
      ensures exists k :: Wrote(s', k, t)
    {
      var k: nat :| Wrote(s, k, t);
      assert Wrote(s', k, t);
    }
  }

  // ---------------------------------------------------------------- runs

  lemma InitHasInv(cfg: Config, s: State)
    requires Init(cfg, s)
    ensures Inv(cfg, s)
  {
  }

  lemma AdvanceKeepsInv(cfg: Config, s: State, i: nat)
    requires Inv(cfg, s) && Ready(cfg, s, i)
    ensures Inv(cfg, Step(cfg, s, i))
  {
    var s' := Step(cfg, s, i);
    assert LocalOk(cfg, s, i);
    StepShape(cfg, s, i);
    StepKeepsSelf(cfg, s, i);
    StepClaimsFree(cfg, s, i);
    StepAudits(cfg, s, i);
    MoveKeepsInv(cfg, s, s', i);
  }

  lemma FaultKeepsInv(cfg: Config, s: State, i: nat, cause: string)
    requires Inv(cfg, s) && i < |s.locals| && !s.locals[i].phase.Done? && !s.locals[i].phase.Idle?
    ensures Inv(cfg, StepFault(s, i, cause))
  {
    var s' := StepFault(s, i, cause);
    assert LocalOk(cfg, s, i);
    FaultShape(cfg, s, i, cause);
    FaultKeepsSelf(cfg, s, i, cause);
    FaultAudits(cfg, s, i, cause);
    MoveKeepsInv(cfg, s, s', i);
  }

  lemma NextKeepsInv(cfg: Config, s: State, a: Action, s': State)
    requires Inv(cfg, s) && Next(cfg, s, a, s')
    ensures Inv(cfg, s')
  {
    match a
    case Advance(i) => AdvanceKeepsInv(cfg, s, i);
    case Fault(i, cause) => FaultKeepsInv(cfg, s, i, cause);
    case _ =>
      OutsideSteps(cfg, s, a);
      OutsideKeepsInv(cfg, s, s');
  }

  /** Every state of every run satisfies the invariants. */
  lemma {:induction false} RunsKeepInv(cfg: Config, states: seq<State>, actions: seq<Action>, n: nat)
    requires Run(cfg, states, actions) && n < |states|
    ensures Inv(cfg, states[n])
  {
    if n == 0 {
      InitHasInv(cfg, states[0]);
    } else {
      RunsKeepInv(cfg, states, actions, n - 1);
      NextKeepsInv(cfg, states[n - 1], actions[n - 1], states[n]);
    }
  }

  // ---------------------------------------------------------------- what the invariants mean

  /** No lost update, no overdraft, no overflow: at every moment of every interleaving a balance is
      the points of its ledger plus its raw adjustments, and fits a BIGINT from zero up. */
  lemma Conservation(cfg: Config, states: seq<State>, actions: seq<Action>, n: nat, accountID: string)
    requires Run(cfg, states, actions) && n < |states| && accountID in states[n].accounts
    ensures var s := states[n];
            && s.accounts[accountID].balance
               == LedgerSum(s.ledger, accountID) + AdjustmentSum(s.adjustments, accountID)
            && 0 <= s.accounts[accountID].balance <= MAX_INT64
  {
    RunsKeepInv(cfg, states, actions, n);
    assert AccountOk(states[n], accountID);
  }

  /** Each ref counts at most once, the accepted audit rows are the ledger rows in the same order,
      and a duplicate's audit row follows the accepted row of its ref, both in commit order and in id. */
  lemma ExactlyOnce(cfg: Config, states: seq<State>, actions: seq<Action>, n: nat)
    requires Run(cfg, states, actions) && n < |states|
    ensures var s := states[n];
            && UniqueRefs(s.ledger)
            && AcceptedFacts(s.audit) == RowFacts(s.ledger)
            && forall m :: 0 <= m < |s.audit| && s.audit[m].entry.outcome == AuditDuplicate ==>
                 AcceptedBefore(s.audit[..m], s.audit[m].entry.ref, s.audit[m].entry.id)
  {
    RunsKeepInv(cfg, states, actions, n);
  }

  /** The owner an audit row names, if it names one, is the account's. */
  ghost predicate OwnerIsTrue(s: State, e: AuditEntry) {
    e.ownerID.Some? ==> e.accountID in s.accounts && s.accounts[e.accountID].ownerID == e.ownerID.value
  }

  /** An attempt that settled has exactly one audit row, and it says what the caller was told; an
      attempt that failed validation, is still running, or could not be audited has none. */
  lemma OneEntryPerAttempt(cfg: Config, states: seq<State>, actions: seq<Action>, n: nat, i: nat)
    requires Run(cfg, states, actions) && n < |states| && i < |cfg.calls|
    ensures var s := states[n];
            i < |s.locals| &&
            match s.locals[i].phase
            case Done(Settled(outcome)) =>
              exists m: nat :: OnlyEntry(s.audit, i, m) && EntryOf(s.audit[m].entry, cfg.calls[i], outcome)
                               && OwnerIsTrue(s, s.audit[m].entry)
            case _ => forall m :: 0 <= m < |s.audit| ==> s.audit[m].attempt != i
  {
    RunsKeepInv(cfg, states, actions, n);
    assert AttemptOk(cfg, states[n], i) && LocalOk(cfg, states[n], i);
  }

  /** The ledger holds a row of an attempt exactly when the attempt was accepted, and it is the row
      the caller was given. */
  lemma RowIffAccepted(cfg: Config, states: seq<State>, actions: seq<Action>, n: nat, i: nat, t: Transaction)
    requires ValidConfig(cfg) && Run(cfg, states, actions) && n < |states| && i < |cfg.calls|
    ensures t in states[n].ledger && t.id == cfg.calls[i].uuid <==> Wrote(states[n], i, t)
  {
    var s := states[n];
    RunsKeepInv(cfg, states, actions, n);
    assert AttemptOk(cfg, s, i);
    if t in s.ledger && t.id == cfg.calls[i].uuid {
      var k: nat :| Wrote(s, k, t);
      assert AttemptOk(cfg, s, k);
      assert i == k || i < k || k < i;
    }
  }

  predicate StepOf(a: Action, i: nat) {
    (a.Advance? || a.Fault?) && a.i == i
  }

  lemma {:induction false} DoneStays(cfg: Config, states: seq<State>, actions: seq<Action>, m: nat, n: nat, i: nat)
    requires Run(cfg, states, actions) && m <= n < |states| && i < |cfg.calls|
    requires i < |states[m].locals| && states[m].locals[i].phase.Done?
    ensures i < |states[n].locals| && states[n].locals[i] == states[m].locals[i]
  {
    RunsKeepInv(cfg, states, actions, n);
    if m < n {
      DoneStays(cfg, states, actions, m, n - 1, i);
      RunsKeepInv(cfg, states, actions, n - 1);
      NextLeavesOthers(cfg, states[n - 1], actions[n - 1], states[n], i);
    }
  }

  lemma NextLeavesOthers(cfg: Config, s: State, a: Action, s': State, k: nat)
    requires Inv(cfg, s) && Next(cfg, s, a, s') && k < |s.locals|
    requires StepOf(a, k) ==> s.locals[k].phase.Done?
    ensures Shaped(cfg, s') && s'.locals[k] == s.locals[k]
  {
    match a
    case Advance(i) =>
      assert LocalOk(cfg, s, i);
      StepShape(cfg, s, i);
    case Fault(i, cause) => FaultShape(cfg, s, i, cause);
    case Adjust(j) => OutsideSteps(cfg, s, a);
    case AdjustFault(j, cause) => OutsideSteps(cfg, s, a);
    case Open(accountID, ownerID, name) => OutsideSteps(cfg, s, a);
    case Rename(claims, userID, accountID, name) => OutsideSteps(cfg, s, a);
  }

  /** The attempt has been accepted. */
  predicate IsAccepted(l: Local) {
    l.phase.Done? && l.phase.result.Settled? && l.phase.result.outcome.Accepted?
  }

  /** All or nothing, whatever failed and whenever: no step of an attempt that is not accepted, be it
      rejected, still running or abandoned half way, has ever changed an account or the ledger; and
      once it is done it holds neither its ref nor its account row. */
  lemma AllOrNothing(cfg: Config, states: seq<State>, actions: seq<Action>, m: nat, n: nat, i: nat)
    requires Run(cfg, states, actions) && m < n < |states| && i < |cfg.calls|
    requires StepOf(actions[m], i)
    requires i < |states[n].locals| && !IsAccepted(states[n].locals[i])
    ensures states[m + 1].Books() == states[m].Books()
    ensures states[n].locals[i].phase.Done? ==> NothingPending(states[n].locals[i])
  {
    var s, s' := states[m], states[m + 1];
    RunsKeepInv(cfg, states, actions, m);
    RunsKeepInv(cfg, states, actions, n);
    assert LocalOk(cfg, s, i) && LocalOk(cfg, states[n], i);
    assert Next(cfg, s, actions[m], s');
    MoveChangesBooksByCommit(cfg, s, actions[m], s', i);
    if s'.Books() != s.Books() {
      DoneStays(cfg, states, actions, m + 1, n, i);
    }
  }

  lemma MoveChangesBooksByCommit(cfg: Config, s: State, a: Action, s': State, i: nat)
    requires Inv(cfg, s) && Next(cfg, s, a, s') && StepOf(a, i) && i < |s.locals|
    ensures s'.Books() != s.Books() ==> i < |s'.locals| && IsAccepted(s'.locals[i])
  {
    assert LocalOk(cfg, s, i);
    if a.Advance? {
      StepShape(cfg, s, i);
      StepAudits(cfg, s, i);
    } else {
      FaultShape(cfg, s, i, a.cause);
      FaultAudits(cfg, s, i, a.cause);
    }
  }

  /** Once a statement of a transaction has failed, its only next step is the rollback: the
      duplicate path never reads in an aborted transaction. */
  lemma AbortedOnlyRollsBack(cfg: Config, states: seq<State>, actions: seq<Action>, n: nat, i: nat)
    requires Run(cfg, states, actions) && n < |actions| && i < |cfg.calls| && actions[n] == Advance(i)
    requires i < |states[n].locals| && states[n].locals[i].aborted
    ensures i < |states[n + 1].locals| && states[n + 1].locals[i].phase.Rejecting?
    ensures NothingPending(states[n + 1].locals[i]) && states[n + 1].Books() == states[n].Books()
  {
    RunsKeepInv(cfg, states, actions, n);
    assert LocalOk(cfg, states[n], i);
    assert Next(cfg, states[n], actions[n], states[n + 1]);
  }

  /** In every state of a run, a transaction is aborted exactly when it is rolling back over a statement that
      raised an error; an update that matched no row raises none. */
  lemma AbortedWhen(cfg: Config, states: seq<State>, actions: seq<Action>, n: nat, i: nat)
    requires Run(cfg, states, actions) && n <= |actions| && i < |cfg.calls|
    ensures i < |states[n].locals|
    ensures var l := states[n].locals[i];
            l.aborted <==> l.phase.RollingBack? && (l.phase.error.Storage? || l.phase.error.OutOfRange?)
  {
    RunsKeepInv(cfg, states, actions, n);
    assert LocalOk(cfg, states[n], i);
  }

  /** A statement that fails inside a transaction, other than its end, aborts it there and then: what comes next
      is the rollback. */
  lemma FaultAborts(cfg: Config, states: seq<State>, actions: seq<Action>, n: nat, i: nat)
    requires Run(cfg, states, actions) && n < |actions| && actions[n].Fault? && actions[n].i == i
    requires i < |states[n].locals|
    requires var p := states[n].locals[i].phase;
             p.InTx() && !p.CommitAccept? && !p.CommitRepeat? && !p.RollingBack?
    ensures i < |states[n + 1].locals| && states[n + 1].locals[i].aborted && states[n + 1].locals[i].phase.RollingBack?
  {
    assert Next(cfg, states[n], actions[n], states[n + 1]);
  }

  /** Between two moments of a run an account moves by exactly the points and the adjustments
      committed in between. So a raw adjustment, which reads the balance back in a statement of its
      own, returns its own result plus whatever was committed before the read. */
  lemma AdjustedBalance(cfg: Config, states: seq<State>, actions: seq<Action>, m: nat, n: nat, j: nat)
    requires Run(cfg, states, actions) && m < n < |actions| && j < |cfg.adjusts|
    requires actions[m] == Adjust(j) && actions[n] == Adjust(j)
    requires j < |states[m + 1].adjusting| && states[m + 1].adjusting[j] == AdjustReadBack
    requires j < |states[n].adjusting| && states[n].adjusting[j] == AdjustReadBack
    requires cfg.adjusts[j].accountID in states[m + 1].accounts && cfg.adjusts[j].accountID in states[n].accounts
    ensures var a := cfg.adjusts[j].accountID;
            j < |states[n + 1].adjusting| &&
            states[n + 1].adjusting[j] == AdjustDone(Adjusted(
              states[m + 1].accounts[a].balance
              + LedgerSum(states[n].ledger, a) - LedgerSum(states[m + 1].ledger, a)
              + AdjustmentSum(states[n].adjustments, a) - AdjustmentSum(states[m + 1].adjustments, a)))
  {
    var a := cfg.adjusts[j].accountID;
    Conservation(cfg, states, actions, m + 1, a);
    Conservation(cfg, states, actions, n, a);
    assert Next(cfg, states[n], actions[n], states[n + 1]);
    ReadBackReads(cfg, states[n], j);
  }

  /** The second statement of a raw adjustment answers the balance committed at that moment. */
  lemma ReadBackReads(cfg: Config, s: State, j: nat)
    requires Shaped(cfg, s) && j < |s.adjusting| && s.adjusting[j].AdjustReadBack?
    requires cfg.adjusts[j].accountID in s.accounts
    ensures var s' := Apply(cfg, s, Adjust(j));
            j < |s'.adjusting|
            && s'.adjusting[j] == AdjustDone(Adjusted(s.accounts[cfg.adjusts[j].accountID].balance))
  {
  }

  /** The action is a step on account `a` by anybody but adjustment `j`. */
  predicate OnAccount(cfg: Config, action: Action, a: string, j: nat) {
    match action
    case Advance(i) => i < |cfg.calls| && cfg.calls[i].request.accountID == a
    case Adjust(k) => k != j && k < |cfg.adjusts| && cfg.adjusts[k].accountID == a
    case _ => false
  }

  lemma OffAccountMove(cfg: Config, s: State, s': State, i: nat, a: string)
    requires Shaped(cfg, s) && i < |s.locals| && Shape(cfg, s, s', i) && a in s.accounts
    requires s.locals[i].phase.CommitAccept? ==> cfg.calls[i].request.accountID != a
    ensures s'.adjusting == s.adjusting && a in s'.accounts && s'.accounts[a].balance == s.accounts[a].balance
  {
  }

  lemma OffAccountOutside(cfg: Config, s: State, action: Action, a: string, j: nat)
    requires Shaped(cfg, s) && Enabled(cfg, s, action) && IsOutside(action) && !OnAccount(cfg, action, a, j)
    requires j < |s.adjusting| && !s.adjusting[j].AdjustIdle? && a in s.accounts
    ensures var s' := Apply(cfg, s, action);
            && j < |s'.adjusting| && !s'.adjusting[j].AdjustIdle?
            && a in s'.accounts && s'.accounts[a].balance == s.accounts[a].balance
  {
  }

  lemma OffAccountStep(cfg: Config, s: State, action: Action, s': State, a: string, j: nat)
    requires Inv(cfg, s) && Next(cfg, s, action, s') && !OnAccount(cfg, action, a, j)
    requires j < |s.adjusting| && !s.adjusting[j].AdjustIdle? && a in s.accounts
    ensures j < |s'.adjusting| && !s'.adjusting[j].AdjustIdle?
    ensures a in s'.accounts && s'.accounts[a].balance == s.accounts[a].balance
  {
    match action
    case Advance(i) =>
      assert LocalOk(cfg, s, i);
      StepShape(cfg, s, i);
      OffAccountMove(cfg, s, s', i, a);
    case Fault(i, cause) =>
      FaultShape(cfg, s, i, cause);
      assert !Commits(s, s', i);
    case _ => OffAccountOutside(cfg, s, action, a, j);
  }

  lemma {:induction false} OffAccountSteps(
    cfg: Config, states: seq<State>, actions: seq<Action>, m: nat, n: nat, a: string, j: nat)
    requires Run(cfg, states, actions) && m <= n < |states|
    requires j < |states[m].adjusting| && !states[m].adjusting[j].AdjustIdle? && a in states[m].accounts
    requires forall k :: m <= k < n ==> !OnAccount(cfg, actions[k], a, j)
    ensures j < |states[n].adjusting| && !states[n].adjusting[j].AdjustIdle?
    ensures a in states[n].accounts && states[n].accounts[a].balance == states[m].accounts[a].balance
  {
    if m < n {
      OffAccountSteps(cfg, states, actions, m, n - 1, a, j);
      RunsKeepInv(cfg, states, actions, n - 1);
      OffAccountStep(cfg, states[n - 1], actions[n - 1], states[n], a, j);
    }
  }

  /** When nobody else works on the account between its two statements, a raw adjustment is told the
      balance it produced. */
  lemma AdjustedBalanceExact(cfg: Config, states: seq<State>, actions: seq<Action>, m: nat, n: nat, j: nat)
    requires Run(cfg, states, actions) && m < n < |actions| && j < |cfg.adjusts|
    requires actions[m] == Adjust(j) && actions[n] == Adjust(j)
    requires j < |states[m + 1].adjusting| && states[m + 1].adjusting[j] == AdjustReadBack
    requires j < |states[n].adjusting| && states[n].adjusting[j] == AdjustReadBack
    requires cfg.adjusts[j].accountID in states[m + 1].accounts
    requires forall k :: m < k < n ==> !OnAccount(cfg, actions[k], cfg.adjusts[j].accountID, j)
    ensures j < |states[n + 1].adjusting|
    ensures states[n + 1].adjusting[j] == AdjustDone(Adjusted(states[m + 1].accounts[cfg.adjusts[j].accountID].balance))
  {
    OffAccountSteps(cfg, states, actions, m + 1, n, cfg.adjusts[j].accountID, j);
    assert Next(cfg, states[n], actions[n], states[n + 1]);
  }

  /** Two overlapping adjustments of an empty account, by 5 and by 7: the first leaves 5 and is told 12,
      and the account ends at 12 with no ledger row at all. */
  lemma AdjustedBalanceCanDiffer() returns (cfg: Config, states: seq<State>, actions: seq<Action>)
    ensures Run(cfg, states, actions) && |states| == 5 && |cfg.adjusts| == 2
    ensures actions[1] == Adjust(0) && "a" in states[2].accounts && states[2].accounts["a"].balance == 5
    ensures |states[4].adjusting| == 2 && states[4].adjusting[0] == AdjustDone(Adjusted(12))
    ensures "a" in states[4].accounts && states[4].accounts["a"].balance == 12 && states[4].ledger == []
  {
    var claims := [PERM_ACCOUNT_WRITE_ALL];
    var first, second := AdjustCall(claims, "admin", "a", 5), AdjustCall(claims, "admin", "a", 7);
    cfg := Config([], [first, second], 1);
    actions := [Open("a", "owner", "wallet"), Adjust(0), Adjust(1), Adjust(0)];
    var s0 := State(map[], [], [], 0, seq(0, _ => FRESH), seq(2, _ => AdjustIdle), []);
    var s1 := Apply(cfg, s0, actions[0]);
    assert s1.adjusting == [AdjustIdle, AdjustIdle];
    assert Adjustable(s1, first);
    var s2 := AdjustStep(cfg, s1, 0);
    assert s2.accounts["a"].balance == 5 && s2.adjusting == [AdjustReadBack, AdjustIdle];
    assert Adjustable(s2, second);
    var s3 := AdjustStep(cfg, s2, 1);
    assert s3.accounts["a"].balance == 12 && s3.adjusting == [AdjustReadBack, AdjustReadBack];
    var s4 := AdjustStep(cfg, s3, 0);
    states := [s0, s1, s2, s3, s4];
    assert Next(cfg, s0, actions[0], s1) && Next(cfg, s1, actions[1], s2);
    assert Next(cfg, s2, actions[2], s3) && Next(cfg, s3, actions[3], s4);
  }

  /** The ledger only grows, at its end: what one statement reads, every later one finds again. */
  lemma LedgerOnlyGrows(cfg: Config, states: seq<State>, actions: seq<Action>, m: nat, n: nat)
    requires Run(cfg, states, actions) && m <= n < |states|
    ensures states[m].ledger <= states[n].ledger
  {
    var ledgers := seq(|states|, k requires 0 <= k < |states| => states[k].ledger);
    forall k | 0 <= k < |ledgers| - 1
      ensures ledgers[k] <= ledgers[k + 1]
    {
      StepGrowsLedger(cfg, states, actions, k);
    }
    PrefixesChain(ledgers, m, n);
  }

  lemma {:induction false} PrefixesChain(ledgers: seq<seq<Transaction>>, m: nat, n: nat)
    requires m <= n < |ledgers| && forall k :: 0 <= k < |ledgers| - 1 ==> ledgers[k] <= ledgers[k + 1]
    ensures ledgers[m] <= ledgers[n]
  {
    if m < n {
      PrefixesChain(ledgers, m, n - 1);
    }
  }

  lemma StepGrowsLedger(cfg: Config, states: seq<State>, actions: seq<Action>, n: nat)
    requires Run(cfg, states, actions) && n < |actions|
    ensures states[n].ledger <= states[n + 1].ledger
  {
    RunsKeepInv(cfg, states, actions, n);
    NextGrowsLedger(cfg, states[n], actions[n], states[n + 1]);
  }

  lemma NextGrowsLedger(cfg: Config, s: State, a: Action, s': State)
    requires Inv(cfg, s) && Next(cfg, s, a, s')
    ensures s.ledger <= s'.ledger
  {
    match a
    case Advance(i) =>
      assert LocalOk(cfg, s, i);
      StepShape(cfg, s, i);
    case Fault(i, cause) => FaultShape(cfg, s, i, cause);
    case _ => OutsideSteps(cfg, s, a);
  }
}
