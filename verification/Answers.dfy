/** What callers are told over whole runs: an answer always has its ground in the committed books, and a
    failure is told only when a statement of the caller's own failed. */
module Answers {
  import opened Domain
  import opened Wallet
  import opened Protocol
  import opened Invariants
  import opened Runs
  import opened Linearizability
  import opened Progress

  // ---------------------------------------------------------------- failures are never made up

  /** A statement of the attempt failed with this cause before step n. */
  ghost predicate FailedBefore(actions: seq<Action>, i: nat, cause: string, n: nat) {
    exists k: nat :: k < n && k < |actions| && actions[k] == Fault(i, cause)
  }

  /** An error is one of the four answers, or the failure of a statement of the attempt, wrapped or not in
      the failure of its rollback. */
  ghost predicate Explained(actions: seq<Action>, i: nat, e: Error, n: nat) {
    match e
    case NotFound => true
    case InsufficientBalance => true
    case OutOfRange => true
    case Unreadable => true
    case Storage(_, cause) => FailedBefore(actions, i, cause, n)
    case RollbackFailed(cause, original) => FailedBefore(actions, i, cause, n) && Explained(actions, i, original, n)
    case _ => false
  }

  /** The rejection's own audit row failed. */
  ghost predicate AuditFailed(states: seq<State>, actions: seq<Action>, i: nat, e: Error, n: nat) {
    exists k: nat, cause: string :: AuditFailedAt(states, actions, i, e, cause, k) && k < n
  }

  ghost predicate AuditFailedAt(states: seq<State>, actions: seq<Action>, i: nat, e: Error, cause: string, k: nat) {
    && k < |actions| && k < |states| && actions[k] == Fault(i, cause)
    && i < |states[k].locals| && states[k].locals[i].phase.Rejecting? && e.Storage? && e.cause == cause
  }

  /** Whatever failure the attempt has on its hands happened. */
  ghost predicate Accounted(cfg: Config, states: seq<State>, actions: seq<Action>, i: nat, n: nat)
    requires n < |states| && i < |states[n].locals| && i < |cfg.calls|
  {
    match states[n].locals[i].phase
    case RollingBack(error) => Explained(actions, i, error, n)
    case Rejecting(error) => Explained(actions, i, error, n)
    case Done(Settled(outcome)) => outcome.Rejected? ==> Explained(actions, i, outcome.error, n)
    case Done(Unaudited(error)) => AuditFailed(states, actions, i, error, n)
    case Done(Refused) => !WellFormed(cfg.calls[i].request)
    case _ => true
  }

  lemma {:induction false} ExplainedLater(actions: seq<Action>, i: nat, e: Error, n: nat)
    requires Explained(actions, i, e, n)
    ensures Explained(actions, i, e, n + 1)
  {
    if e.Storage? {
      FailedLater(actions, i, e.cause, n);
    } else if e.RollbackFailed? {
      FailedLater(actions, i, e.cause, n);
      ExplainedLater(actions, i, e.original, n);
    }
  }

  lemma FailedLater(actions: seq<Action>, i: nat, cause: string, n: nat)
    requires FailedBefore(actions, i, cause, n)
    ensures FailedBefore(actions, i, cause, n + 1)
  {
    var k: nat :| k < n && k < |actions| && actions[k] == Fault(i, cause);
  }

  lemma AccountedLater(cfg: Config, states: seq<State>, actions: seq<Action>, i: nat, n: nat)
    requires n + 1 < |states| && i < |states[n].locals| && i < |cfg.calls| && Accounted(cfg, states, actions, i, n)
    requires i < |states[n + 1].locals| && states[n + 1].locals[i].phase == states[n].locals[i].phase
    ensures Accounted(cfg, states, actions, i, n + 1)
  {
    match states[n].locals[i].phase
    case RollingBack(error) => ExplainedLater(actions, i, error, n);
    case Rejecting(error) => ExplainedLater(actions, i, error, n);
    case Done(Settled(outcome)) =>
      if outcome.Rejected? {
        ExplainedLater(actions, i, outcome.error, n);
      }
    case Done(Unaudited(error)) =>
      var k: nat, cause: string :| AuditFailedAt(states, actions, i, error, cause, k) && k < n;
      assert AuditFailedAt(states, actions, i, error, cause, k) && k < n + 1;
    case _ =>
  }

  /** The error a phase carries, if it carries one. */
  function ErrorOf(phase: Phase): Option<Error> {
    match phase
    case RollingBack(error) => Some(error)
    case Rejecting(error) => Some(error)
    case Done(Settled(Rejected(error))) => Some(error)
    case _ => None
  }

  predicate FourAnswers(e: Error) {
    e.NotFound? || e.InsufficientBalance? || e.OutOfRange? || e.Unreadable?
  }

  /** A step that succeeds carries an error on or finds one of the four answers. */
  lemma StepInventsNothing(cfg: Config, s: State, i: nat)
    requires Shaped(cfg, s) && i < |s.locals| && LocalOk(cfg, s, i) && !s.locals[i].phase.Done?
    ensures |Step(cfg, s, i).locals| == |s.locals|
    ensures var before, after := s.locals[i].phase, Step(cfg, s, i).locals[i].phase;
            && (ErrorOf(after).Some? ==> FourAnswers(ErrorOf(after).value) || ErrorOf(before) == ErrorOf(after))
            && (after.Done? ==> !after.result.Unaudited?)
            && (after == Done(Refused) ==> !WellFormed(cfg.calls[i].request))
  {
    ValidMeans(cfg.calls[i].request);
    match s.locals[i].phase
    case Preflight =>
    case InsertRow =>
    case UpdateBalance(_) =>
    case ReadBack(_) =>
    case _ =>
  }

  /** What a failing statement leaves is its own failure, over the error that was there. */
  predicate SaysWhy(before: Phase, after: Phase, cause: string) {
    match after
    case RollingBack(e) => e.Storage? && e.cause == cause
    case Rejecting(e) =>
      if before.RollingBack? then e == RollbackFailed(cause, before.error) else e.Storage? && e.cause == cause
    case Done(Unaudited(e)) => before.Rejecting? && e.Storage? && e.cause == cause
    case _ => false
  }

  lemma FaultSaysWhy(s: State, i: nat, cause: string)
    requires i < |s.locals| && !s.locals[i].phase.Idle? && !s.locals[i].phase.Done?
    ensures |StepFault(s, i, cause).locals| == |s.locals|
    ensures SaysWhy(s.locals[i].phase, StepFault(s, i, cause).locals[i].phase, cause)
  {
    match s.locals[i].phase
    case RollingBack(_) =>
    case Rejecting(_) =>
    case _ =>
  }

  lemma AdvanceAccounts(cfg: Config, states: seq<State>, actions: seq<Action>, i: nat, n: nat)
    requires n < |actions| && |states| == |actions| + 1 && i < |cfg.calls|
    requires Shaped(cfg, states[n]) && LocalOk(cfg, states[n], i) && !states[n].locals[i].phase.Done?
    requires states[n + 1] == Step(cfg, states[n], i) && Accounted(cfg, states, actions, i, n)
    ensures i < |states[n + 1].locals| && Accounted(cfg, states, actions, i, n + 1)
  {
    StepInventsNothing(cfg, states[n], i);
    var before := ErrorOf(states[n].locals[i].phase);
    if before.Some? {
      ExplainedLater(actions, i, before.value, n);
    }
  }

  lemma FaultAccounts(cfg: Config, states: seq<State>, actions: seq<Action>, i: nat, n: nat, cause: string)
    requires n < |actions| && |states| == |actions| + 1 && i < |cfg.calls| && actions[n] == Fault(i, cause)
    requires i < |states[n].locals| && !states[n].locals[i].phase.Idle? && !states[n].locals[i].phase.Done?
    requires states[n + 1] == StepFault(states[n], i, cause) && Accounted(cfg, states, actions, i, n)
    ensures i < |states[n + 1].locals| && Accounted(cfg, states, actions, i, n + 1)
  {
    FaultSaysWhy(states[n], i, cause);
    assert FailedBefore(actions, i, cause, n + 1);
    var before := states[n].locals[i].phase;
    if before.RollingBack? {
      ExplainedLater(actions, i, before.error, n);
    }
    var after := states[n + 1].locals[i].phase;
    if after.Done? {
      assert AuditFailedAt(states, actions, i, after.result.error, cause, n);
    }
  }

  lemma NextAccounts(cfg: Config, states: seq<State>, actions: seq<Action>, i: nat, n: nat)
    requires n < |actions| && |states| == |actions| + 1 && i < |cfg.calls|
    requires Inv(cfg, states[n]) && Next(cfg, states[n], actions[n], states[n + 1])
    requires Accounted(cfg, states, actions, i, n)
    ensures i < |states[n + 1].locals| && Accounted(cfg, states, actions, i, n + 1)
  {
    assert LocalOk(cfg, states[n], i);
    if actions[n] == Advance(i) {
      AdvanceAccounts(cfg, states, actions, i, n);
    } else if StepOf(actions[n], i) {
      FaultAccounts(cfg, states, actions, i, n, actions[n].cause);
    } else {
      NextLeavesOthers(cfg, states[n], actions[n], states[n + 1], i);
      AccountedLater(cfg, states, actions, i, n);
    }
  }

  lemma RunAccounts(cfg: Config, states: seq<State>, actions: seq<Action>, i: nat, n: nat)
    requires Run(cfg, states, actions) && n < |actions| && i < |cfg.calls|
    requires i < |states[n].locals| && Accounted(cfg, states, actions, i, n)
    ensures i < |states[n + 1].locals| && Accounted(cfg, states, actions, i, n + 1)
  {
    RunsKeepInv(cfg, states, actions, n);
    NextAccounts(cfg, states, actions, i, n);
  }

  /** Over every run: whatever failure an attempt is left with or was told, a statement of its own failed
      with that cause before; only a request that cannot be acted on is refused; and a rejection goes
      unaudited only when its own audit row failed. */
  lemma {:induction false} FailuresHappened(cfg: Config, states: seq<State>, actions: seq<Action>, i: nat, n: nat)
    requires Run(cfg, states, actions) && n < |states| && i < |cfg.calls|
    ensures i < |states[n].locals| && Accounted(cfg, states, actions, i, n)
  {
    if n == 0 {
      assert Init(cfg, states[0]);
    } else {
      FailuresHappened(cfg, states, actions, i, n - 1);
      RunAccounts(cfg, states, actions, i, n - 1);
    }
  }

  /** No statement of the attempt failed. */
  ghost predicate Untroubled(actions: seq<Action>, i: nat) {
    forall k :: 0 <= k < |actions| ==> !(actions[k].Fault? && actions[k].i == i)
  }

  /** Without a failure of its own a finished attempt was refused because it cannot be acted on, or was
      told what `Process` gives on the committed books at one of its own steps, and never anything
      else. */
  lemma UntroubledIsAnswered(cfg: Config, states: seq<State>, actions: seq<Action>, i: nat) returns (k: nat)
    requires Run(cfg, states, actions) && i < |cfg.calls| && Untroubled(actions, i)
    requires i < |states[|actions|].locals| && states[|actions|].locals[i].phase.Done?
    ensures var result := states[|actions|].locals[i].phase.result;
            if WellFormed(cfg.calls[i].request)
            then result.Settled? && Point(cfg, states, actions, i, result.outcome, k)
            else result == Refused
  {
    var n := |actions|;
    var l := states[n].locals[i];
    FailuresHappened(cfg, states, actions, i, n);
    RunsKeepInv(cfg, states, actions, n);
    assert LocalOk(cfg, states[n], i);
    ValidMeans(cfg.calls[i].request);
    k := 0;
    if l.phase.result.Settled? {
      k := Linearizable(cfg, states, actions, i, n);
    }
  }

  /** So every run in which no statement of the attempt failed goes on to one in which it is answered so. */
  lemma EverybodyIsAnswered(cfg: Config, states: seq<State>, actions: seq<Action>, i: nat)
    returns (states': seq<State>, actions': seq<Action>, k: nat)
    requires ValidConfig(cfg) && Run(cfg, states, actions) && Untroubled(actions, i)
    requires i < |cfg.calls| && WellFormed(cfg.calls[i].request)
    ensures Run(cfg, states', actions') && states <= states' && actions <= actions'
    ensures var s := states'[|states'| - 1];
            && i < |s.locals| && s.locals[i].phase.Done? && s.locals[i].phase.result.Settled?
            && Point(cfg, states', actions', i, s.locals[i].phase.result.outcome, k)
  {
    states', actions' := Completion(cfg, states, actions);
    RunsKeepInv(cfg, states', actions', |actions'|);
    assert Untroubled(actions', i) by {
      forall m | 0 <= m < |actions'|
        ensures !(actions'[m].Fault? && actions'[m].i == i)
      {
        assert m < |actions| ==> actions'[m] == actions[m];
      }
    }
    k := UntroubledIsAnswered(cfg, states', actions', i);
  }

  // ---------------------------------------------------------------- what the answers mean

  /** What a settled attempt was told is what its answer means on the committed books around one of its
      own steps: points posted with their sign, the recorded row given back, or a rejection with its
      ground. */
  lemma AnswersMean(cfg: Config, states: seq<State>, actions: seq<Action>, i: nat, n: nat) returns (k: nat)
    requires Run(cfg, states, actions) && n < |states| && i < |cfg.calls|
    requires i < |states[n].locals| && states[n].locals[i].phase.Done? && states[n].locals[i].phase.result.Settled?
    requires IsAnswer(Plain(states[n].locals[i].phase.result.outcome))
    ensures k < n && k < |actions| && actions[k] == Advance(i)
    ensures Means(states[k].Books(), cfg.calls[i], states[k + 1].Books(), Plain(states[n].locals[i].phase.result.outcome))
  {
    k := Linearizable(cfg, states, actions, i, n);
    RunsKeepInv(cfg, states, actions, n);
    assert LocalOk(cfg, states[n], i);
    ProcessMeans(states[k].Books(), cfg.calls[i]);
  }

  /** An acceptance moves the committed balance by the points, up for an earn and down for a spend, and
      adds the row and the audit entry that say so. */
  lemma AcceptancePosts(cfg: Config, states: seq<State>, actions: seq<Action>, i: nat, n: nat) returns (k: nat, m: nat)
    requires Run(cfg, states, actions) && n < |states| && i < |cfg.calls|
    requires i < |states[n].locals| && IsAccepted(states[n].locals[i])
    ensures k < n && k < |actions| && actions[k] == Advance(i)
    ensures var outcome := states[n].locals[i].phase.result.outcome;
            && Posted(states[k].Books(), cfg.calls[i], states[k + 1].Books(), outcome.transaction, outcome.balance)
            && OnlyEntry(states[n].audit, i, m) && EntryOf(states[n].audit[m].entry, cfg.calls[i], outcome)
  {
    k := AnswersMean(cfg, states, actions, i, n);
    OneEntryPerAttempt(cfg, states, actions, n, i);
    m :| OnlyEntry(states[n].audit, i, m)
         && EntryOf(states[n].audit[m].entry, cfg.calls[i], states[n].locals[i].phase.result.outcome);
  }

  // ---------------------------------------------------------------- raw adjustments

  /** The caller may write the account: it is theirs, or they write every account. */
  ghost predicate Writes(s: State, call: AdjustCall) {
    call.accountID in s.accounts
    && (PERM_ACCOUNT_WRITE_ALL in call.claims || s.accounts[call.accountID].ownerID == call.userID)
  }

  ghost predicate Moved(s: State, s': State, call: AdjustCall) {
    && Writes(s, call) && call.accountID in s'.accounts
    && 0 <= s.accounts[call.accountID].balance + call.delta <= 0x7FFF_FFFF_FFFF_FFFF
    && s'.accounts == s.accounts[call.accountID :=
         s.accounts[call.accountID].(balance := s.accounts[call.accountID].balance + call.delta)]
  }

  /** The ground at step k for what adjustment j has come to: its update moved the balance, or did not and
      why, or its second statement read what it answers. */
  ghost predicate Told(cfg: Config, states: seq<State>, actions: seq<Action>, j: nat, phase: AdjustPhase, k: nat)
    requires j < |cfg.adjusts| && k < |actions| && |states| == |actions| + 1
  {
    var s, s', call := states[k], states[k + 1], cfg.adjusts[j];
    match phase
    case AdjustIdle => true
    case AdjustReadBack => actions[k] == Adjust(j) && Moved(s, s', call)
    case AdjustClassify =>
      actions[k] == Adjust(j) && (Writes(s, call) ==> s.accounts[call.accountID].balance + call.delta < 0)
    case AdjustDone(AdjustRefused) => call.accountID == "" || call.delta == 0 || call.userID == ""
    case AdjustDone(Adjusted(balance)) =>
      actions[k] == Adjust(j) && call.accountID in s.accounts && balance == s.accounts[call.accountID].balance
    case AdjustDone(NotAdjusted(error)) =>
      match error
      case NotFound => actions[k] == Adjust(j) && !Writes(s, call)
      case InsufficientBalance => actions[k] == Adjust(j) && Writes(s, call)
      case OutOfRange =>
        actions[k] == Adjust(j) && Writes(s, call)
        && s.accounts[call.accountID].balance + call.delta > 0x7FFF_FFFF_FFFF_FFFF
      case Storage(_, cause) => actions[k] == AdjustFault(j, cause)
      case _ => false
  }

  /** Adjustment j stands where a step before n put it. */
  ghost predicate ToldBefore(cfg: Config, states: seq<State>, actions: seq<Action>, j: nat, phase: AdjustPhase, n: nat)
    requires j < |cfg.adjusts| && |states| == |actions| + 1
  {
    phase.AdjustIdle? || exists k: nat :: k < n && k < |actions| && Told(cfg, states, actions, j, phase, k)
  }

  /** And it got to its last statement over the first one's outcome. */
  ghost predicate AdjustOk(cfg: Config, states: seq<State>, actions: seq<Action>, j: nat, n: nat)
    requires j < |cfg.adjusts| && |states| == |actions| + 1 && n < |states| && j < |states[n].adjusting|
  {
    var phase := states[n].adjusting[j];
    && ToldBefore(cfg, states, actions, j, phase, n)
    && (phase.AdjustReadBack? ==> cfg.adjusts[j].accountID in states[n].accounts)
    && (phase.AdjustDone? && phase.result.Adjusted? ==> ToldBefore(cfg, states, actions, j, AdjustReadBack, n))
    && (phase == AdjustDone(NotAdjusted(InsufficientBalance)) ==>
          ToldBefore(cfg, states, actions, j, AdjustClassify, n))
  }

  lemma AdjustStepTells(cfg: Config, states: seq<State>, actions: seq<Action>, j: nat, n: nat)
    requires n < |actions| && |states| == |actions| + 1 && actions[n] == Adjust(j)
    requires Shaped(cfg, states[n]) && AdjustReady(cfg, states[n], j) && states[n + 1] == AdjustStep(cfg, states[n], j)
    requires BooksOk(states[n])
    requires states[n].adjusting[j].AdjustReadBack? ==> cfg.adjusts[j].accountID in states[n].accounts
    ensures j < |states[n + 1].adjusting|
    ensures Told(cfg, states, actions, j, states[n + 1].adjusting[j], n)
    ensures states[n + 1].adjusting[j].AdjustReadBack? ==> cfg.adjusts[j].accountID in states[n + 1].accounts
    ensures var before, after := states[n].adjusting[j], states[n + 1].adjusting[j];
            && (after.AdjustDone? && after.result.Adjusted? ==> before.AdjustReadBack?)
            && (after == AdjustDone(NotAdjusted(InsufficientBalance)) ==> before.AdjustClassify?)
  {
  }

  lemma ToldLater(cfg: Config, states: seq<State>, actions: seq<Action>, j: nat, phase: AdjustPhase, n: nat)
    requires j < |cfg.adjusts| && |states| == |actions| + 1 && ToldBefore(cfg, states, actions, j, phase, n)
    ensures ToldBefore(cfg, states, actions, j, phase, n + 1)
  {
    if !phase.AdjustIdle? {
      var k: nat :| k < n && k < |actions| && Told(cfg, states, actions, j, phase, k);
    }
  }

  lemma AccountsStay(cfg: Config, s: State, a: Action, s': State, accountID: string)
    requires Inv(cfg, s) && Next(cfg, s, a, s') && accountID in s.accounts
    ensures accountID in s'.accounts
  {
    match a
    case Advance(i) =>
      assert LocalOk(cfg, s, i);
      StepShape(cfg, s, i);
    case Fault(i, cause) => FaultShape(cfg, s, i, cause);
    case _ => OutsideSteps(cfg, s, a);
  }

  lemma AdjustLeavesOthers(cfg: Config, s: State, a: Action, s': State, j: nat)
    requires Inv(cfg, s) && Next(cfg, s, a, s') && j < |s.adjusting|
    requires !((a.Adjust? || a.AdjustFault?) && a.j == j)
    ensures j < |s'.adjusting| && s'.adjusting[j] == s.adjusting[j]
  {
    match a
    case Advance(i) =>
      assert LocalOk(cfg, s, i);
      StepShape(cfg, s, i);
    case Fault(i, cause) => FaultShape(cfg, s, i, cause);
    case _ =>
  }

  lemma AdjustKept(cfg: Config, states: seq<State>, actions: seq<Action>, j: nat, n: nat)
    requires n < |actions| && |states| == |actions| + 1 && j < |cfg.adjusts|
    requires j < |states[n].adjusting| && AdjustOk(cfg, states, actions, j, n)
    requires j < |states[n + 1].adjusting| && states[n + 1].adjusting[j] == states[n].adjusting[j]
    requires cfg.adjusts[j].accountID in states[n].accounts ==> cfg.adjusts[j].accountID in states[n + 1].accounts
    ensures AdjustOk(cfg, states, actions, j, n + 1)
  {
    var phase := states[n].adjusting[j];
    ToldLater(cfg, states, actions, j, phase, n);
    if phase.AdjustDone? && phase.result.Adjusted? {
      ToldLater(cfg, states, actions, j, AdjustReadBack, n);
    }
    if phase == AdjustDone(NotAdjusted(InsufficientBalance)) {
      ToldLater(cfg, states, actions, j, AdjustClassify, n);
    }
  }

  lemma AdjustMoves(cfg: Config, states: seq<State>, actions: seq<Action>, j: nat, n: nat)
    requires n < |actions| && |states| == |actions| + 1 && j < |cfg.adjusts| && actions[n] == Adjust(j)
    requires Shaped(cfg, states[n]) && AdjustReady(cfg, states[n], j) && states[n + 1] == AdjustStep(cfg, states[n], j)
    requires BooksOk(states[n]) && AdjustOk(cfg, states, actions, j, n)
    ensures j < |states[n + 1].adjusting| && AdjustOk(cfg, states, actions, j, n + 1)
  {
    AdjustStepTells(cfg, states, actions, j, n);
    ToldLater(cfg, states, actions, j, states[n].adjusting[j], n);
  }

  lemma AdjustFails(cfg: Config, states: seq<State>, actions: seq<Action>, j: nat, n: nat, cause: string)
    requires n < |actions| && |states| == |actions| + 1 && j < |cfg.adjusts| && actions[n] == AdjustFault(j, cause)
    requires Next(cfg, states[n], actions[n], states[n + 1])
    ensures j < |states[n + 1].adjusting| && AdjustOk(cfg, states, actions, j, n + 1)
  {
    assert Told(cfg, states, actions, j, states[n + 1].adjusting[j], n);
  }

  /** Over every run, what a raw adjustment is told has its ground at one of its own steps: the balance it
      reads back after its update moved the account; overdrawn, or missing, or somebody else's, or past the
      largest balance; or a statement of its own failed. */
  lemma {:induction false} AdjustmentsAreTold(cfg: Config, states: seq<State>, actions: seq<Action>, j: nat, n: nat)
    requires Run(cfg, states, actions) && n < |states| && j < |cfg.adjusts|
    ensures j < |states[n].adjusting| && AdjustOk(cfg, states, actions, j, n)
  {
    if n == 0 {
      assert Init(cfg, states[0]);
    } else {
      AdjustmentsAreTold(cfg, states, actions, j, n - 1);
      AdjustmentStep(cfg, states, actions, j, n - 1);
    }
  }

  lemma AdjustmentStep(cfg: Config, states: seq<State>, actions: seq<Action>, j: nat, n: nat)
    requires Run(cfg, states, actions) && n < |actions| && j < |cfg.adjusts|
    requires j < |states[n].adjusting| && AdjustOk(cfg, states, actions, j, n)
    ensures j < |states[n + 1].adjusting| && AdjustOk(cfg, states, actions, j, n + 1)
  {
    RunsKeepInv(cfg, states, actions, n);
    NextAdjusts(cfg, states, actions, j, n);
  }

  lemma NextAdjusts(cfg: Config, states: seq<State>, actions: seq<Action>, j: nat, n: nat)
    requires n < |actions| && |states| == |actions| + 1 && j < |cfg.adjusts|
    requires Inv(cfg, states[n]) && Next(cfg, states[n], actions[n], states[n + 1])
    requires j < |states[n].adjusting| && AdjustOk(cfg, states, actions, j, n)
    ensures j < |states[n + 1].adjusting| && AdjustOk(cfg, states, actions, j, n + 1)
  {
    var a := actions[n];
    if a == Adjust(j) {
      AdjustMoves(cfg, states, actions, j, n);
    } else if a.AdjustFault? && a.j == j {
      AdjustFails(cfg, states, actions, j, n, a.cause);
    } else {
      AdjustLeavesOthers(cfg, states[n], a, states[n + 1], j);
      if cfg.adjusts[j].accountID in states[n].accounts {
        AccountsStay(cfg, states[n], a, states[n + 1], cfg.adjusts[j].accountID);
      }
      AdjustKept(cfg, states, actions, j, n);
    }
  }
}
