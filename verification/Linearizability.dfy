/** The concurrent protocol against the one-at-a-time function: every answer is the answer of
    `Wallet.Process` at one moment between the call's start and its end, and the books of a run are
    the books of running its accepted attempts one at a time. */
module Linearizability {
  import opened Domain
  import opened Wallet
  import opened Protocol
  import opened Invariants
  import opened Runs

  /** The answer the caller can rely on: a failed rollback wraps the rejection it follows. */
  function Plain(outcome: Outcome): Outcome {
    if outcome.Rejected? then Rejected(Root(outcome.error)) else outcome
  }

  /** Everything but a storage failure is an answer about the books. */
  predicate IsAnswer(outcome: Outcome) {
    outcome.Rejected? ==>
      || outcome.error.NotFound? || outcome.error.InsufficientBalance?
      || outcome.error.OutOfRange? || outcome.error.Unreadable?
  }

  /** Step k of the run is a step of attempt i at which `Process`, run alone on the committed books,
      gives `outcome`; an acceptance takes effect at that very step, any other answer changes nothing. */
  ghost predicate Point(cfg: Config, states: seq<State>, actions: seq<Action>, i: nat, outcome: Outcome, k: nat) {
    && k < |actions| && |states| == |actions| + 1 && i < |cfg.calls|
    && actions[k] == Advance(i)
    && i < |states[k].locals| && !states[k].locals[i].phase.Idle? && !states[k].locals[i].phase.Done?
    && Process(states[k].Books(), cfg.calls[i]) == Processed(states[k + 1].Books(), outcome)
  }

  /** What phase i has reached already commits it to an answer, found at an earlier step. */
  ghost predicate Evidence(cfg: Config, states: seq<State>, actions: seq<Action>, i: nat, n: nat)
    requires n < |states| && i < |states[n].locals|
  {
    match states[n].locals[i].phase
    case Classify => Found(cfg, states, actions, i, Rejected(InsufficientBalance), n)
    case RollingBack(error) =>
      IsAnswer(Rejected(Root(error))) ==> Found(cfg, states, actions, i, Rejected(Root(error)), n)
    case Rejecting(error) =>
      IsAnswer(Rejected(Root(error))) ==> Found(cfg, states, actions, i, Rejected(Root(error)), n)
    case AuditRepeat(original, balance) => Found(cfg, states, actions, i, Duplicate(original, balance), n)
    case CommitRepeat(original, balance) => Found(cfg, states, actions, i, Duplicate(original, balance), n)
    case Done(Settled(outcome)) => IsAnswer(Plain(outcome)) ==> Found(cfg, states, actions, i, Plain(outcome), n)
    case _ => true
  }

  ghost predicate Found(cfg: Config, states: seq<State>, actions: seq<Action>, i: nat, outcome: Outcome, n: nat) {
    exists k: nat :: k < n && Point(cfg, states, actions, i, outcome, k)
  }

  // ---------------------------------------------------------------- the answering steps

  /** The steps at which an attempt learns its answer. */
  ghost predicate Answers(s: State, s': State, i: nat, outcome: Outcome) {
    i < |s.locals| == |s'.locals| &&
    var before, after := s.locals[i].phase, s'.locals[i].phase;
    || (before.Preflight? && after == Rejecting(NotFound) && outcome == Rejected(NotFound))
    || (before.ReadOriginal? && after == RollingBack(NotFound) && outcome == Rejected(NotFound))
    || (before.ReadOriginal? && after == RollingBack(Unreadable) && outcome == Rejected(Unreadable))
    || (before.UpdateBalance? && after == Classify && outcome == Rejected(InsufficientBalance))
    || (before.UpdateBalance? && after == RollingBack(OutOfRange) && outcome == Rejected(OutOfRange))
    || (before.ReadAccount? && after.AuditRepeat? && outcome == Duplicate(after.original, after.balance))
    || (before.CommitAccept? && outcome == Accepted(before.created, before.balance))
  }

  lemma AnswerIsProcess(cfg: Config, s: State, i: nat, outcome: Outcome)
    requires Shaped(cfg, s) && i < |s.locals| && LocalOk(cfg, s, i) && !s.locals[i].phase.Done?
    requires Answers(s, Step(cfg, s, i), i, outcome)
    ensures Process(s.Books(), cfg.calls[i]) == Processed(Step(cfg, s, i).Books(), outcome)
  {
    match s.locals[i].phase
    case Preflight =>
    case ReadOriginal =>
    case UpdateBalance(_) =>
    case ReadAccount(_) =>
    case CommitAccept(_, _) =>
  }

  /** The phase an attempt moves to either carries over the evidence it had or was just answered. */
  ghost predicate CarriesEvidence(s: State, s': State, i: nat)
    requires i < |s.locals| == |s'.locals|
  {
    var before, after := s.locals[i].phase, s'.locals[i].phase;
    match after
    case Classify => Answers(s, s', i, Rejected(InsufficientBalance))
    case RollingBack(error) =>
      IsAnswer(Rejected(Root(error))) ==>
        Answers(s, s', i, Rejected(Root(error))) || (before.Classify? && error == InsufficientBalance)
    case Rejecting(error) =>
      IsAnswer(Rejected(Root(error))) ==>
        Answers(s, s', i, Rejected(Root(error))) || (before.RollingBack? && Root(before.error) == Root(error))
    case AuditRepeat(original, balance) => Answers(s, s', i, Duplicate(original, balance))
    case CommitRepeat(original, balance) => before == AuditRepeat(original, balance)
    case Done(Settled(outcome)) =>
      || (outcome.Accepted? && Answers(s, s', i, outcome))
      || (outcome.Duplicate? && before == CommitRepeat(outcome.transaction, outcome.balance))
      || (outcome.Rejected? && before == Rejecting(outcome.error))
    case _ => true
  }

  lemma StepCarries(cfg: Config, s: State, i: nat)
    requires Shaped(cfg, s) && i < |s.locals| && LocalOk(cfg, s, i) && !s.locals[i].phase.Done?
    ensures |Step(cfg, s, i).locals| == |s.locals| && CarriesEvidence(s, Step(cfg, s, i), i)
  {
    match s.locals[i].phase
    case Preflight =>
    case InsertRow =>
    case UpdateBalance(_) =>
    case _ =>
  }

  lemma FaultCarries(s: State, i: nat, cause: string)
    requires i < |s.locals| && !s.locals[i].phase.Idle? && !s.locals[i].phase.Done?
    ensures |StepFault(s, i, cause).locals| == |s.locals| && CarriesEvidence(s, StepFault(s, i, cause), i)
  {
  }

  // ---------------------------------------------------------------- induction over the run

  /** An answering step of the run is a point, and evidence found earlier stays found. */
  lemma AdvanceKeepsEvidence(cfg: Config, states: seq<State>, actions: seq<Action>, i: nat, n: nat)
    requires n < |actions| && |states| == |actions| + 1 && i < |cfg.calls| && actions[n] == Advance(i)
    requires Shaped(cfg, states[n]) && LocalOk(cfg, states[n], i) && !states[n].locals[i].phase.Done?
    requires states[n + 1] == Step(cfg, states[n], i)
    requires Evidence(cfg, states, actions, i, n)
    ensures i < |states[n + 1].locals| && Evidence(cfg, states, actions, i, n + 1)
  {
    var s, s' := states[n], states[n + 1];
    StepCarries(cfg, s, i);
    forall outcome | Answers(s, s', i, outcome)
      ensures Found(cfg, states, actions, i, outcome, n + 1)
    {
      AnswerIsProcess(cfg, s, i, outcome);
      assert Point(cfg, states, actions, i, outcome, n);
    }
    FoundLater(cfg, states, actions, i, n);
  }

  lemma FaultKeepsEvidence(cfg: Config, states: seq<State>, actions: seq<Action>, i: nat, n: nat, cause: string)
    requires n < |actions| && |states| == |actions| + 1
    requires i < |states[n].locals| && !states[n].locals[i].phase.Idle? && !states[n].locals[i].phase.Done?
    requires states[n + 1] == StepFault(states[n], i, cause)
    requires Evidence(cfg, states, actions, i, n)
    ensures i < |states[n + 1].locals| && Evidence(cfg, states, actions, i, n + 1)
  {
    FaultCarries(states[n], i, cause);
    FoundLater(cfg, states, actions, i, n);
  }

  lemma FoundLater(cfg: Config, states: seq<State>, actions: seq<Action>, i: nat, n: nat)
    ensures forall outcome :: Found(cfg, states, actions, i, outcome, n) ==> Found(cfg, states, actions, i, outcome, n + 1)
  {
    forall outcome | Found(cfg, states, actions, i, outcome, n)
      ensures Found(cfg, states, actions, i, outcome, n + 1)
    {
      var k: nat :| k < n && Point(cfg, states, actions, i, outcome, k);
    }
  }

  lemma NextKeepsEvidence(cfg: Config, states: seq<State>, actions: seq<Action>, i: nat, n: nat)
    requires n < |actions| && |states| == |actions| + 1 && i < |cfg.calls|
    requires Inv(cfg, states[n]) && Next(cfg, states[n], actions[n], states[n + 1])
    requires Evidence(cfg, states, actions, i, n)
    ensures i < |states[n + 1].locals| && Evidence(cfg, states, actions, i, n + 1)
  {
    assert LocalOk(cfg, states[n], i);
    if actions[n] == Advance(i) {
      AdvanceKeepsEvidence(cfg, states, actions, i, n);
    } else if StepOf(actions[n], i) {
      FaultKeepsEvidence(cfg, states, actions, i, n, actions[n].cause);
    } else {
      NextLeavesOthers(cfg, states[n], actions[n], states[n + 1], i);
      FoundLater(cfg, states, actions, i, n);
    }
  }

  lemma RunKeepsEvidence(cfg: Config, states: seq<State>, actions: seq<Action>, i: nat, n: nat)
    requires Run(cfg, states, actions) && n < |actions| && i < |cfg.calls|
    requires i < |states[n].locals| && Evidence(cfg, states, actions, i, n)
    ensures i < |states[n + 1].locals| && Evidence(cfg, states, actions, i, n + 1)
  {
    RunsKeepInv(cfg, states, actions, n);
    NextKeepsEvidence(cfg, states, actions, i, n);
  }

  lemma {:induction false} EvidenceHolds(cfg: Config, states: seq<State>, actions: seq<Action>, i: nat, n: nat)
    requires Run(cfg, states, actions) && n < |states| && i < |cfg.calls|
    ensures i < |states[n].locals| && Evidence(cfg, states, actions, i, n)
  {
    if n == 0 {
      assert Init(cfg, states[0]);
    } else {
      EvidenceHolds(cfg, states, actions, i, n - 1);
      RunKeepsEvidence(cfg, states, actions, i, n - 1);
    }
  }

  /** Linearizability: whatever interleaves with it, a call that answers, answers what `Process`
      gives on the committed books at one of its own steps. An accepted call changes the books at
      that step exactly as `Process` does; any other answer changes nothing there. */
  lemma Linearizable(cfg: Config, states: seq<State>, actions: seq<Action>, i: nat, n: nat)
    returns (k: nat)
    requires Run(cfg, states, actions) && n < |states| && i < |cfg.calls|
    requires i < |states[n].locals| && states[n].locals[i].phase.Done? && states[n].locals[i].phase.result.Settled?
    requires IsAnswer(Plain(states[n].locals[i].phase.result.outcome))
    ensures k < n && Point(cfg, states, actions, i, Plain(states[n].locals[i].phase.result.outcome), k)
  {
    EvidenceHolds(cfg, states, actions, i, n);
    assert Found(cfg, states, actions, i, Plain(states[n].locals[i].phase.result.outcome), n);
    k :| k < n && Point(cfg, states, actions, i, Plain(states[n].locals[i].phase.result.outcome), k);
  }

  // ---------------------------------------------------------------- the run as a sequential history

  datatype Op =
    | Transact(call: Call)
    | Correct(accountID: string, delta: int)
    | OpenAccount(accountID: string, ownerID: string, name: string)
    | RenameAccount(accountID: string, name: string)

  /** One operation, run alone. */
  function Perform(b: Books, op: Op): Books {
    match op
    case Transact(call) => Process(b, call).books
    case Correct(accountID, delta) =>
      if GuardPasses(b.accounts, accountID, delta)
      then Books(SetBalance(b.accounts, accountID, b.accounts[accountID].balance + delta), b.ledger)
      else b
    case OpenAccount(accountID, ownerID, name) =>
      if accountID in b.accounts then b else Books(b.accounts[accountID := Account(ownerID, name, 0)], b.ledger)
    case RenameAccount(accountID, name) =>
      if accountID in b.accounts then Books(b.accounts[accountID := b.accounts[accountID].(name := name)], b.ledger)
      else b
  }

  function PerformAll(b: Books, ops: seq<Op>): Books {
    if ops == [] then b else Perform(PerformAll(b, ops[..|ops| - 1]), ops[|ops| - 1])
  }

  /** The operation that takes effect at a step, if one does: an attempt's at its commit, everybody
      else's at once. */
  function Effect(cfg: Config, s: State, a: Action): seq<Op>
    requires Shaped(cfg, s)
  {
    match a
    case Advance(i) =>
      if i < |s.locals| && s.locals[i].phase.CommitAccept? then [Transact(cfg.calls[i])] else []
    case Adjust(j) =>
      if j < |s.adjusting| && s.adjusting[j].AdjustIdle? && ValidAdjust(cfg.adjusts[j]) && Adjustable(s, cfg.adjusts[j])
      then [Correct(cfg.adjusts[j].accountID, cfg.adjusts[j].delta)] else []
    case Open(accountID, ownerID, name) => [OpenAccount(accountID, ownerID, name)]
    case Rename(claims, userID, accountID, name) =>
      if accountID in s.accounts && MayWrite(s.accounts[accountID], claims, userID)
      then [RenameAccount(accountID, name)] else []
    case _ => []
  }

  ghost function History(cfg: Config, states: seq<State>, actions: seq<Action>, n: nat): seq<Op>
    requires n <= |actions| <= |states|
  {
    if n == 0 then []
    else History(cfg, states, actions, n - 1) +
         if Shaped(cfg, states[n - 1]) then Effect(cfg, states[n - 1], actions[n - 1]) else []
  }

  lemma AdvanceEffect(cfg: Config, s: State, i: nat)
    requires Inv(cfg, s) && Ready(cfg, s, i)
    ensures Step(cfg, s, i).Books() == PerformAll(s.Books(), Effect(cfg, s, Advance(i)))
  {
    assert LocalOk(cfg, s, i);
    StepShape(cfg, s, i);
    if s.locals[i].phase.CommitAccept? {
      AnswerIsProcess(cfg, s, i, Accepted(s.locals[i].phase.created, s.locals[i].phase.balance));
      assert PerformAll(s.Books(), []) == s.Books();
    }
  }

  lemma AdjustEffect(cfg: Config, s: State, j: nat)
    requires Shaped(cfg, s) && AdjustReady(cfg, s, j)
    ensures AdjustStep(cfg, s, j).Books() == PerformAll(s.Books(), Effect(cfg, s, Adjust(j)))
  {
    assert PerformAll(s.Books(), []) == s.Books();
  }

  lemma NextEffect(cfg: Config, s: State, a: Action, s': State)
    requires Inv(cfg, s) && Next(cfg, s, a, s')
    ensures s'.Books() == PerformAll(s.Books(), Effect(cfg, s, a))
  {
    match a
    case Advance(i) => AdvanceEffect(cfg, s, i);
    case Fault(i, cause) => FaultShape(cfg, s, i, cause);
    case Adjust(j) => AdjustEffect(cfg, s, j);
    case _ => assert PerformAll(s.Books(), []) == s.Books();
  }

  lemma PerformAllAppend(b: Books, ops: seq<Op>, more: seq<Op>)
    requires |more| <= 1
    ensures PerformAll(b, ops + more) == PerformAll(PerformAll(b, ops), more)
  {
    if more == [] {
      assert ops + more == ops;
    } else {
      assert (ops + more)[..|ops|] == ops;
      assert more[..0] == [];
    }
  }

  /** Serializability: the committed books of every run are those of its effective operations run one
      at a time, in the order they took effect. */
  lemma {:induction false} Serializable(cfg: Config, states: seq<State>, actions: seq<Action>, n: nat)
    requires Run(cfg, states, actions) && n <= |actions|
    ensures states[n].Books() == PerformAll(Books(map[], []), History(cfg, states, actions, n))
  {
    if n > 0 {
      Serializable(cfg, states, actions, n - 1);
      RunsKeepInv(cfg, states, actions, n - 1);
      assert Next(cfg, states[n - 1], actions[n - 1], states[n]);
      NextEffect(cfg, states[n - 1], actions[n - 1], states[n]);
      PerformAllAppend(Books(map[], []), History(cfg, states, actions, n - 1),
                       Effect(cfg, states[n - 1], actions[n - 1]));
    }
  }
}
