/** Ownership over runs: members reach only what they own, and see nothing of the rest. */
module Isolation {
  import opened Domain
  import opened Wallet
  import opened Protocol
  import opened Invariants
  import opened Runs
  import opened Linearizability

  /** Whoever takes the action is a member, and is not `victim`. */
  ghost predicate ByStranger(cfg: Config, a: Action, victim: string) {
    var member := PermissionsForRole(Member);
    match a
    case Advance(i) => i < |cfg.calls| && cfg.calls[i].claims == member && cfg.calls[i].request.userID != victim
    case Fault(i, _) => i < |cfg.calls| && cfg.calls[i].claims == member && cfg.calls[i].request.userID != victim
    case Adjust(j) => j < |cfg.adjusts| && cfg.adjusts[j].claims == member && cfg.adjusts[j].userID != victim
    case AdjustFault(j, _) => j < |cfg.adjusts| && cfg.adjusts[j].claims == member && cfg.adjusts[j].userID != victim
    case Open(_, _, _) => true
    case Rename(claims, userID, _, _) => claims == member && userID != victim
  }

  /** The account and its ledger rows are the same in both states. */
  ghost predicate Untouched(s: State, s': State, accountID: string) {
    && (accountID in s.accounts ==> accountID in s'.accounts && s'.accounts[accountID] == s.accounts[accountID])
    && RowsOf(s'.ledger, accountID) == RowsOf(s.ledger, accountID)
  }

  function RowsOf(ledger: seq<Transaction>, accountID: string): seq<Transaction> {
    if ledger == [] then []
    else
      var last := ledger[|ledger| - 1];
      RowsOf(ledger[..|ledger| - 1], accountID) + if last.accountID == accountID then [last] else []
  }

  lemma StrangersAdvance(cfg: Config, s: State, i: nat, accountID: string)
    requires Inv(cfg, s) && Ready(cfg, s, i) && accountID in s.accounts
    requires !IsGranted(cfg.calls[i].claims, PERM_ACCOUNT_READ_ALL)
    requires cfg.calls[i].request.userID != s.accounts[accountID].ownerID
    ensures Untouched(s, Step(cfg, s, i), accountID)
  {
    var s' := Step(cfg, s, i);
    assert LocalOk(cfg, s, i);
    StepShape(cfg, s, i);
    if Commits(s, s', i) {
      assert s'.ledger[..|s.ledger|] == s.ledger;
    }
  }

  lemma StrangersAdjust(cfg: Config, s: State, j: nat, accountID: string)
    requires Shaped(cfg, s) && AdjustReady(cfg, s, j) && accountID in s.accounts
    requires !IsGranted(cfg.adjusts[j].claims, PERM_ACCOUNT_WRITE_ALL)
    requires cfg.adjusts[j].userID != s.accounts[accountID].ownerID
    ensures Untouched(s, AdjustStep(cfg, s, j), accountID)
  {
  }

  /** The actions that are not steps of a call, and no fault of one, need no invariant. */
  lemma StrangersOther(cfg: Config, s: State, a: Action, s': State, accountID: string, victim: string)
    requires Next(cfg, s, a, s') && IsOutside(a) && ByStranger(cfg, a, victim)
    requires accountID in s.accounts && s.accounts[accountID].ownerID == victim
    ensures Untouched(s, s', accountID)
  {
    RoleScopes();
    if a.Adjust? {
      StrangersAdjust(cfg, s, a.j, accountID);
    }
  }

  lemma StrangersStep(cfg: Config, s: State, a: Action, s': State, accountID: string, victim: string)
    requires Inv(cfg, s) && Next(cfg, s, a, s') && ByStranger(cfg, a, victim)
    requires accountID in s.accounts && s.accounts[accountID].ownerID == victim
    ensures Untouched(s, s', accountID)
  {
    match a
    case Advance(i) =>
      RoleScopes();
      StrangersAdvance(cfg, s, i, accountID);
    case Fault(i, cause) => FaultShape(cfg, s, i, cause);
    case _ => StrangersOther(cfg, s, a, s', accountID, victim);
  }

  /** Isolation, step by step: in any run, with the owner and administrators at work on the same
      account all along, no step of another member changes its balance, its name or its ledger. */
  lemma StrangersStepTouchesNothing(
    cfg: Config, states: seq<State>, actions: seq<Action>, k: nat, accountID: string, victim: string)
    requires Run(cfg, states, actions) && k < |actions| && ByStranger(cfg, actions[k], victim)
    requires accountID in states[k].accounts && states[k].accounts[accountID].ownerID == victim
    ensures Untouched(states[k], states[k + 1], accountID)
  {
    RunsKeepInv(cfg, states, actions, k);
    StrangersStep(cfg, states[k], actions[k], states[k + 1], accountID, victim);
  }

  /** Step `k` leaves the account alone, if it was the victim's before it. */
  ghost predicate KeptAt(states: seq<State>, k: nat, accountID: string, victim: string)
    requires k + 1 < |states|
  {
    accountID in states[k].accounts && states[k].accounts[accountID].ownerID == victim ==>
      Untouched(states[k], states[k + 1], accountID)
  }

  lemma {:induction false} UntouchedChain(states: seq<State>, m: nat, n: nat, accountID: string, victim: string)
    requires m <= n < |states|
    requires accountID in states[m].accounts && states[m].accounts[accountID].ownerID == victim
    requires forall k :: m <= k < n ==> KeptAt(states, k, accountID, victim)
    ensures Untouched(states[m], states[n], accountID)
  {
    if m < n {
      UntouchedChain(states, m, n - 1, accountID, victim);
      assert KeptAt(states, n - 1, accountID, victim);
    }
  }

  /** So a stretch of any run in which only other members act leaves the account as it was, whatever
      the owner has under way. */
  lemma StrangersTouchNothing(
    cfg: Config, states: seq<State>, actions: seq<Action>, m: nat, n: nat, accountID: string, victim: string)
    requires Run(cfg, states, actions) && m <= n < |states|
    requires forall k :: m <= k < n ==> ByStranger(cfg, actions[k], victim)
    requires accountID in states[m].accounts && states[m].accounts[accountID].ownerID == victim
    ensures Untouched(states[m], states[n], accountID)
  {
    forall k: nat | m <= k < n ensures KeptAt(states, k, accountID, victim) {
      if accountID in states[k].accounts && states[k].accounts[accountID].ownerID == victim {
        StrangersStepTouchesNothing(cfg, states, actions, k, accountID, victim);
      }
    }
    UntouchedChain(states, m, n, accountID, victim);
  }

  /** A foreign account is indistinguishable from a missing one. */
  lemma ForeignReadsAsMissing(b: Books, call: Call)
    requires call.claims == PermissionsForRole(Member)
    requires call.request.accountID in b.accounts ==> b.accounts[call.request.accountID].ownerID != call.request.userID
    ensures Process(b, call) == Processed(b, Rejected(NotFound))
    ensures Process(Books(b.accounts - {call.request.accountID}, b.ledger), call).outcome == Process(b, call).outcome
  {
    RoleScopes();
  }

  /** Over any run, a member whose account never was theirs is told "not found" or that storage
      failed, and nothing else. */
  lemma ForeignCallNotFound(cfg: Config, states: seq<State>, actions: seq<Action>, i: nat, n: nat)
    requires Run(cfg, states, actions) && n < |states| && i < |cfg.calls|
    requires cfg.calls[i].claims == PermissionsForRole(Member)
    requires var r := cfg.calls[i].request;
             forall k :: 0 <= k < n && r.accountID in states[k].accounts ==>
               states[k].accounts[r.accountID].ownerID != r.userID
    requires i < |states[n].locals| && states[n].locals[i].phase.Done? && states[n].locals[i].phase.result.Settled?
    ensures var outcome := Plain(states[n].locals[i].phase.result.outcome);
            outcome == Rejected(NotFound) || !IsAnswer(outcome)
  {
    var outcome := Plain(states[n].locals[i].phase.result.outcome);
    if IsAnswer(outcome) {
      var k := Linearizable(cfg, states, actions, i, n);
      ForeignReadsAsMissing(states[k].Books(), cfg.calls[i]);
    }
  }

  // ---------------------------------------------------------------- the denormalised owner

  function OwnedRows(ledger: seq<Transaction>, userID: string): seq<Transaction> {
    if ledger == [] then []
    else
      var last := ledger[|ledger| - 1];
      OwnedRows(ledger[..|ledger| - 1], userID) + if last.ownerID == userID then [last] else []
  }

  function JoinedRows(ledger: seq<Transaction>, accounts: map<string, Account>, userID: string): seq<Transaction> {
    if ledger == [] then []
    else
      var last := ledger[|ledger| - 1];
      JoinedRows(ledger[..|ledger| - 1], accounts, userID)
      + if last.accountID in accounts && accounts[last.accountID].ownerID == userID then [last] else []
  }

  lemma {:induction false} OwnerColumnIsJoin(ledger: seq<Transaction>, accounts: map<string, Account>, userID: string)
    requires forall t :: t in ledger ==> t.accountID in accounts && accounts[t.accountID].ownerID == t.ownerID
    ensures OwnedRows(ledger, userID) == JoinedRows(ledger, accounts, userID)
  {
    if ledger != [] {
      assert ledger[|ledger| - 1] in ledger;
      OwnerColumnIsJoin(ledger[..|ledger| - 1], accounts, userID);
    }
  }

  /** Listing by the ledger's own owner column gives, at every moment of every run, the rows whose
      account the user owns. */
  lemma OwnerScopeIsJoin(cfg: Config, states: seq<State>, actions: seq<Action>, n: nat, userID: string)
    requires Run(cfg, states, actions) && n < |states|
    ensures OwnedRows(states[n].ledger, userID) == JoinedRows(states[n].ledger, states[n].accounts, userID)
  {
    RunsKeepInv(cfg, states, actions, n);
    assert forall t :: t in states[n].ledger ==> RowOk(states[n], t);
    OwnerColumnIsJoin(states[n].ledger, states[n].accounts, userID);
  }
}
