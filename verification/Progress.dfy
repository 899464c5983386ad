/** No deadlock, and completion: whatever has happened so far, some unfinished attempt can move, and
    every move brings the run closer to its end. */
module Progress {
  import opened Domain
  import opened Wallet
  import opened Protocol
  import opened Invariants
  import opened Runs

  ghost predicate Finished(s: State) {
    forall i :: 0 <= i < |s.locals| ==> s.locals[i].phase.Done?
  }

  /** The connections in use never exceed the pool. */
  ghost predicate PoolOk(cfg: Config, s: State) {
    Connections(s.locals) <= cfg.poolSize
  }

  /** The most steps an attempt can still take from a phase. */
  function Rank(phase: Phase): nat {
    match phase
    case Idle => 10
    case Preflight => 9
    case BeginTx => 8
    case InsertRow => 7
    case UpdateBalance(_) => 6
    case ReadOriginal => 6
    case Classify => 5
    case ReadBack(_) => 5
    case ReadAccount(_) => 5
    case AuditAccept(_, _) => 4
    case AuditRepeat(_, _) => 4
    case CommitAccept(_, _) => 3
    case CommitRepeat(_, _) => 3
    case RollingBack(_) => 2
    case Rejecting(_) => 1
    case Done(_) => 0
  }

  function Measure(locals: seq<Local>): nat {
    if locals == [] then 0 else Measure(locals[..|locals| - 1]) + Rank(locals[|locals| - 1].phase)
  }

  lemma {:induction false} MeasureUpdate(locals: seq<Local>, i: nat, l: Local)
    requires i < |locals|
    ensures Measure(locals[i := l]) == Measure(locals) - Rank(locals[i].phase) + Rank(l.phase)
  {
    var last := |locals| - 1;
    if i == last {
      assert locals[i := l][..last] == locals[..last];
    } else {
      assert locals[i := l][..last] == locals[..last][i := l];
      MeasureUpdate(locals[..last], i, l);
    }
  }

  lemma {:induction false} ConnectionsUpdate(locals: seq<Local>, i: nat, l: Local)
    requires i < |locals|
    ensures Connections(locals[i := l]) == Connections(locals)
            - (if locals[i].phase.InTx() then 1 else 0) + (if l.phase.InTx() then 1 else 0)
  {
    var last := |locals| - 1;
    if i == last {
      assert locals[i := l][..last] == locals[..last];
    } else {
      assert locals[i := l][..last] == locals[..last][i := l];
      ConnectionsUpdate(locals[..last], i, l);
    }
  }

  lemma {:induction false} SomeoneConnected(locals: seq<Local>) returns (i: nat)
    requires Connections(locals) > 0
    ensures i < |locals| && locals[i].phase.InTx()
  {
    var last := |locals| - 1;
    if locals[last].phase.InTx() {
      i := last;
    } else {
      i := SomeoneConnected(locals[..last]);
    }
  }

  lemma {:induction false} UnfinishedMeasure(locals: seq<Local>)
    ensures Measure(locals) == 0 <==> forall i :: 0 <= i < |locals| ==> locals[i].phase.Done?
  {
    if locals != [] {
      UnfinishedMeasure(locals[..|locals| - 1]);
      var last := |locals| - 1;
      assert forall i :: 0 <= i < last ==> locals[..last][i] == locals[i];
    }
  }

  // ---------------------------------------------------------------- every move counts

  lemma StepDescends(cfg: Config, s: State, i: nat)
    requires Shaped(cfg, s) && i < |s.locals| && !s.locals[i].phase.Done?
    ensures var s' := Step(cfg, s, i);
            |s'.locals| == |s.locals| && Rank(s'.locals[i].phase) < Rank(s.locals[i].phase)
  {
    match s.locals[i].phase
    case InsertRow =>
    case UpdateBalance(_) =>
    case _ =>
  }

  /** A new local state of lower rank, whose transaction began only if a connection was free. */
  lemma ShapeDescends(cfg: Config, s: State, s': State, i: nat)
    requires Shaped(cfg, s) && PoolOk(cfg, s) && i < |s.locals| && Shape(cfg, s, s', i)
    requires Rank(s'.locals[i].phase) < Rank(s.locals[i].phase)
    requires s'.locals[i].phase.InTx() && !s.locals[i].phase.InTx() ==> PoolFree(cfg, s)
    ensures PoolOk(cfg, s') && Measure(s'.locals) < Measure(s.locals)
  {
    MeasureUpdate(s.locals, i, s'.locals[i]);
    ConnectionsUpdate(s.locals, i, s'.locals[i]);
  }

  lemma AdvanceDescends(cfg: Config, s: State, i: nat)
    requires Inv(cfg, s) && PoolOk(cfg, s) && Ready(cfg, s, i)
    ensures PoolOk(cfg, Step(cfg, s, i)) && Measure(Step(cfg, s, i).locals) < Measure(s.locals)
  {
    assert LocalOk(cfg, s, i);
    StepShape(cfg, s, i);
    StepDescends(cfg, s, i);
    ShapeDescends(cfg, s, Step(cfg, s, i), i);
  }

  lemma FaultDescends(cfg: Config, s: State, i: nat, cause: string)
    requires Shaped(cfg, s) && PoolOk(cfg, s) && i < |s.locals|
    requires !s.locals[i].phase.Done? && !s.locals[i].phase.Idle?
    ensures PoolOk(cfg, StepFault(s, i, cause)) && Measure(StepFault(s, i, cause).locals) < Measure(s.locals)
  {
    FaultShape(cfg, s, i, cause);
    ShapeDescends(cfg, s, StepFault(s, i, cause), i);
  }

  lemma MoveDescends(cfg: Config, s: State, a: Action, s': State)
    requires Inv(cfg, s) && PoolOk(cfg, s) && Next(cfg, s, a, s')
    ensures PoolOk(cfg, s')
    ensures if IsOutside(a) then Measure(s'.locals) == Measure(s.locals) else Measure(s'.locals) < Measure(s.locals)
  {
    match a
    case Advance(i) => AdvanceDescends(cfg, s, i);
    case Fault(i, cause) => FaultDescends(cfg, s, i, cause);
    case _ => OutsideSteps(cfg, s, a);
  }

  // ---------------------------------------------------------------- someone can always move

  /** A transaction that holds its account row waits for nothing, nor does one past its insert that
      finds the row free; so among the live transactions one can always move, and it needs no further
      connection: it could move even if the pool had none left. */
  lemma LiveTransactionMoves(cfg: Config, s: State, i: nat) returns (k: nat)
    requires Inv(cfg, s) && i < |s.locals| && s.locals[i].phase.InTx()
    ensures k < |s.locals| && s.locals[k].phase.InTx()
    ensures Ready(cfg.(poolSize := 0), s, k) && Ready(cfg, s, k)
  {
    k := i;
    if s.locals[k].phase.InsertRow? && !Ready(cfg, s, k) {
      k :| 0 <= k < |s.locals| && s.locals[k].row.Some? && s.locals[k].row.value.ref == cfg.calls[i].request.ref;
    }
    assert LocalOk(cfg, s, k);
    if s.locals[k].phase.UpdateBalance? && !Ready(cfg, s, k) {
      var acc := cfg.calls[k].request.accountID;
      k :| 0 <= k < |s.locals| && s.locals[k].write.Some? && cfg.calls[k].request.accountID == acc;
      assert LocalOk(cfg, s, k);
    }
  }

  /** No deadlock: while an attempt is unfinished some unfinished attempt can issue its next
      statement, whatever the size of the pool and however the locks are held. */
  lemma SomeoneMoves(cfg: Config, s: State) returns (k: nat)
    requires cfg.poolSize > 0 && Inv(cfg, s) && PoolOk(cfg, s) && !Finished(s)
    ensures k < |s.locals| && Ready(cfg, s, k)
  {
    if Connections(s.locals) > 0 {
      var i := SomeoneConnected(s.locals);
      k := LiveTransactionMoves(cfg, s, i);
    } else {
      k :| 0 <= k < |s.locals| && !s.locals[k].phase.Done?;
      if s.locals[k].phase.InTx() {
        NobodyConnected(s.locals, k);
      }
    }
  }

  lemma {:induction false} NobodyConnected(locals: seq<Local>, i: nat)
    requires i < |locals| && Connections(locals) == 0
    ensures !locals[i].phase.InTx()
  {
    if i < |locals| - 1 {
      NobodyConnected(locals[..|locals| - 1], i);
    }
  }

  lemma {:induction false} FreshLocals(locals: seq<Local>)
    requires forall i :: 0 <= i < |locals| ==> locals[i] == FRESH
    ensures Connections(locals) == 0 && Measure(locals) == 10 * |locals|
  {
    if locals != [] {
      FreshLocals(locals[..|locals| - 1]);
    }
  }

  /** The steps the attempts themselves took, failures included. */
  function Moves(actions: seq<Action>): nat {
    if actions == [] then 0
    else Moves(actions[..|actions| - 1]) + if IsOutside(actions[|actions| - 1]) then 0 else 1
  }

  /** The pool is never overdrawn, and in any run the attempts take at most ten steps each. */
  lemma {:induction false} MovesBounded(cfg: Config, states: seq<State>, actions: seq<Action>, n: nat)
    requires Run(cfg, states, actions) && n <= |actions|
    ensures PoolOk(cfg, states[n])
    ensures Moves(actions[..n]) + Measure(states[n].locals) <= 10 * |cfg.calls|
  {
    if n == 0 {
      FreshLocals(states[0].locals);
    } else {
      MovesBounded(cfg, states, actions, n - 1);
      RunsKeepInv(cfg, states, actions, n - 1);
      assert actions[..n][..n - 1] == actions[..n - 1];
      assert Next(cfg, states[n - 1], actions[n - 1], states[n]);
      MoveDescends(cfg, states[n - 1], actions[n - 1], states[n]);
    }
  }

  /** No reachable state is stuck while an attempt is unfinished. */
  lemma NoDeadlock(cfg: Config, states: seq<State>, actions: seq<Action>, n: nat)
    requires ValidConfig(cfg) && Run(cfg, states, actions) && n < |states|
    ensures Finished(states[n]) || exists k: nat :: Shaped(cfg, states[n]) && Ready(cfg, states[n], k)
  {
    RunsKeepInv(cfg, states, actions, n);
    MovesBounded(cfg, states, actions, n);
    if !Finished(states[n]) {
      var k := SomeoneMoves(cfg, states[n]);
    }
  }

  /** Every run can be continued, without a failure and without anybody else, to one in which every
      attempt is done. */
  lemma {:induction false} Completion(cfg: Config, states: seq<State>, actions: seq<Action>)
    returns (states': seq<State>, actions': seq<Action>)
    requires ValidConfig(cfg) && Run(cfg, states, actions)
    ensures Run(cfg, states', actions') && states <= states' && actions <= actions'
    ensures Finished(states'[|states'| - 1])
    ensures forall n :: |actions| <= n < |actions'| ==> actions'[n].Advance?
    ensures |actions'| - |actions| <= Measure(states[|states| - 1].locals)
    decreases Measure(states[|states| - 1].locals)
  {
    if Finished(states[|states| - 1]) {
      states', actions' := states, actions;
    } else {
      var k, s' := OneMoreStep(cfg, states, actions);
      states', actions' := Completion(cfg, states + [s'], actions + [Advance(k)]);
    }
  }

  /** An unfinished run goes on by one step that brings it closer to its end. */
  lemma OneMoreStep(cfg: Config, states: seq<State>, actions: seq<Action>) returns (k: nat, s': State)
    requires ValidConfig(cfg) && Run(cfg, states, actions) && !Finished(states[|states| - 1])
    ensures Run(cfg, states + [s'], actions + [Advance(k)])
    ensures Measure(s'.locals) < Measure(states[|states| - 1].locals)
  {
    var s := states[|actions|];
    RunsKeepInv(cfg, states, actions, |actions|);
    MovesBounded(cfg, states, actions, |actions|);
    k := SomeoneMoves(cfg, s);
    s' := Step(cfg, s, k);
    assert Next(cfg, s, Advance(k), s');
    MoveDescends(cfg, s, Advance(k), s');
    RunExtends(cfg, states, actions, Advance(k), s');
  }

  lemma RunExtends(cfg: Config, states: seq<State>, actions: seq<Action>, a: Action, s': State)
    requires Run(cfg, states, actions) && Next(cfg, states[|actions|], a, s')
    ensures Run(cfg, states + [s'], actions + [a])
  {
    var states', actions' := states + [s'], actions + [a];
    forall n | 0 <= n < |actions'|
      ensures Next(cfg, states'[n], actions'[n], states'[n + 1])
    {
      if n < |actions| {
        assert Next(cfg, states[n], actions[n], states[n + 1]);
      }
    }
  }
}
