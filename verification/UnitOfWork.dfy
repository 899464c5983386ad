/** Nested units of work: `RunInTx` calls on a context that carries a transaction compose into the
    outermost one; a call on a plain context is a unit of its own. */
module UnitOfWork {
  import opened Domain

  /** Whether the context that is passed on carries the transaction. */
  datatype Context = Plain | Carrying

  /** What a function handed to `RunInTx` does: statements and further units of work, one after the
      other, stopping at the first error it does not tolerate; `err` is what it returns at the end.
      Each step is given the context of the function or a plain one. */
  datatype Fn = Fn(steps: seq<Step>, err: bool)

  datatype Step =
    | Exec(row: string, ctx: Context, fails: bool, tolerated: bool)
    | Nested(fn: Fn, ctx: Context, beginFails: bool, commitFails: bool, tolerated: bool)

  /** The rows the transaction has written, the rows committed past it, and whether it is aborted. */
  datatype Work = Work(pending: seq<string>, past: seq<string>, aborted: bool)

  datatype Ran = Ran(work: Work, err: bool)

  /** Running a function inside a transaction. */
  function RunFn(fn: Fn, w: Work): Ran
    decreases fn, 0
  {
    var ran := RunSteps(fn.steps, w);
    if ran.err then ran else Ran(ran.work, fn.err)
  }

  function RunSteps(steps: seq<Step>, w: Work): Ran
    decreases steps, 1
  {
    if steps == [] then Ran(w, false)
    else
      var ran := RunStep(steps[0], w);
      if ran.err && !steps[0].tolerated then ran else RunSteps(steps[1..], ran.work)
  }

  /** A nested call joins the transaction its context carries, and on a plain one begins its own. */
  function RunStep(step: Step, w: Work): Ran
    decreases step, 0
  {
    match step
    case Exec(row, Plain, fails, _) => if fails then Ran(w, true) else Ran(w.(past := w.past + [row]), false)
    case Exec(row, Carrying, fails, _) =>
      if w.aborted || fails then Ran(w.(aborted := true), true)
      else Ran(w.(pending := w.pending + [row]), false)
    case Nested(fn, Carrying, _, _, _) => RunFn(fn, w)
    case Nested(fn, Plain, beginFails, commitFails, _) =>
      if beginFails then Ran(w, true)
      else
        var own := Settle(RunFn(fn, Work([], w.past, false)), commitFails);
        Ran(w.(past := own.0), own.1)
  }

  /** The end of a transaction: what is committed by then, and whether the call returns an error. */
  function Settle(ran: Ran, commitFails: bool): (seq<string>, bool) {
    var err := ran.err || ran.work.aborted || commitFails;
    (if err then ran.work.past else ran.work.past + ran.work.pending, err)
  }

  /** Every row of the tree that goes through the transaction, in order. */
  function TxRows(steps: seq<Step>): seq<string>
    decreases steps, 1
  {
    if steps == [] then [] else StepRows(steps[0]) + TxRows(steps[1..])
  }

  function StepRows(step: Step): seq<string>
    decreases step, 0
  {
    match step
    case Exec(row, ctx, _, _) => if ctx.Plain? then [] else [row]
    case Nested(fn, ctx, _, _, _) => if ctx.Plain? then [] else TxRows(fn.steps)
  }

  /** Every row of the tree that is committed past the transaction, in the order it is committed: a
      plain statement's at once, those of a unit of its own when that unit ends without an error. */
  function PastRows(steps: seq<Step>): seq<string>
    decreases steps, 1
  {
    if steps == [] then [] else StepPast(steps[0]) + PastRows(steps[1..])
  }

  function StepPast(step: Step): seq<string>
    decreases step, 0
  {
    match step
    case Exec(row, ctx, _, _) => if ctx.Plain? then [row] else []
    case Nested(fn, ctx, _, _, _) =>
      PastRows(fn.steps) + if ctx.Plain? && !fn.err then TxRows(fn.steps) else []
  }

  /** No statement, begin or commit of the tree fails and no function returns an error its caller
      would not tolerate. */
  predicate Clean(steps: seq<Step>)
    decreases steps, 1
  {
    steps != [] ==> CleanStep(steps[0]) && Clean(steps[1..])
  }

  predicate CleanStep(step: Step)
    decreases step, 0
  {
    match step
    case Exec(_, _, fails, _) => !fails
    case Nested(fn, ctx, beginFails, commitFails, tolerated) =>
      Clean(fn.steps) && (fn.err ==> tolerated) && (ctx.Plain? ==> !beginFails && !commitFails)
  }

  /** Nested calls join: a clean tree, whatever its shape and whatever errors its callers tolerate,
      leaves every row of its context's transaction, in order, to the outermost commit, and everything
      given a plain context is committed past it, whatever becomes of the transaction. */
  lemma {:induction false} CleanTreeJoins(steps: seq<Step>, w: Work)
    requires Clean(steps) && !w.aborted
    ensures var ran := RunSteps(steps, w);
            && !ran.err && !ran.work.aborted
            && ran.work.pending == w.pending + TxRows(steps) && ran.work.past == w.past + PastRows(steps)
    decreases steps, 1
  {
    if steps != [] {
      CleanStepJoins(steps[0], w);
      CleanTreeJoins(steps[1..], RunStep(steps[0], w).work);
    }
  }

  lemma {:induction false} CleanStepJoins(step: Step, w: Work)
    requires CleanStep(step) && !w.aborted
    ensures var ran := RunStep(step, w);
            && (ran.err ==> step.tolerated) && !ran.work.aborted
            && ran.work.pending == w.pending + StepRows(step) && ran.work.past == w.past + StepPast(step)
    decreases step, 0
  {
    if step.Nested? {
      CleanTreeJoins(step.fn.steps, if step.ctx.Plain? then Work([], w.past, false) else w);
    }
  }

  // ---------------------------------------------------------------- errors

  /** The steps before k went by without an error their caller would not tolerate. */
  ghost predicate Reached(steps: seq<Step>, w: Work, k: nat)
    requires k <= |steps|
  {
    !RunSteps(steps[..k], w).err
  }

  lemma {:induction false} RunStepsAppend(steps: seq<Step>, step: Step, w: Work)
    ensures var before := RunSteps(steps, w);
            RunSteps(steps + [step], w)
            == if before.err then before
               else var ran := RunStep(step, before.work); if ran.err && step.tolerated then Ran(ran.work, false) else ran
    decreases |steps|
  {
    if steps == [] {
      assert [] + [step] == [step] && [step][1..] == [];
    } else {
      assert (steps + [step])[1..] == steps[1..] + [step];
      var ran := RunStep(steps[0], w);
      if !(ran.err && !steps[0].tolerated) {
        RunStepsAppend(steps[1..], step, ran.work);
      }
    }
  }

  /** A run of steps ends in an error exactly when some step fails that was reached and whose error is not
      tolerated, and then it ends there. */
  lemma {:induction false} FirstErrorStops(steps: seq<Step>, w: Work)
    ensures RunSteps(steps, w).err <==>
              exists k :: 0 <= k < |steps| && Reached(steps, w, k) && !steps[k].tolerated
                          && RunStep(steps[k], RunSteps(steps[..k], w).work).err
    decreases |steps|
  {
    if steps != [] {
      var last := |steps| - 1;
      var rest := steps[..last];
      FirstErrorStops(rest, w);
      RunStepsAppend(rest, steps[last], w);
      assert steps == rest + [steps[last]];
      assert forall k :: 0 <= k <= last ==> rest[..k] == steps[..k];
      if RunSteps(rest, w).err {
        var k :| 0 <= k < |rest| && Reached(rest, w, k) && !rest[k].tolerated
                 && RunStep(rest[k], RunSteps(rest[..k], w).work).err;
        assert Reached(steps, w, k) && steps[k] == rest[k];
      } else if RunStep(steps[last], RunSteps(rest, w).work).err && !steps[last].tolerated {
        assert Reached(steps, w, last);
      } else {
        forall k | 0 <= k < last
          ensures !(Reached(steps, w, k) && !steps[k].tolerated && RunStep(steps[k], RunSteps(steps[..k], w).work).err)
        {
          assert Reached(rest, w, k) <==> Reached(steps, w, k);
        }
      }
    }
  }

  /** A function returns an error exactly when it says so at its end or one of its steps stopped it. */
  lemma FunctionErrs(fn: Fn, w: Work)
    ensures RunFn(fn, w).err <==>
              || fn.err
              || exists k :: 0 <= k < |fn.steps| && Reached(fn.steps, w, k) && !fn.steps[k].tolerated
                             && RunStep(fn.steps[k], RunSteps(fn.steps[..k], w).work).err
  {
    FirstErrorStops(fn.steps, w);
  }

  /** A failing statement of the transaction aborts it for good, tolerated or not: a unit of work that ran one
      commits nothing. */
  lemma ErrorsSpoil(fn: Fn, w: Work, k: nat)
    requires k < |fn.steps| && Reached(fn.steps, w, k)
    requires fn.steps[k].Exec? && fn.steps[k].ctx.Carrying? && fn.steps[k].fails
    ensures RunFn(fn, w).err || RunFn(fn, w).work.aborted
    ensures !fn.steps[k].tolerated ==> RunFn(fn, w).err
  {
    FirstErrorStops(fn.steps, w);
    StaysAborted(fn.steps, w, k);
  }

  lemma {:induction false} StaysAborted(steps: seq<Step>, w: Work, k: nat)
    requires k < |steps| && Reached(steps, w, k) && RunStep(steps[k], RunSteps(steps[..k], w).work).work.aborted
    ensures RunSteps(steps, w).err || RunSteps(steps, w).work.aborted
    decreases k
  {
    if k == 0 {
      AbortedTakesNothing(steps[1..], RunStep(steps[0], w).work);
    } else {
      var ran := RunStep(steps[0], w);
      assert steps[..k][1..] == steps[1..][..k - 1];
      if !ran.err || steps[0].tolerated {
        StaysAborted(steps[1..], ran.work, k - 1);
      }
    }
  }

  /** An aborted transaction stays aborted and takes no further row. */
  lemma {:induction false} AbortedTakesNothing(steps: seq<Step>, w: Work)
    requires w.aborted
    ensures RunSteps(steps, w).work.aborted && RunSteps(steps, w).work.pending == w.pending
    decreases steps, 1
  {
    if steps != [] {
      AbortedStepTakesNothing(steps[0], w);
      AbortedTakesNothing(steps[1..], RunStep(steps[0], w).work);
    }
  }

  lemma {:induction false} AbortedStepTakesNothing(step: Step, w: Work)
    requires w.aborted
    ensures RunStep(step, w).work.aborted && RunStep(step, w).work.pending == w.pending
    decreases step, 0
  {
    if step.Nested? && step.ctx.Carrying? {
      AbortedTakesNothing(step.fn.steps, w);
    }
  }

  class PostgresTxManager {
    var committed: seq<string>
    var tx: Option<seq<string>>          // the rows of the transaction the running function was given
    var aborted: bool

    ghost predicate Valid()
      reads this
    {
      tx.None? ==> !aborted
    }

    /** On a plain context: begins a transaction, runs the function, commits if it returned no error and
        rolls back otherwise; a transaction around it is left as it was. On a context that carries one:
        runs the function and leaves the rest to the caller. So the rows of a transaction are kept, all
        of them, exactly when the call that began it returns no error, and that is when the function
        returned none and the commit of a transaction still in good standing succeeded. */
    method RunInTx(ctx: Context, fn: Fn, beginFails: bool, commitFails: bool) returns (err: bool)
      requires Valid() && (ctx.Carrying? ==> tx.Some?)
      modifies this
      decreases fn, 2
      ensures Valid() && tx.Some? == old(tx.Some?)
      ensures ctx.Carrying? ==>
                var ran := RunFn(fn, Work(old(tx).value, [], old(aborted)));
                && tx.value == ran.work.pending && aborted == ran.work.aborted && err == ran.err
                && committed == old(committed) + ran.work.past
      ensures ctx.Plain? ==> tx == old(tx) && aborted == old(aborted)
      ensures ctx.Plain? && beginFails ==> err && committed == old(committed)
      ensures ctx.Plain? && !beginFails ==>
                var ran := RunFn(fn, Work([], [], false));
                && (err <==> ran.err || ran.work.aborted || commitFails)
                && committed == old(committed) + ran.work.past + if err then [] else ran.work.pending
    {
      if ctx.Carrying? {
        err := Call(fn);
        return;
      }
      if beginFails {
        return true;
      }
      var around, aroundAborted := tx, aborted;
      tx, aborted := Some([]), false;
      err := Call(fn);
      if err || aborted || commitFails {
        err := true;                     // rolled back; committing an aborted transaction rolls back too
      } else {
        committed := committed + tx.value;
      }
      tx, aborted := around, aroundAborted;
    }

    method Call(fn: Fn) returns (err: bool)
      requires Valid() && tx.Some?
      modifies this
      decreases fn, 1
      ensures Valid() && tx.Some?
      ensures var ran := RunFn(fn, Work(old(tx).value, [], old(aborted)));
              && tx.value == ran.work.pending && aborted == ran.work.aborted && err == ran.err
              && committed == old(committed) + ran.work.past
    {
      var i := 0;
      ghost var start := Work(tx.value, [], aborted);
      ghost var done: seq<string> := [];
      while i < |fn.steps|
        invariant i <= |fn.steps| && tx.Some?
        invariant committed == old(committed) + done
        invariant RunSteps(fn.steps[i..], Work(tx.value, done, aborted)) == RunSteps(fn.steps, start)
      {
        var step := fn.steps[i];
        assert step in fn.steps;
        ghost var before := Work(tx.value, done, aborted);
        PastStepGrows(step, before);
        var failed := Take(step);
        done := RunStep(step, before).work.past;
        assert RunStep(step, before) == Ran(Work(tx.value, done, aborted), failed);
        assert fn.steps[i..][0] == step && fn.steps[i..][1..] == fn.steps[i + 1..];
        if failed && !step.tolerated {
          return true;
        }
        i := i + 1;
      }
      return fn.err;
    }

    method Take(step: Step) returns (failed: bool)
      requires Valid() && tx.Some?
      modifies this
      decreases step, 3
      ensures Valid() && tx.Some?
      ensures var ran := RunStep(step, Work(old(tx).value, [], old(aborted)));
              && tx.value == ran.work.pending && aborted == ran.work.aborted && failed == ran.err
              && committed == old(committed) + ran.work.past
    {
      match step {
        case Exec(row, ctx, fails, _) =>
          failed := Exec(row, ctx, fails);
        case Nested(inner, ctx, beginFails, commitFails, _) =>
          failed := RunInTx(ctx, inner, beginFails, commitFails);
      }
    }

    /** The executor of the context: the transaction it carries, otherwise the pool. */
    method Exec(row: string, ctx: Context, fails: bool) returns (failed: bool)
      requires Valid() && (ctx.Carrying? ==> tx.Some?)
      modifies this
      ensures Valid() && tx.Some? == old(tx.Some?)
      ensures failed <==> fails || (ctx.Carrying? && old(aborted))
      ensures ctx.Plain? ==> tx == old(tx) && aborted == old(aborted)
                             && committed == old(committed) + if failed then [] else [row]
      ensures ctx.Carrying? ==> committed == old(committed) && aborted == failed
                                && tx.value == old(tx).value + if failed then [] else [row]
    {
      if ctx.Plain? {
        if !fails {
          committed := committed + [row];
        }
        return fails;
      }
      if aborted || fails {
        aborted := true;
        return true;
      }
      tx := Some(tx.value + [row]);
      return false;
    }
  }

  /** What was committed past the transaction before does not change what a function does. */
  lemma {:induction false} PastOnlyGrows(fn: Fn, w: Work)
    ensures Grown(RunFn(fn, w), RunFn(fn, w.(past := [])), w.past)
    decreases fn, 0
  {
    PastStepsGrow(fn.steps, w);
  }

  ghost predicate Grown(ran: Ran, bare: Ran, past: seq<string>) {
    ran == Ran(bare.work.(past := past + bare.work.past), bare.err)
  }

  lemma {:induction false} PastStepsGrow(steps: seq<Step>, w: Work)
    ensures Grown(RunSteps(steps, w), RunSteps(steps, w.(past := [])), w.past)
    decreases steps, 1
  {
    if steps != [] {
      PastStepGrows(steps[0], w);
      var next, bare := RunStep(steps[0], w).work, RunStep(steps[0], w.(past := [])).work;
      assert next.(past := []) == bare.(past := []);
      PastStepsGrow(steps[1..], next);
      PastStepsGrow(steps[1..], bare);
    }
  }

  lemma {:induction false} PastStepGrows(step: Step, w: Work)
    ensures Grown(RunStep(step, w), RunStep(step, w.(past := [])), w.past)
    decreases step, 0
  {
    if step.Nested? {
      PastOnlyGrows(step.fn, if step.ctx.Plain? then Work([], w.past, false) else w);
    }
  }
}
