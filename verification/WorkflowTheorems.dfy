/** What every workflow run keeps, and what the static checker guarantees about runs. */
module WorkflowTheorems {
  import opened JsonValues
  import opened WorkflowChecker
  import opened WorkflowExpressions
  import opened WorkflowRuns

  // ----- the shape of a run

  predicate Ran(status: Status) {
    status.StatusOk? || status.StatusPaused?
  }

  predicate WasSkipped(status: Status) {
    status.StatusSkipped?
  }

  function IdsWith(results: seq<StepResult>, keep: Status -> bool): set<string> {
    set i | 0 <= i < |results| && keep(results[i].status) :: results[i].id
  }

  function Executed(results: seq<StepResult>): set<string> {
    IdsWith(results, Ran)
  }

  function Skipped(results: seq<StepResult>): set<string> {
    IdsWith(results, WasSkipped)
  }

  predicate InDeclarationOrder(results: seq<StepResult>, steps: seq<Step>) {
    |results| <= |steps| && forall i :: 0 <= i < |results| ==> results[i].id == steps[i].id
  }

  /** All results but the last are ok or skipped; the last one tells how the run ended. */
  predicate EndsProperly(run: Run) {
    && (forall i :: 0 <= i < |run.results| - 1 ==> run.results[i].status in {StatusOk, StatusSkipped})
    && match run.outcome
       case Running => run.results != [] ==> run.results[|run.results| - 1].status in {StatusOk, StatusSkipped}
       case Failed(id, _) => run.results != [] && run.results[|run.results| - 1] == StepResult(id, StatusFailed)
       case Paused(data) =>
         && run.results != []
         && var last := run.results[|run.results| - 1];
            last.status == StatusPaused && last.id in run.state.steps && run.state.steps[last.id] == data
  }

  predicate Shape(run: Run, steps: seq<Step>) {
    && InDeclarationOrder(run.results, steps)
    && EndsProperly(run)
    && run.state.steps.Keys == Executed(run.results)
    && run.state.skipped == Skipped(run.results)
  }

  lemma IdsWithSnoc(results: seq<StepResult>, r: StepResult, keep: Status -> bool)
    ensures IdsWith(results + [r], keep) == IdsWith(results, keep) + (if keep(r.status) then {r.id} else {})
  {
    var more := results + [r];
    forall id | id in IdsWith(results, keep) ensures id in IdsWith(more, keep) {
      var i :| 0 <= i < |results| && keep(results[i].status) && results[i].id == id;
      assert more[i] == results[i];
    }
    assert more[|results|] == r;
  }

  lemma AdvanceShape(run: Run, steps: seq<Step>, verdict: Verdict, done: OpOutcome)
    requires Shape(run, steps) && run.outcome.Running? && |run.results| < |steps|
    ensures Shape(Advance(run, steps[|run.results|].id, verdict, done), steps)
  {
    var id := steps[|run.results|].id;
    var after := Advance(run, id, verdict, done);
    var r := after.results[|run.results|];
    assert after.results == run.results + [r];
    IdsWithSnoc(run.results, r, Ran);
    IdsWithSnoc(run.results, r, WasSkipped);
  }

  /** An executor that advances by some verdict. */
  ghost predicate AdvancesBy(exec: Exec, run: Run, step: Step) {
    exists verdict, done :: exec(run, step) == Advance(run, step.id, verdict, done)
  }

  ghost predicate Advances(exec: Exec) {
    forall run, step :: AdvancesBy(exec, run, step)
  }

  lemma StepExecAdvances(ops: Operations, render: Render)
    ensures Advances(StepExec(ops, render))
  {
    forall run, step ensures AdvancesBy(StepExec(ops, render), run, step) {
      StepExecAdvance(run, step, ops, render);
    }
  }

  lemma StepExecAdvance(run: Run, step: Step, ops: Operations, render: Render)
    ensures AdvancesBy(StepExec(ops, render), run, step)
  {
    var verdict := Decide(step, run.state, render);
    var done := if verdict.Execute? then ops(|run.results|, verdict.input) else OpFailed;
    assert ExecStep(run, step, ops, render) == Advance(run, step.id, verdict, done);
    assert StepExec(ops, render)(run, step) == Advance(run, step.id, verdict, done);
  }

  lemma {:induction false} ExecShape(run: Run, steps: seq<Step>, n: nat, exec: Exec)
    requires Advances(exec)
    requires Shape(run, steps) && n <= |steps| && (run.outcome.Running? ==> |run.results| == n)
    ensures var end := ExecFrom(run, steps[n..], exec);
            Shape(end, steps) && (end.outcome.Running? ==> |end.results| == |steps|)
    decreases |steps| - n
  {
    if n == |steps| || !run.outcome.Running? {
    } else {
      assert AdvancesBy(exec, run, steps[n]);
      var verdict, done :| exec(run, steps[n]) == Advance(run, steps[n].id, verdict, done);
      AdvanceShape(run, steps, verdict, done);
      assert steps[n..][0] == steps[n] && steps[n..][1..] == steps[n + 1..];
      ExecShape(exec(run, steps[n]), steps, n + 1, exec);
    }
  }

  /** The run invariant: results list the processed steps once each in declaration order, the
      executed and the skipped ids partition the decided ones, failed and paused occur only as the
      last entry, and a run that was not ended has processed every step. */
  lemma RunShape(workflow: Workflow, inputs: map<string, Json>, ops: Operations, render: Render)
    requires DistinctIds(workflow.steps)
    ensures var run := RunOf(workflow, inputs, ops, render);
            && Shape(run, workflow.steps)
            && (run.outcome.Running? ==> |run.results| == |workflow.steps|)
            && run.state.steps.Keys !! run.state.skipped
            && (run.outcome.Running? ==> run.state.steps.Keys + run.state.skipped == Ids(workflow.steps))
  {
    EndShape(workflow.steps, inputs, StepExec(ops, render), ops, render);
    EndPartition(RunOf(workflow, inputs, ops, render), workflow.steps);
  }

  lemma EndShape(steps: seq<Step>, inputs: map<string, Json>, exec: Exec, ops: Operations, render: Render)
    requires exec == StepExec(ops, render)
    ensures var end := ExecFrom(Start(inputs), steps, exec);
            Shape(end, steps) && (end.outcome.Running? ==> |end.results| == |steps|)
  {
    StepExecAdvances(ops, render);
    assert steps[0..] == steps;
    ExecShape(Start(inputs), steps, 0, exec);
  }

  lemma EndPartition(run: Run, steps: seq<Step>)
    requires DistinctIds(steps) && Shape(run, steps) && (run.outcome.Running? ==> |run.results| == |steps|)
    ensures run.state.steps.Keys !! run.state.skipped
    ensures run.outcome.Running? ==> run.state.steps.Keys + run.state.skipped == Ids(steps)
  {
    ExecutedAndSkippedApart(run.results, steps);
    if run.outcome.Running? {
      DecidedIds(run, steps);
      assert steps[..|steps|] == steps;
    }
  }

  lemma ExecutedAndSkippedApart(results: seq<StepResult>, steps: seq<Step>)
    requires DistinctIds(steps) && InDeclarationOrder(results, steps)
    ensures Executed(results) !! Skipped(results)
  {
    forall i, j | 0 <= i < |results| && 0 <= j < |results| && results[i].id == results[j].id ensures i == j {
      assert steps[i].id == steps[j].id;
    }
  }

  lemma DecidedIds(run: Run, steps: seq<Step>)
    requires Shape(run, steps) && run.outcome.Running?
    ensures run.state.steps.Keys + run.state.skipped == Ids(steps[..|run.results|])
  {
    var results, seen := run.results, steps[..|run.results|];
    forall i | 0 <= i < |results| ensures results[i].id in Executed(results) + Skipped(results) {
      assert results[i].status in {StatusOk, StatusSkipped};
    }
    forall id | id in Executed(results) + Skipped(results) ensures id in Ids(seen) {
      var i :| 0 <= i < |results| && results[i].id == id;
      assert seen[i].id == id;
    }
    forall id | id in Ids(seen) ensures id in Executed(results) + Skipped(results) {
      var i :| 0 <= i < |seen| && seen[i].id == id;
      assert results[i].id == id;
    }
    assert seen == steps[..|results|];
  }

  // ----- accepted workflows do not go wrong

  predicate Wrong(failure: Failure) {
    failure.EvalFailure? && GoesWrong(failure.e)
  }

  /** Whole-expression references, which the evaluator reads up to the last brace, name known steps. */
  predicate WholeRefsKnown(exprs: seq<string>, steps: set<string>) {
    forall i :: 0 <= i < |exprs| ==> WholeRefKnown(exprs[i], steps)
  }

  predicate WholeRefKnown(expr: string, steps: set<string>) {
    WholeReference(expr).Some? ==> TargetKnown(WholeReference(expr).value, steps)
  }

  predicate TidyReferences(workflow: Workflow) {
    && (forall i :: 0 <= i < |workflow.steps| ==>
          WholeRefsKnown(Exprs(workflow.steps[i].params), Ids(workflow.steps[..i])))
    && WholeRefKnown(workflow.outputFrom, Ids(workflow.steps))
  }

  /** The evaluator never goes wrong on the given expressions. */
  predicate SafeOn<T>(exprs: seq<string>, eval: Evaluator<T>) {
    forall i :: 0 <= i < |exprs| ==> eval(exprs[i]).Err? ==> !GoesWrong(eval(exprs[i]).error)
  }

  lemma {:induction false} ConditionsSafe(conditions: seq<Condition>, eval: Evaluator<string>)
    requires SafeOn(ConditionExprs(conditions), eval)
    ensures EvalConditions(conditions, eval).Err? ==> !GoesWrong(EvalConditions(conditions, eval).error)
  {
    if conditions == [] {
    } else {
      assert ConditionExprs(conditions)[0] == conditions[0].value;
      assert ConditionExprs(conditions)[1..] == ConditionExprs(conditions[1..]);
      SafeTail(ConditionExprs(conditions), eval);
      ConditionsSafe(conditions[1..], eval);
    }
  }

  lemma SafeTail<T>(exprs: seq<string>, eval: Evaluator<T>)
    requires exprs != [] && SafeOn(exprs, eval)
    ensures SafeOn(exprs[1..], eval)
  {
    forall i | 0 <= i < |exprs[1..]| ensures eval(exprs[1..][i]).Err? ==> !GoesWrong(eval(exprs[1..][i]).error) {
      assert exprs[1..][i] == exprs[i + 1];
    }
  }

  lemma {:induction false} BindingsSafe<T>(bindings: seq<Binding>, eval: Evaluator<T>)
    requires SafeOn(Exprs(bindings), eval)
    ensures EvalBindings(bindings, eval).Err? ==> !GoesWrong(EvalBindings(bindings, eval).error)
  {
    if bindings == [] {
    } else {
      assert Exprs(bindings)[0] == bindings[0].expr;
      assert Exprs(bindings)[1..] == Exprs(bindings[1..]);
      SafeTail(Exprs(bindings), eval);
      BindingsSafe(bindings[1..], eval);
    }
  }

  lemma DecideSafe(step: Step, inputs: set<string>, steps: set<string>, state: State, render: Render)
    requires StepAccepted(step, inputs, steps) && WholeRefsKnown(Exprs(step.params), steps)
    requires Decided(state, steps)
    ensures Decide(step, state, render).Fail? ==> !Wrong(Decide(step, state, render).failure)
  {
    TextsSafe(ConditionExprs(step.when), inputs, steps, state, InCondition, render, ConditionEval(state, render));
    ConditionsSafe(step.when, ConditionEval(state, render));
    TextsSafe(Exprs(step.sets), inputs, steps, state, Strict, render, TextEval(state, render));
    TextsSafe(Exprs(step.stringSets), inputs, steps, state, Strict, render, TextEval(state, render));
    ValuesSafe(Exprs(step.params), inputs, steps, state, render);
    BindingsSafe(step.params, ValueEval(state, render));
    BindingsSafe(step.sets, TextEval(state, render));
    BindingsSafe(step.stringSets, TextEval(state, render));
  }

  lemma TextsSafe(exprs: seq<string>, inputs: set<string>, steps: set<string>, state: State, mode: Mode, render: Render,
                  eval: Evaluator<string>)
    requires AllAccepted(exprs, inputs, steps) && Decided(state, steps)
    requires forall expr :: eval(expr) == EvalString(expr, state, mode, render)
    ensures SafeOn(exprs, eval)
  {
    forall i | 0 <= i < |exprs| ensures eval(exprs[i]).Err? ==> !GoesWrong(eval(exprs[i]).error) {
      AcceptedTextIsSafe(exprs[i], inputs, steps, state, mode, render);
    }
  }

  lemma ValuesSafe(exprs: seq<string>, inputs: set<string>, steps: set<string>, state: State, render: Render)
    requires AllAccepted(exprs, inputs, steps) && WholeRefsKnown(exprs, steps) && Decided(state, steps)
    ensures SafeOn(exprs, ValueEval(state, render))
  {
    forall i | 0 <= i < |exprs|
      ensures ValueEval(state, render)(exprs[i]).Err? ==> !GoesWrong(ValueEval(state, render)(exprs[i]).error)
    {
      AcceptedValueGoesWrongIff(exprs[i], inputs, steps, state, Strict, render);
    }
  }

  /** In every state a run of `steps` can reach, the next step does not go wrong. */
  ghost predicate NextStepSafe(exec: Exec, run: Run, steps: seq<Step>) {
    Shape(run, steps) && run.outcome.Running? && |run.results| < |steps| ==>
      var next := exec(run, steps[|run.results|]);
      next.outcome.Failed? ==> !Wrong(next.outcome.failure)
  }

  lemma AdvanceSafe(run: Run, id: string, verdict: Verdict, done: OpOutcome)
    requires verdict.Fail? ==> !Wrong(verdict.failure)
    ensures var next := Advance(run, id, verdict, done);
            next.outcome.Failed? ==> !Wrong(next.outcome.failure)
  {
  }

  lemma StepSafe(run: Run, workflow: Workflow, inputs: set<string>, render: Render)
    requires Accepted(workflow, inputs) && TidyReferences(workflow)
    requires Shape(run, workflow.steps) && run.outcome.Running? && |run.results| < |workflow.steps|
    ensures var verdict := Decide(workflow.steps[|run.results|], run.state, render);
            verdict.Fail? ==> !Wrong(verdict.failure)
  {
    var steps, n := workflow.steps, |run.results|;
    DecidedIds(run, steps);
    DecideSafe(steps[n], inputs, Ids(steps[..n]), run.state, render);
  }

  lemma StepExecSafe(run: Run, workflow: Workflow, inputs: set<string>, ops: Operations, render: Render)
    requires Accepted(workflow, inputs) && TidyReferences(workflow)
    ensures NextStepSafe(StepExec(ops, render), run, workflow.steps)
  {
    var steps, n := workflow.steps, |run.results|;
    if Shape(run, steps) && run.outcome.Running? && n < |steps| {
      StepSafe(run, workflow, inputs, render);
      var verdict := Decide(steps[n], run.state, render);
      AdvanceSafe(run, steps[n].id, verdict, if verdict.Execute? then ops(n, verdict.input) else OpFailed);
    }
  }

  lemma {:induction false} ExecSafe(run: Run, steps: seq<Step>, n: nat, exec: Exec)
    requires Advances(exec) && forall r :: NextStepSafe(exec, r, steps)
    requires Shape(run, steps) && run.outcome.Running? && |run.results| == n
    ensures var end := ExecFrom(run, steps[n..], exec);
            end.outcome.Failed? ==> !Wrong(end.outcome.failure)
    decreases |steps| - n
  {
    if n == |steps| {
    } else {
      assert steps[n..][0] == steps[n] && steps[n..][1..] == steps[n + 1..];
      assert NextStepSafe(exec, run, steps) && AdvancesBy(exec, run, steps[n]);
      var next := exec(run, steps[n]);
      var verdict, done :| next == Advance(run, steps[n].id, verdict, done);
      AdvanceShape(run, steps, verdict, done);
      if next.outcome.Running? {
        ExecSafe(next, steps, n + 1, exec);
      }
    }
  }

  /** Accepted workflows do not go wrong: for every input and every sequence of operation results,
      no step and no output expression ends in an unknown step, an unknown reference or an
      unterminated one. */
  lemma AcceptedWorkflowsDoNotGoWrong(workflow: Workflow, declared: set<string>, inputs: map<string, Json>,
                                      ops: Operations, render: Render)
    requires DistinctIds(workflow.steps) && Accepted(workflow, declared) && TidyReferences(workflow)
    ensures var run := RunOf(workflow, inputs, ops, render);
            && (run.outcome.Failed? ==> !Wrong(run.outcome.failure))
            && (OutputOf(workflow, run, render).OutputError? ==> !GoesWrong(OutputOf(workflow, run, render).e))
  {
    var exec := StepExec(ops, render);
    assert workflow.steps[0..] == workflow.steps;
    StepExecAdvances(ops, render);
    forall r ensures NextStepSafe(exec, r, workflow.steps) {
      StepExecSafe(r, workflow, declared, ops, render);
    }
    ExecSafe(Start(inputs), workflow.steps, 0, exec);
    RunShape(workflow, inputs, ops, render);
    var run := RunOf(workflow, inputs, ops, render);
    if run.outcome.Running? {
      AcceptedValueGoesWrongIff(workflow.outputFrom, declared, Ids(workflow.steps), run.state, InOutput, render);
    }
  }

  /** A parameter or output that is one reference holds no second closing brace. */
  predicate OneBraceWorkflow(workflow: Workflow) {
    && (forall i, k :: 0 <= i < |workflow.steps| && 0 <= k < |Exprs(workflow.steps[i].params)| ==>
          OneBrace(Exprs(workflow.steps[i].params)[k]))
    && OneBrace(workflow.outputFrom)
  }

  lemma OneBraceKnown(expr: string, inputs: set<string>, steps: set<string>)
    requires RefsAccepted(expr, inputs, steps) && OneBrace(expr)
    ensures WholeRefKnown(expr, steps)
  {
    if WholeReference(expr).Some? {
      OneBraceIsFirstRead(expr);
      assert Reads(expr)[0] == WholeReference(expr).value;
      AcceptedTargetsKnown(expr, inputs, steps, 0);
    }
  }

  /** The condition on braces is all that an accepted workflow needs besides. */
  lemma OneBraceIsTidy(workflow: Workflow, declared: set<string>)
    requires Accepted(workflow, declared) && OneBraceWorkflow(workflow)
    ensures TidyReferences(workflow)
  {
    forall i, k | 0 <= i < |workflow.steps| && 0 <= k < |Exprs(workflow.steps[i].params)|
      ensures WholeRefKnown(Exprs(workflow.steps[i].params)[k], Ids(workflow.steps[..i]))
    {
      assert StepAccepted(workflow.steps[i], declared, Ids(workflow.steps[..i]));
      OneBraceKnown(Exprs(workflow.steps[i].params)[k], declared, Ids(workflow.steps[..i]));
    }
    OneBraceKnown(workflow.outputFrom, declared, Ids(workflow.steps));
  }
}
