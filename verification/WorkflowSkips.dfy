/** How skipping propagates through a workflow run. */
module WorkflowSkips {
  import opened Wrappers
  import opened JsonValues
  import opened WorkflowChecker
  import opened WorkflowExpressions
  import opened WorkflowRuns
  import opened WorkflowTheorems

  predicate ReadsSkipped(ref: string, skipped: set<string>) {
    var target := TargetOf(ref);
    target.StepOutput? && target.id in skipped
  }

  /** The references that evaluating a parameter looks up. */
  function ValueReads(expr: string): seq<string> {
    match WholeReference(expr)
    case Some(ref) => [ref]
    case None => Reads(expr)
  }

  type ReadsOf = string -> seq<string>

  predicate NoneSkipped(exprs: seq<string>, readsOf: ReadsOf, skipped: set<string>) {
    forall i :: 0 <= i < |exprs| ==> forall ref :: ref in readsOf(exprs[i]) ==> !ReadsSkipped(ref, skipped)
  }

  /** No reference in the step's conditions, parameters and body sets addresses a skipped step. */
  predicate ReadsNoSkipped(step: Step, skipped: set<string>) {
    && NoneSkipped(ConditionExprs(step.when), Reads, skipped)
    && NoneSkipped(Exprs(step.params), ValueReads, skipped)
    && NoneSkipped(Exprs(step.sets), Reads, skipped)
    && NoneSkipped(Exprs(step.stringSets), Reads, skipped)
  }

  // ----- a step that executes reads no skipped step

  lemma PieceReadsNoSkipped(ref: string, state: State, mode: Mode, render: Render)
    requires PiecesOf(state, mode, render)(ref).Ok? && !mode.InOutput?
    ensures !ReadsSkipped(ref, state.skipped)
  {
  }

  lemma TextReadsNoSkipped(expr: string, state: State, mode: Mode, render: Render)
    requires EvalString(expr, state, mode, render).Ok? && !mode.InOutput?
    ensures forall ref :: ref in Reads(expr) ==> !ReadsSkipped(ref, state.skipped)
  {
    var pieces := PiecesOf(state, mode, render);
    ContributesAll(Parse(expr), pieces, mode);
    forall ref | ref in Reads(expr) ensures !ReadsSkipped(ref, state.skipped) {
      assert pieces(ref).Ok?;
      PieceReadsNoSkipped(ref, state, mode, render);
    }
  }

  lemma ContributesAll(t: Template, pieces: Pieces, mode: Mode)
    requires Evaluate(t, pieces, mode).Ok?
    ensures forall ref :: ref in RefsOf(t) ==> pieces(ref).Ok?
  {
    EvaluateVisitsRefs(t, pieces, mode);
  }

  lemma ValueReadsNoSkipped(expr: string, state: State, render: Render)
    requires EvalValue(expr, state, Strict, render).Ok?
    ensures forall ref :: ref in ValueReads(expr) ==> !ReadsSkipped(ref, state.skipped)
  {
    if WholeReference(expr).None? {
      TextReadsNoSkipped(expr, state, Strict, render);
    }
  }

  predicate AllOk<T>(exprs: seq<string>, eval: Evaluator<T>) {
    forall i :: 0 <= i < |exprs| ==> eval(exprs[i]).Ok?
  }

  lemma AllOkCons<T>(exprs: seq<string>, eval: Evaluator<T>)
    requires exprs != []
    ensures AllOk(exprs, eval) <==> eval(exprs[0]).Ok? && AllOk(exprs[1..], eval)
  {
    if eval(exprs[0]).Ok? && AllOk(exprs[1..], eval) {
      forall i | 0 <= i < |exprs| ensures eval(exprs[i]).Ok? {
        assert i > 0 ==> exprs[i] == exprs[1..][i - 1];
      }
    }
    if AllOk(exprs, eval) {
      forall i | 0 <= i < |exprs[1..]| ensures eval(exprs[1..][i]).Ok? {
        assert exprs[1..][i] == exprs[i + 1];
      }
    }
  }

  lemma {:induction false} MatchedConditionsOk(conditions: seq<Condition>, eval: Evaluator<string>)
    requires EvalConditions(conditions, eval) == Ok(true)
    ensures AllOk(ConditionExprs(conditions), eval)
  {
    if conditions == [] {
    } else {
      assert ConditionExprs(conditions)[0] == conditions[0].value;
      assert ConditionExprs(conditions)[1..] == ConditionExprs(conditions[1..]);
      MatchedConditionsOk(conditions[1..], eval);
      AllOkCons(ConditionExprs(conditions), eval);
    }
  }

  lemma {:induction false} BindingsOk<T>(bindings: seq<Binding>, eval: Evaluator<T>)
    ensures EvalBindings(bindings, eval).Ok? <==> AllOk(Exprs(bindings), eval)
  {
    if bindings == [] {
    } else {
      assert Exprs(bindings)[0] == bindings[0].expr;
      assert Exprs(bindings)[1..] == Exprs(bindings[1..]);
      BindingsOk(bindings[1..], eval);
      AllOkCons(Exprs(bindings), eval);
    }
  }

  lemma TextsNoneSkipped(exprs: seq<string>, state: State, mode: Mode, render: Render, eval: Evaluator<string>)
    requires AllOk(exprs, eval) && !mode.InOutput?
    requires forall expr :: eval(expr) == EvalString(expr, state, mode, render)
    ensures NoneSkipped(exprs, Reads, state.skipped)
  {
    forall i | 0 <= i < |exprs| ensures forall ref :: ref in Reads(exprs[i]) ==> !ReadsSkipped(ref, state.skipped) {
      assert eval(exprs[i]).Ok?;
      TextReadsNoSkipped(exprs[i], state, mode, render);
    }
  }

  lemma ValuesNoneSkipped(exprs: seq<string>, state: State, render: Render)
    requires AllOk(exprs, ValueEval(state, render))
    ensures NoneSkipped(exprs, ValueReads, state.skipped)
  {
    forall i | 0 <= i < |exprs|
      ensures forall ref :: ref in ValueReads(exprs[i]) ==> !ReadsSkipped(ref, state.skipped)
    {
      assert ValueEval(state, render)(exprs[i]).Ok?;
      ValueReadsNoSkipped(exprs[i], state, render);
    }
  }

  lemma ExecuteReadsNoSkipped(step: Step, state: State, render: Render)
    requires Decide(step, state, render).Execute?
    ensures ReadsNoSkipped(step, state.skipped)
  {
    var cond, text, value := ConditionEval(state, render), TextEval(state, render), ValueEval(state, render);
    MatchedConditionsOk(step.when, cond);
    TextsNoneSkipped(ConditionExprs(step.when), state, InCondition, render, cond);
    BindingsOk(step.params, value);
    ValuesNoneSkipped(Exprs(step.params), state, render);
    BindingsOk(step.sets, text);
    TextsNoneSkipped(Exprs(step.sets), state, Strict, render, text);
    BindingsOk(step.stringSets, text);
    TextsNoneSkipped(Exprs(step.stringSets), state, Strict, render, text);
  }

  // ----- over a whole run

  /** Every step that ran read no step skipped before it. */
  predicate RanWithoutSkipped(results: seq<StepResult>, steps: seq<Step>) {
    |results| <= |steps| && forall i :: 0 <= i < |results| && Ran(results[i].status) ==>
      ReadsNoSkipped(steps[i], Skipped(results[..i]))
  }

  /** A step that `exec` runs reads no step that is skipped in the state before. */
  ghost predicate RunsOnlyWithoutSkipped(exec: Exec, run: Run, step: Step) {
    var next := exec(run, step);
    |next.results| == |run.results| + 1 && Ran(next.results[|run.results|].status) ==>
      ReadsNoSkipped(step, run.state.skipped)
  }

  lemma StepExecRuns(run: Run, step: Step, ops: Operations, render: Render)
    ensures RunsOnlyWithoutSkipped(StepExec(ops, render), run, step)
  {
    var verdict := Decide(step, run.state, render);
    if verdict.Execute? {
      ExecuteReadsNoSkipped(step, run.state, render);
    } else {
      var next := ExecStep(run, step, ops, render);
      assert next == Advance(run, step.id, verdict, OpFailed);
    }
  }

  lemma {:induction false} ExecReads(run: Run, steps: seq<Step>, n: nat, exec: Exec)
    requires Advances(exec) && forall r, s :: RunsOnlyWithoutSkipped(exec, r, s)
    requires Shape(run, steps) && n <= |steps| && (run.outcome.Running? ==> |run.results| == n)
    requires RanWithoutSkipped(run.results, steps)
    ensures RanWithoutSkipped(ExecFrom(run, steps[n..], exec).results, steps)
    decreases |steps| - n
  {
    if n == |steps| || !run.outcome.Running? {
    } else {
      assert steps[n..][0] == steps[n] && steps[n..][1..] == steps[n + 1..];
      assert AdvancesBy(exec, run, steps[n]) && RunsOnlyWithoutSkipped(exec, run, steps[n]);
      var next := exec(run, steps[n]);
      var verdict, done :| next == Advance(run, steps[n].id, verdict, done);
      AdvanceShape(run, steps, verdict, done);
      AdvanceResults(run, steps[n].id, verdict, done);
      forall i | 0 <= i < |next.results| && Ran(next.results[i].status)
        ensures ReadsNoSkipped(steps[i], Skipped(next.results[..i]))
      {
        assert next.results[..i] == run.results[..i];
        assert run.results[..n] == run.results;
      }
      ExecReads(next, steps, n + 1, exec);
    }
  }

  lemma AdvanceResults(run: Run, id: string, verdict: Verdict, done: OpOutcome)
    ensures var next := Advance(run, id, verdict, done);
            |next.results| == |run.results| + 1 && next.results[..|run.results|] == run.results
  {
  }

  /** In every run, a step that ran has no reference in its conditions, parameters or body sets to a
      step skipped before it. */
  lemma StepsThatRanReadNoSkippedStep(workflow: Workflow, inputs: map<string, Json>, ops: Operations, render: Render)
    ensures RanWithoutSkipped(RunOf(workflow, inputs, ops, render).results, workflow.steps)
  {
    var exec := StepExec(ops, render);
    StepExecAdvances(ops, render);
    forall r, s ensures RunsOnlyWithoutSkipped(exec, r, s) {
      StepExecRuns(r, s, ops, render);
    }
    assert workflow.steps[0..] == workflow.steps;
    ExecReads(Start(inputs), workflow.steps, 0, exec);
  }

  // ----- a step that reads a skipped step is skipped, unless another reference fails

  /** Apart from skipped steps, the references resolve. */
  predicate ResolvesOrSkips(ref: string, state: State) {
    RefValue(ref, state).Err? ==> RefValue(ref, state).error.StepSkipped?
  }

  predicate AllResolveOrSkip(exprs: seq<string>, readsOf: ReadsOf, state: State) {
    forall i :: 0 <= i < |exprs| ==> forall ref :: ref in readsOf(exprs[i]) ==> ResolvesOrSkips(ref, state)
  }

  predicate AllTerminated(exprs: seq<string>) {
    forall i :: 0 <= i < |exprs| ==> Terminated(exprs[i])
  }

  /** The only errors of an evaluator on these expressions are skipped steps. */
  predicate OnlySkips<T>(exprs: seq<string>, eval: Evaluator<T>) {
    forall i :: 0 <= i < |exprs| ==> eval(exprs[i]).Err? ==> eval(exprs[i]).error.StepSkipped?
  }

  lemma OnlySkipsTail<T>(exprs: seq<string>, eval: Evaluator<T>)
    requires exprs != [] && OnlySkips(exprs, eval)
    ensures OnlySkips(exprs[1..], eval)
  {
    forall i | 0 <= i < |exprs[1..]| ensures eval(exprs[1..][i]).Err? ==> eval(exprs[1..][i]).error.StepSkipped? {
      assert exprs[1..][i] == exprs[i + 1];
    }
  }

  lemma TemplateOnlySkips(t: Template, pieces: Pieces, mode: Mode)
    requires mode.InCondition? || Closed(t)
    requires forall ref :: ref in RefsOf(t) && pieces(ref).Err? ==> pieces(ref).error.StepSkipped?
    ensures Evaluate(t, pieces, mode).Err? ==> Evaluate(t, pieces, mode).error.StepSkipped?
  {
    EvaluateVisitsRefs(t, pieces, mode);
  }

  lemma PieceOnlySkips(ref: string, state: State, mode: Mode, render: Render)
    requires mode.InCondition? || ResolvesOrSkips(ref, state)
    ensures PiecesOf(state, mode, render)(ref).Err? ==> PiecesOf(state, mode, render)(ref).error.StepSkipped?
  {
  }

  lemma TextOnlySkips(expr: string, state: State, render: Render)
    requires Terminated(expr) && forall ref :: ref in Reads(expr) ==> ResolvesOrSkips(ref, state)
    ensures EvalString(expr, state, Strict, render).Err? ==> EvalString(expr, state, Strict, render).error.StepSkipped?
  {
    var pieces := PiecesOf(state, Strict, render);
    forall ref | ref in Reads(expr) && pieces(ref).Err? ensures pieces(ref).error.StepSkipped? {
      PieceOnlySkips(ref, state, Strict, render);
    }
    TemplateOnlySkips(Parse(expr), pieces, Strict);
  }

  lemma ConditionOnlySkips(expr: string, state: State, render: Render)
    ensures EvalString(expr, state, InCondition, render).Err? ==>
      EvalString(expr, state, InCondition, render).error.StepSkipped?
  {
    var pieces := PiecesOf(state, InCondition, render);
    forall ref | ref in Reads(expr) && pieces(ref).Err? ensures pieces(ref).error.StepSkipped? {
      PieceOnlySkips(ref, state, InCondition, render);
    }
    TemplateOnlySkips(Parse(expr), pieces, InCondition);
  }

  lemma {:induction false} BindingsOnlySkip<T>(bindings: seq<Binding>, eval: Evaluator<T>)
    requires OnlySkips(Exprs(bindings), eval)
    ensures EvalBindings(bindings, eval).Err? ==> EvalBindings(bindings, eval).error.StepSkipped?
  {
    if bindings == [] {
    } else {
      assert Exprs(bindings)[0] == bindings[0].expr;
      assert Exprs(bindings)[1..] == Exprs(bindings[1..]);
      OnlySkipsTail(Exprs(bindings), eval);
      BindingsOnlySkip(bindings[1..], eval);
    }
  }

  lemma {:induction false} ConditionsOnlySkip(conditions: seq<Condition>, state: State, render: Render)
    ensures EvalConditions(conditions, ConditionEval(state, render)).Err? ==>
      EvalConditions(conditions, ConditionEval(state, render)).error.StepSkipped?
  {
    if conditions == [] {
    } else {
      ConditionOnlySkips(conditions[0].value, state, render);
      ConditionsOnlySkip(conditions[1..], state, render);
    }
  }

  lemma TextsOnlySkip(exprs: seq<string>, state: State, render: Render)
    requires AllTerminated(exprs) && AllResolveOrSkip(exprs, Reads, state)
    ensures OnlySkips(exprs, TextEval(state, render))
  {
    forall i | 0 <= i < |exprs|
      ensures TextEval(state, render)(exprs[i]).Err? ==> TextEval(state, render)(exprs[i]).error.StepSkipped?
    {
      TextOnlySkips(exprs[i], state, render);
    }
  }

  lemma ValuesOnlySkip(exprs: seq<string>, state: State, render: Render)
    requires AllTerminated(exprs) && AllResolveOrSkip(exprs, ValueReads, state)
    ensures OnlySkips(exprs, ValueEval(state, render))
  {
    forall i | 0 <= i < |exprs|
      ensures ValueEval(state, render)(exprs[i]).Err? ==> ValueEval(state, render)(exprs[i]).error.StepSkipped?
    {
      match WholeReference(exprs[i])
      case Some(ref) =>
        assert ref in ValueReads(exprs[i]);
      case None =>
        TextOnlySkips(exprs[i], state, render);
    }
  }

  /** Skips propagate: when the other references of a step resolve, reading a skipped step anywhere
      skips the step, whatever the order in which its parameters are visited. */
  lemma ReadingSkippedStepSkips(step: Step, state: State, render: Render)
    requires AllTerminated(Exprs(step.params)) && AllResolveOrSkip(Exprs(step.params), ValueReads, state)
    requires AllTerminated(Exprs(step.sets)) && AllResolveOrSkip(Exprs(step.sets), Reads, state)
    requires AllTerminated(Exprs(step.stringSets)) && AllResolveOrSkip(Exprs(step.stringSets), Reads, state)
    requires !ReadsNoSkipped(step, state.skipped)
    ensures Decide(step, state, render) == Skip
  {
    ConditionsOnlySkip(step.when, state, render);
    ValuesOnlySkip(Exprs(step.params), state, render);
    BindingsOnlySkip(step.params, ValueEval(state, render));
    TextsOnlySkip(Exprs(step.sets), state, render);
    BindingsOnlySkip(step.sets, TextEval(state, render));
    TextsOnlySkip(Exprs(step.stringSets), state, render);
    BindingsOnlySkip(step.stringSets, TextEval(state, render));
    if Decide(step, state, render).Execute? {
      ExecuteReadsNoSkipped(step, state, render);
    }
  }
}
