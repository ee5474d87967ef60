/** What a step hands to its operation, what it leaves behind, and what the workflow returns
    (pkg/runtime/workflow.go, pkg/runtime/workflow_expression.go). */
module WorkflowSteps {
  import opened Wrappers
  import opened JsonValues
  import opened Text
  import opened WorkflowChecker
  import opened WorkflowExpressions
  import opened WorkflowRuns

  // ----- the operation input

  predicate AllEvaluate<T>(bindings: seq<Binding>, eval: Evaluator<T>) {
    forall i :: 0 <= i < |bindings| ==> eval(bindings[i].expr).Ok?
  }

  ghost predicate FirstError<T>(bindings: seq<Binding>, eval: Evaluator<T>, e: EvalError) {
    exists i :: 0 <= i < |bindings| && eval(bindings[i].expr) == Err(e) && AllEvaluate(bindings[..i], eval)
  }

  lemma {:induction false} BindingsMean<T>(bindings: seq<Binding>, eval: Evaluator<T>)
    ensures EvalBindings(bindings, eval).Ok? <==> AllEvaluate(bindings, eval)
    ensures EvalBindings(bindings, eval).Ok? ==>
      var pairs := EvalBindings(bindings, eval).value;
      |pairs| == |bindings|
      && forall i :: 0 <= i < |bindings| ==> pairs[i] == (bindings[i].name, eval(bindings[i].expr).value)
    ensures EvalBindings(bindings, eval).Err? ==> FirstError(bindings, eval, EvalBindings(bindings, eval).error)
  {
    if bindings == [] {
    } else {
      var rest := bindings[1..];
      BindingsMean(rest, eval);
      assert forall i :: 0 < i < |bindings| ==> bindings[i] == rest[i - 1];
      FirstBinding(bindings, eval);
    }
  }

  lemma FirstBinding<T>(bindings: seq<Binding>, eval: Evaluator<T>)
    requires bindings != []
    ensures AllEvaluate(bindings, eval) <==> eval(bindings[0].expr).Ok? && AllEvaluate(bindings[1..], eval)
    ensures eval(bindings[0].expr).Err? ==> FirstError(bindings, eval, eval(bindings[0].expr).error)
    ensures eval(bindings[0].expr).Ok? ==> forall e ::
      FirstError(bindings[1..], eval, e) ==> FirstError(bindings, eval, e)
  {
    var rest := bindings[1..];
    assert forall i :: 0 < i < |bindings| ==> bindings[i] == rest[i - 1];
    assert AllEvaluate(bindings[..0], eval);
    if eval(bindings[0].expr).Ok? {
      forall e | FirstError(rest, eval, e) ensures FirstError(bindings, eval, e) {
        var i :| 0 <= i < |rest| && eval(rest[i].expr) == Err(e) && AllEvaluate(rest[..i], eval);
        assert bindings[..i + 1] == [bindings[0]] + rest[..i];
        assert eval(bindings[i + 1].expr) == Err(e) && AllEvaluate(bindings[..i + 1], eval);
      }
    }
  }

  /** The keys of a Go map. */
  predicate DistinctNames(bindings: seq<Binding>) {
    forall i, j :: 0 <= i < j < |bindings| ==> bindings[i].name != bindings[j].name
  }

  lemma {:induction false} MapHolds<T>(pairs: seq<(string, T)>)
    requires forall i, j :: 0 <= i < j < |pairs| ==> pairs[i].0 != pairs[j].0
    ensures forall name :: name in AsMap(pairs) <==> exists i :: 0 <= i < |pairs| && pairs[i].0 == name
    ensures forall i :: 0 <= i < |pairs| ==> AsMap(pairs)[pairs[i].0] == pairs[i].1
  {
    if pairs == [] {
    } else {
      var init := pairs[..|pairs| - 1];
      MapHolds(init);
      assert forall i :: 0 <= i < |init| ==> init[i] == pairs[i];
    }
  }

  /** Under each parameter name the value of its expression, and nothing else. */
  predicate HoldsValues(values: map<string, Evaluated>, params: seq<Binding>, eval: Evaluator<Evaluated>) {
    && (forall i :: 0 <= i < |params| ==>
          && params[i].name in values
          && eval(params[i].expr) == Ok(values[params[i].name]))
    && (forall name :: name in values ==> exists i :: 0 <= i < |params| && params[i].name == name)
  }

  /** Each assignment as its path, an equals sign and its text, in order. */
  predicate HoldsSets(sets: seq<string>, bindings: seq<Binding>, eval: Evaluator<string>) {
    && |sets| == |bindings|
    && forall i :: 0 <= i < |bindings| ==>
         eval(bindings[i].expr).Ok? && sets[i] == bindings[i].name + "=" + eval(bindings[i].expr).value
  }

  lemma ValuesHeld(params: seq<Binding>, eval: Evaluator<Evaluated>)
    requires DistinctNames(params) && EvalBindings(params, eval).Ok?
    ensures HoldsValues(AsMap(EvalBindings(params, eval).value), params, eval)
  {
    BindingsMean(params, eval);
    var pairs := EvalBindings(params, eval).value;
    MapHolds(pairs);
    forall i | 0 <= i < |params| ensures params[i].name == pairs[i].0 {}
  }

  lemma SetsHeld(bindings: seq<Binding>, eval: Evaluator<string>)
    requires EvalBindings(bindings, eval).Ok?
    ensures HoldsSets(AsSets(EvalBindings(bindings, eval).value), bindings, eval)
  {
    BindingsMean(bindings, eval);
  }

  /** The operation gets the value of every parameter under its name, and the assignments in order; or the step
      fails with the first error, of the parameters before the body sets and of these before the string sets. */
  lemma InputMeans(step: Step, value: Evaluator<Evaluated>, text: Evaluator<string>)
    requires DistinctNames(step.params)
    ensures match InputOf(step, value, text)
            case Ok(input) =>
              && HoldsValues(input.values, step.params, value)
              && HoldsSets(input.sets, step.sets, text)
              && HoldsSets(input.stringSets, step.stringSets, text)
            case Err(e) =>
              if !AllEvaluate(step.params, value) then FirstError(step.params, value, e)
              else if !AllEvaluate(step.sets, text) then FirstError(step.sets, text, e)
              else FirstError(step.stringSets, text, e)
  {
    BindingsMean(step.params, value);
    BindingsMean(step.sets, text);
    BindingsMean(step.stringSets, text);
    if InputOf(step, value, text).Ok? {
      ValuesHeld(step.params, value);
      SetsHeld(step.sets, text);
      SetsHeld(step.stringSets, text);
    }
  }

  // ----- one step of the run

  /** The step adds one result of its own, and nothing else changes. */
  predicate Adds(run: Run, after: Run, id: string, status: Status) {
    after.results == run.results + [StepResult(id, status)] && after.state.inputs == run.state.inputs
  }

  predicate Skips(run: Run, after: Run, id: string) {
    && Adds(run, after, id, StatusSkipped) && after.outcome == Running
    && after.state.steps == run.state.steps && after.state.skipped == run.state.skipped + {id}
  }

  predicate Fails(run: Run, after: Run, id: string, failure: Failure) {
    && Adds(run, after, id, StatusFailed) && after.outcome == Failed(id, failure) && after.state == run.state
  }

  /** The data of the operation is the output of the step. */
  predicate Completes(run: Run, after: Run, id: string, data: Json, paused: bool) {
    && Adds(run, after, id, if paused then StatusPaused else StatusOk)
    && after.outcome == (if paused then Paused(data) else Running)
    && after.state.steps == run.state.steps[id := data] && after.state.skipped == run.state.skipped
  }

  /** An evaluation error skips the step when it is a skipped step that is read, and fails it otherwise. */
  predicate Ends(run: Run, after: Run, id: string, e: EvalError) {
    if e.StepSkipped? then Skips(run, after, id) else Fails(run, after, id, EvalFailure(e))
  }

  /** One step: its conditions, then its input, then its operation decide. */
  lemma StepMeans(run: Run, step: Step, ops: Operations, render: Render)
    ensures var after := ExecStep(run, step, ops, render);
            match EvalConditions(step.when, ConditionEval(run.state, render))
            case Err(e) => Ends(run, after, step.id, e)
            case Ok(false) => Skips(run, after, step.id)
            case Ok(true) =>
              match InputOf(step, ValueEval(run.state, render), TextEval(run.state, render))
              case Err(e) => Ends(run, after, step.id, e)
              case Ok(input) =>
                match ops(|run.results|, input)
                case OpFailed => Fails(run, after, step.id, OperationFailure)
                case OpDone(data, paused) => Completes(run, after, step.id, data, paused)
  {
  }

  // ----- the output

  /** A failed workflow returns nothing, a paused one the data of its last step; one that ran to its end returns
      what its output expression names, or a summary when there is none or it reads a skipped step. */
  lemma OutputMeans(workflow: Workflow, run: Run, render: Render)
    ensures var output := OutputOf(workflow, run, render);
            && (run.outcome.Failed? ==> output == NoOutput)
            && (run.outcome.Paused? ==> output == Data(JsonValue(run.outcome.data)))
            && (run.outcome.Running? ==>
                  if forall i :: 0 <= i < |workflow.outputFrom| ==> IsSpace(workflow.outputFrom[i])
                  then output == Summary
                  else
                    match EvalValue(workflow.outputFrom, run.state, InOutput, render)
                    case Ok(value) => output == Data(value)
                    case Err(StepSkipped(_)) => output == Summary
                    case Err(e) => output == OutputError(e))
  {
    BlankIsEmpty(workflow.outputFrom);
  }
}
