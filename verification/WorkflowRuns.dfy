/** Execution of a workflow: the run state machine of executeWorkflow (pkg/runtime/workflow.go). */
module WorkflowRuns {
  import opened Wrappers
  import opened JsonValues
  import opened Text
  import opened WorkflowChecker
  import opened WorkflowExpressions

  // ----- one step

  datatype OperationInput = OperationInput(
    values: map<string, Evaluated>, sets: seq<string>, stringSets: seq<string>)

  /** What running an operation does: contexts, validation, the host or the call can fail; a call
      returns data, and a stream may end it in a pause. */
  datatype OpOutcome = OpFailed | OpDone(data: Json, paused: bool)

  /** Every possible environment: the outcome of the i-th step on its input. */
  type Operations = (nat, OperationInput) -> OpOutcome

  type Evaluator<T> = string -> Result<T, EvalError>

  /** evalWorkflowConditions. */
  function EvalConditions(conditions: seq<Condition>, eval: Evaluator<string>): Result<bool, EvalError> {
    if conditions == [] then Ok(true)
    else
      match eval(conditions[0].value)
      case Err(e) => Err(e)
      case Ok(actual) =>
        var matched := (actual in conditions[0].values) != (conditions[0].operator == "notin");
        if matched then EvalConditions(conditions[1..], eval) else Ok(false)
  }

  predicate Matches(c: Condition, eval: Evaluator<string>) {
    eval(c.value).Ok? && ((eval(c.value).value in c.values) != (c.operator == "notin"))
  }

  predicate AllMatch(conditions: seq<Condition>, eval: Evaluator<string>) {
    forall i :: 0 <= i < |conditions| ==> Matches(conditions[i], eval)
  }

  /** What the conditions come to when one of them is not met. */
  function Unmet(c: Condition, eval: Evaluator<string>): Result<bool, EvalError> {
    match eval(c.value)
    case Err(e) => Err(e)
    case Ok(_) => Ok(false)
  }

  /** The conditions hold exactly when every one can be evaluated and matches; otherwise the first that does
      not decides: its error, or that the step does not run. */
  lemma {:induction false} ConditionsHoldIff(conditions: seq<Condition>, eval: Evaluator<string>)
    ensures EvalConditions(conditions, eval) == Ok(true) <==> AllMatch(conditions, eval)
    ensures EvalConditions(conditions, eval) != Ok(true) ==>
      exists i :: 0 <= i < |conditions| && AllMatch(conditions[..i], eval) && !Matches(conditions[i], eval)
               && EvalConditions(conditions, eval) == Unmet(conditions[i], eval)
  {
    if conditions == [] {
    } else if !Matches(conditions[0], eval) {
      assert AllMatch(conditions[..0], eval);
    } else {
      var rest := conditions[1..];
      ConditionsHoldIff(rest, eval);
      assert forall i :: 0 < i < |conditions| ==> conditions[i] == rest[i - 1];
      if EvalConditions(conditions, eval) != Ok(true) {
        var i :| 0 <= i < |rest| && AllMatch(rest[..i], eval) && !Matches(rest[i], eval)
              && EvalConditions(rest, eval) == Unmet(rest[i], eval);
        assert conditions[..i + 1] == [conditions[0]] + rest[..i];
        assert conditions[i + 1] == rest[i];
      }
    }
  }

  method EvalWorkflowConditions(conditions: seq<Condition>, eval: Evaluator<string>)
    returns (r: Result<bool, EvalError>)
    ensures r == EvalConditions(conditions, eval)
  {
    for i := 0 to |conditions|
      invariant EvalConditions(conditions, eval) == EvalConditions(conditions[i..], eval)
    {
      var cond := conditions[i];
      assert conditions[i..][1..] == conditions[i + 1..];
      var actual := eval(cond.value);
      if actual.Err? {
        return Err(actual.error);
      }
      var matched := actual.value in cond.values;
      if cond.operator == "notin" {
        matched := !matched;
      }
      if !matched {
        return Ok(false);
      }
    }
    return Ok(true);
  }

  /** All bindings evaluated in order, or the first error. */
  function EvalBindings<T>(bindings: seq<Binding>, eval: Evaluator<T>): Result<seq<(string, T)>, EvalError> {
    if bindings == [] then Ok([])
    else
      match eval(bindings[0].expr)
      case Err(e) => Err(e)
      case Ok(value) =>
        match EvalBindings(bindings[1..], eval)
        case Err(e) => Err(e)
        case Ok(rest) => Ok([(bindings[0].name, value)] + rest)
  }

  function AsMap<T>(pairs: seq<(string, T)>): map<string, T> {
    if pairs == [] then map[] else AsMap(pairs[..|pairs| - 1])[pairs[|pairs| - 1].0 := pairs[|pairs| - 1].1]
  }

  function AsSets(pairs: seq<(string, string)>): seq<string> {
    seq(|pairs|, i requires 0 <= i < |pairs| => pairs[i].0 + "=" + pairs[i].1)
  }

  /** workflowOperationInput. */
  function InputOf(step: Step, value: Evaluator<Evaluated>, text: Evaluator<string>)
    : Result<OperationInput, EvalError>
  {
    match EvalBindings(step.params, value)
    case Err(e) => Err(e)
    case Ok(values) =>
      match EvalBindings(step.sets, text)
      case Err(e) => Err(e)
      case Ok(sets) =>
        match EvalBindings(step.stringSets, text)
        case Err(e) => Err(e)
        case Ok(stringSets) => Ok(OperationInput(AsMap(values), AsSets(sets), AsSets(stringSets)))
  }

  // ----- the run

  datatype Status = StatusOk | StatusSkipped | StatusFailed | StatusPaused

  datatype StepResult = StepResult(id: string, status: Status)

  datatype Failure = EvalFailure(e: EvalError) | OperationFailure

  datatype Outcome = Running | Failed(stepId: string, failure: Failure) | Paused(data: Json)

  datatype Run = Run(state: State, results: seq<StepResult>, outcome: Outcome)

  function Start(inputs: map<string, Json>): Run {
    Run(State(inputs, map[], {}), [], Running)
  }

  function ConditionEval(state: State, render: Render): Evaluator<string> {
    expr => EvalString(expr, state, InCondition, render)
  }

  function TextEval(state: State, render: Render): Evaluator<string> {
    expr => EvalString(expr, state, Strict, render)
  }

  function ValueEval(state: State, render: Render): Evaluator<Evaluated> {
    expr => EvalValue(expr, state, Strict, render)
  }

  datatype Verdict = Skip | Fail(failure: Failure) | Execute(input: OperationInput)

  /** What a step does in a state, before its operation is called. */
  function Decide(step: Step, state: State, render: Render): Verdict {
    match EvalConditions(step.when, ConditionEval(state, render))
    case Err(e) => if e.StepSkipped? then Skip else Fail(EvalFailure(e))
    case Ok(run) =>
      if !run then Skip
      else
        match InputOf(step, ValueEval(state, render), TextEval(state, render))
        case Err(e) => if e.StepSkipped? then Skip else Fail(EvalFailure(e))
        case Ok(input) => Execute(input)
  }

  function Record(run: Run, id: string, status: Status, state: State, outcome: Outcome): Run {
    Run(state, run.results + [StepResult(id, status)], outcome)
  }

  /** The loop body: `verdict` is the step's verdict, `done` what its operation would return. */
  function Advance(run: Run, id: string, verdict: Verdict, done: OpOutcome): Run {
    match verdict
    case Skip => Record(run, id, StatusSkipped, run.state.(skipped := run.state.skipped + {id}), Running)
    case Fail(failure) => Record(run, id, StatusFailed, run.state, Failed(id, failure))
    case Execute(_) =>
      match done
      case OpFailed => Record(run, id, StatusFailed, run.state, Failed(id, OperationFailure))
      case OpDone(data, paused) =>
        var state := run.state.(steps := run.state.steps[id := data]);
        if paused then Record(run, id, StatusPaused, state, Paused(data))
        else Record(run, id, StatusOk, state, Running)
  }

  function ExecStep(run: Run, step: Step, ops: Operations, render: Render): Run {
    var verdict := Decide(step, run.state, render);
    Advance(run, step.id, verdict, if verdict.Execute? then ops(|run.results|, verdict.input) else OpFailed)
  }

  type Exec = (Run, Step) -> Run

  function StepExec(ops: Operations, render: Render): Exec {
    (run, step) => ExecStep(run, step, ops, render)
  }

  /** Steps in declaration order until one of them ends the run. */
  function ExecFrom(run: Run, steps: seq<Step>, exec: Exec): Run
    decreases |steps|
  {
    if steps == [] || !run.outcome.Running? then run else ExecFrom(exec(run, steps[0]), steps[1..], exec)
  }

  /** The value formatted at the end: a step summary, the data of a paused step, or output.from. */
  datatype Output = Summary | Data(value: Evaluated) | OutputError(e: EvalError) | NoOutput

  function OutputOf(workflow: Workflow, run: Run, render: Render): Output {
    match run.outcome
    case Failed(_, _) => NoOutput
    case Paused(data) => Data(JsonValue(data))
    case Running =>
      if TrimSpace(workflow.outputFrom) == "" then Summary
      else
        match EvalValue(workflow.outputFrom, run.state, InOutput, render)
        case Ok(value) => Data(value)
        case Err(e) => if e.StepSkipped? then Summary else OutputError(e)
  }

  function RunOf(workflow: Workflow, inputs: map<string, Json>, ops: Operations, render: Render): Run {
    ExecFrom(Start(inputs), workflow.steps, StepExec(ops, render))
  }

  method ExecuteWorkflow(workflow: Workflow, inputs: map<string, Json>, ops: Operations, render: Render)
      returns (run: Run, output: Output)
    ensures run == RunOf(workflow, inputs, ops, render)
    ensures output == OutputOf(workflow, run, render)
  {
    run := Start(inputs);
    var steps, exec := workflow.steps, StepExec(ops, render);
    for i := 0 to |steps|
      invariant run.outcome.Running?
      invariant ExecFrom(run, steps[i..], exec) == RunOf(workflow, inputs, ops, render)
    {
      assert steps[i..][0] == steps[i] && steps[i..][1..] == steps[i + 1..];
      run := exec(run, steps[i]);
      if !run.outcome.Running? {
        return run, OutputOf(workflow, run, render);
      }
    }
    return run, OutputOf(workflow, run, render);
  }
}
