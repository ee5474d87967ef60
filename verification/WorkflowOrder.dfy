/** The parameters of a step are a Go map, visited in any order: when the order decides what a step does. */
module WorkflowOrder {
  import opened Wrappers
  import opened Text
  import opened WorkflowChecker
  import opened WorkflowExpressions
  import opened WorkflowRuns

  predicate Skips<T>(r: Result<T, EvalError>) {
    r.Err? && r.error.StepSkipped?
  }

  predicate Breaks<T>(r: Result<T, EvalError>) {
    r.Err? && !r.error.StepSkipped?
  }

  /** Both succeed, both meet a skipped step or both fail otherwise. */
  predicate SameKind<T>(a: Result<T, EvalError>, b: Result<T, EvalError>) {
    Skips(a) == Skips(b) && Breaks(a) == Breaks(b)
  }

  predicate SomeSkips<T>(bindings: seq<Binding>, eval: Evaluator<T>) {
    exists b :: b in bindings && Skips(eval(b.expr))
  }

  predicate SomeBreaks<T>(bindings: seq<Binding>, eval: Evaluator<T>) {
    exists b :: b in bindings && Breaks(eval(b.expr))
  }

  predicate Reordered(a: seq<Binding>, b: seq<Binding>) {
    multiset(a) == multiset(b)
  }

  lemma ReorderedMembers(a: seq<Binding>, b: seq<Binding>)
    requires Reordered(a, b)
    ensures forall x :: x in a <==> x in b
  {
    forall x ensures x in a <==> x in b {
      assert x in a <==> x in multiset(a);
      assert x in b <==> x in multiset(b);
    }
  }

  /** The error reported is one of the bindings' own. */
  lemma {:induction false} BindingsKind<T>(bindings: seq<Binding>, eval: Evaluator<T>)
    ensures Skips(EvalBindings(bindings, eval)) ==> SomeSkips(bindings, eval)
    ensures Breaks(EvalBindings(bindings, eval)) ==> SomeBreaks(bindings, eval)
    ensures EvalBindings(bindings, eval).Ok? ==> !SomeSkips(bindings, eval) && !SomeBreaks(bindings, eval)
  {
    if bindings == [] {
    } else {
      BindingsKind(bindings[1..], eval);
      assert bindings[0] in bindings;
      assert forall b :: b in bindings <==> b == bindings[0] || b in bindings[1..];
    }
  }

  /** Any binding can come first. */
  lemma BroughtForward(bindings: seq<Binding>, b: Binding) returns (other: seq<Binding>)
    requires b in bindings
    ensures Reordered(other, bindings) && other != [] && other[0] == b
  {
    var i :| 0 <= i < |bindings| && bindings[i] == b;
    other := [b] + (bindings[..i] + bindings[i + 1..]);
    assert bindings == bindings[..i] + [b] + bindings[i + 1..];
  }

  ghost predicate SameInAnyOrder<T>(bindings: seq<Binding>, eval: Evaluator<T>) {
    forall other :: Reordered(other, bindings) ==> SameKind(EvalBindings(other, eval), EvalBindings(bindings, eval))
  }

  /** All orders give the same kind of outcome exactly when the bindings do not hold both an expression
      that reads a skipped step and one that fails otherwise. */
  lemma OrderIrrelevantIff<T>(bindings: seq<Binding>, eval: Evaluator<T>)
    ensures SameInAnyOrder(bindings, eval) <==> !(SomeSkips(bindings, eval) && SomeBreaks(bindings, eval))
  {
    if SomeSkips(bindings, eval) && SomeBreaks(bindings, eval) {
      OrderMatters(bindings, eval);
    } else {
      forall other | Reordered(other, bindings)
        ensures SameKind(EvalBindings(other, eval), EvalBindings(bindings, eval))
      {
        ReorderedMembers(other, bindings);
        BindingsKind(other, eval);
        BindingsKind(bindings, eval);
      }
    }
  }

  lemma OrderMatters<T>(bindings: seq<Binding>, eval: Evaluator<T>)
    requires SomeSkips(bindings, eval) && SomeBreaks(bindings, eval)
    ensures exists a, b :: Reordered(a, bindings) && Reordered(b, bindings)
                        && Skips(EvalBindings(a, eval)) && Breaks(EvalBindings(b, eval))
    ensures !SameInAnyOrder(bindings, eval)
  {
    var s :| s in bindings && Skips(eval(s.expr));
    var f :| f in bindings && Breaks(eval(f.expr));
    var skipFirst := BroughtForward(bindings, s);
    var failFirst := BroughtForward(bindings, f);
    assert Skips(EvalBindings(skipFirst, eval)) && Breaks(EvalBindings(failFirst, eval));
  }

  // ----- the map of parameter values does not depend on the order

  /** The keys of a Go map. */
  predicate DistinctNames(bindings: seq<Binding>) {
    forall i, j :: 0 <= i < j < |bindings| ==> bindings[i].name != bindings[j].name
  }

  /** The value of each name. */
  ghost predicate Holds<T>(m: map<string, T>, bindings: seq<Binding>, eval: Evaluator<T>) {
    && (forall b :: b in bindings ==> b.name in m && eval(b.expr) == Ok(m[b.name]))
    && (forall name :: name in m ==> exists b :: b in bindings && b.name == name)
  }

  lemma {:induction false} ValuesInOrder<T>(bindings: seq<Binding>, eval: Evaluator<T>)
    requires EvalBindings(bindings, eval).Ok?
    ensures var pairs := EvalBindings(bindings, eval).value;
            |pairs| == |bindings|
            && forall i :: 0 <= i < |pairs| ==>
              pairs[i].0 == bindings[i].name && eval(bindings[i].expr) == Ok(pairs[i].1)
  {
    if bindings == [] {
    } else {
      ValuesInOrder(bindings[1..], eval);
    }
  }

  lemma {:induction false} AsMapHolds<T>(pairs: seq<(string, T)>)
    requires forall i, j :: 0 <= i < j < |pairs| ==> pairs[i].0 != pairs[j].0
    ensures forall i :: 0 <= i < |pairs| ==> pairs[i].0 in AsMap(pairs) && AsMap(pairs)[pairs[i].0] == pairs[i].1
    ensures forall name :: name in AsMap(pairs) ==> exists i :: 0 <= i < |pairs| && pairs[i].0 == name
  {
    if pairs == [] {
    } else {
      var init := pairs[..|pairs| - 1];
      AsMapHolds(init);
      assert forall i :: 0 <= i < |init| ==> init[i] == pairs[i];
    }
  }

  lemma ValuesHold<T>(bindings: seq<Binding>, eval: Evaluator<T>)
    requires DistinctNames(bindings) && EvalBindings(bindings, eval).Ok?
    ensures Holds(AsMap(EvalBindings(bindings, eval).value), bindings, eval)
  {
    ValuesInOrder(bindings, eval);
    var pairs := EvalBindings(bindings, eval).value;
    AsMapHolds(pairs);
    forall name | name in AsMap(pairs) ensures exists b :: b in bindings && b.name == name {
      var i :| 0 <= i < |pairs| && pairs[i].0 == name;
      assert bindings[i] in bindings;
    }
  }

  lemma ReorderedNames(a: seq<Binding>, b: seq<Binding>)
    requires Reordered(a, b) && DistinctNames(b)
    ensures DistinctNames(a)
  {
    forall i, j | 0 <= i < j < |a| ensures a[i].name != a[j].name {
      if a[i].name == a[j].name {
        ReorderedMembers(a, b);
        assert a[i] in a && a[j] in a;
        var k :| 0 <= k < |b| && b[k] == a[i];
        var l :| 0 <= l < |b| && b[l] == a[j];
        assert k == l;
        assert a[i] == a[j];
        TwiceCounted(a, i, j);
        OnceCounted(b, k);
      }
    }
  }

  lemma TwiceCounted(a: seq<Binding>, i: nat, j: nat)
    requires i < j < |a| && a[i] == a[j]
    ensures multiset(a)[a[i]] >= 2
  {
    assert a == a[..i] + [a[i]] + a[i + 1..j] + [a[j]] + a[j + 1..];
  }

  lemma OnceCounted(b: seq<Binding>, k: nat)
    requires k < |b| && DistinctNames(b)
    ensures multiset(b)[b[k]] == 1
  {
    var before, after := b[..k], b[k + 1..];
    assert b == before + [b[k]] + after;
    assert b[k] !in before && b[k] !in after;
    assert multiset(before)[b[k]] == 0 && multiset(after)[b[k]] == 0;
  }

  lemma SameValues<T>(a: seq<Binding>, b: seq<Binding>, eval: Evaluator<T>)
    requires Reordered(a, b) && DistinctNames(b) && EvalBindings(a, eval).Ok? && EvalBindings(b, eval).Ok?
    ensures AsMap(EvalBindings(a, eval).value) == AsMap(EvalBindings(b, eval).value)
  {
    ReorderedNames(a, b);
    ReorderedMembers(a, b);
    ValuesHold(a, eval);
    ValuesHold(b, eval);
    var m, n := AsMap(EvalBindings(a, eval).value), AsMap(EvalBindings(b, eval).value);
    assert m.Keys == n.Keys;
  }

  // ----- what the step does

  /** The same step, its parameters visited in another order. */
  function Visiting(step: Step, params: seq<Binding>): Step {
    step.(params := params)
  }

  /** Both skip, both fail or both execute on the same input. */
  predicate SameVerdict(a: Verdict, b: Verdict) {
    if a.Fail? then b.Fail? else a == b
  }

  ghost predicate VerdictFixed(step: Step, state: State, render: Render) {
    forall params :: Reordered(params, step.params) ==>
      SameVerdict(Decide(Visiting(step, params), state, render), Decide(step, state, render))
  }

  /** The step gets as far as its parameters, and these hold both kinds of failure. */
  predicate OrderDecides(step: Step, state: State, render: Render) {
    && EvalConditions(step.when, ConditionEval(state, render)) == Ok(true)
    && SomeSkips(step.params, ValueEval(state, render))
    && SomeBreaks(step.params, ValueEval(state, render))
  }

  lemma SameInput(step: Step, params: seq<Binding>, value: Evaluator<Evaluated>, text: Evaluator<string>)
    requires Reordered(params, step.params) && DistinctNames(step.params)
    requires SameKind(EvalBindings(params, value), EvalBindings(step.params, value))
    ensures var a, b := InputOf(Visiting(step, params), value, text), InputOf(step, value, text);
            SameKind(a, b) && (a.Ok? ==> a == b)
  {
    if EvalBindings(params, value).Ok? {
      SameValues(params, step.params, value);
    }
  }

  lemma OrdersDiffer(step: Step, state: State, render: Render)
    requires OrderDecides(step, state, render)
    ensures exists a, b :: Reordered(a, step.params) && Reordered(b, step.params)
                        && Decide(Visiting(step, a), state, render) == Skip
                        && Decide(Visiting(step, b), state, render).Fail?
  {
    var value := ValueEval(state, render);
    OrderMatters(step.params, value);
    var a, b :| Reordered(a, step.params) && Reordered(b, step.params)
             && Skips(EvalBindings(a, value)) && Breaks(EvalBindings(b, value));
    ParamsDecide(step, a, state, render);
    ParamsDecide(step, b, state, render);
  }

  lemma ParamsDecide(step: Step, params: seq<Binding>, state: State, render: Render)
    requires EvalConditions(step.when, ConditionEval(state, render)) == Ok(true)
    ensures var values := EvalBindings(params, ValueEval(state, render));
            && (Skips(values) ==> Decide(Visiting(step, params), state, render) == Skip)
            && (Breaks(values) ==> Decide(Visiting(step, params), state, render).Fail?)
  {
  }

  lemma OrdersAgree(step: Step, params: seq<Binding>, state: State, render: Render)
    requires DistinctNames(step.params) && Reordered(params, step.params) && !OrderDecides(step, state, render)
    ensures SameVerdict(Decide(Visiting(step, params), state, render), Decide(step, state, render))
  {
    if EvalConditions(step.when, ConditionEval(state, render)) == Ok(true) {
      OrderIrrelevantIff(step.params, ValueEval(state, render));
      SameInput(step, params, ValueEval(state, render), TextEval(state, render));
    }
  }

  /** The map order of the parameters decides whether a step is skipped or fails exactly when the step's
      conditions match and its parameters hold both one that reads a skipped step and one that fails
      otherwise; in every other case all orders skip, all fail, or all execute on the same input. */
  lemma ParameterOrderDecides(step: Step, state: State, render: Render)
    requires DistinctNames(step.params)
    ensures VerdictFixed(step, state, render) <==> !OrderDecides(step, state, render)
  {
    if OrderDecides(step, state, render) {
      OrdersDiffer(step, state, render);
    } else {
      forall params | Reordered(params, step.params)
        ensures SameVerdict(Decide(Visiting(step, params), state, render), Decide(step, state, render))
      {
        OrdersAgree(step, params, state, render);
      }
    }
  }

  // ----- an accepted workflow whose outcome depends on the order

  /** A reference that reads the same up to the first and up to the last brace. */
  predicate PlainRef(ref: string) {
    ref != "" && '$' !in ref && '}' !in ref && !IsSpace(ref[0]) && !IsSpace(ref[|ref| - 1])
  }

  function Braced(ref: string): string {
    "${" + ref + "}"
  }

  lemma BracedRefRead(ref: string)
    requires PlainRef(ref)
    ensures Parse(Braced(ref)) == Part("", ref, End(""))
  {
    var expr := Braced(ref);
    IndexUnique(expr, "${", 0);
    TrimSpaceNoop(ref);
    assert expr[2..] == ref + ['}'] + "";
    CutChar(ref, '}', "");
    LiteralScan("");
    assert ScanExpr(expr) == Reference("", ref, "");
  }

  lemma BracedRefWhole(ref: string)
    requires PlainRef(ref)
    ensures WholeReference(Braced(ref)) == Some(ref)
  {
    var expr := Braced(ref);
    IndexUnique(expr, "${", 0);
    TrimSpaceNoop(expr);
    TrimSpaceNoop(ref);
    assert expr[2..|expr| - 1] == ref;
    AbsentChar(expr[2..], '$', "${");
    assert Count(expr[2..], "${") == 0;
  }

  lemma BracedRefAccepted(ref: string, inputs: set<string>, steps: set<string>)
    requires PlainRef(ref) && TargetKnown(ref, steps) && (TargetOf(ref).Input? ==> TargetOf(ref).name in inputs)
    ensures RefsAccepted(Braced(ref), inputs, steps)
  {
    BracedRefRead(ref);
    assert RefsOf(End("")) == [];
    assert Reads(Braced(ref)) == [ref];
  }

  lemma BracedRefValue(ref: string, state: State, render: Render)
    requires PlainRef(ref) && RefValue(ref, state).Err?
    ensures ValueEval(state, render)(Braced(ref)) == Err(RefValue(ref, state).error)
  {
    BracedRefWhole(ref);
  }

  /** The first parameter decides, when it fails. */
  lemma FirstParamFails(step: Step, state: State, render: Render, e: EvalError)
    requires step.when == [] && step.params != [] && ValueEval(state, render)(step.params[0].expr) == Err(e)
    ensures Decide(step, state, render) == if e.StepSkipped? then Skip else Fail(EvalFailure(e))
  {
  }

  /** A step whose condition never matches, and a second step with the given parameters. */
  function Never(): Step {
    Step("a", "first", [Condition("x", "in", [])], [], [], [])
  }

  function Second(params: seq<Binding>): Step {
    Step("b", "second", [], params, [], [])
  }

  function TwoSteps(params: seq<Binding>): Workflow {
    Workflow([Never(), Second(params)], "")
  }

  const NOTHING_SET := State(map[], map[], {})
  const FIRST_SKIPPED := State(map[], map[], {"a"})

  lemma NeverSkips(text: string, render: Render)
    requires text == "x"
    ensures Decide(Never(), NOTHING_SET, render) == Skip
  {
    LiteralScan(text);
    var eval := ConditionEval(NOTHING_SET, render);
    assert eval(text) == Ok(text);
    assert EvalConditions(Never().when, eval) == Ok(false);
  }

  lemma AcceptedTwoSteps(params: seq<Binding>, text: string)
    requires AllAccepted(Exprs(params), {"n"}, {"a"}) && text == "x"
    ensures DistinctIds(TwoSteps(params).steps) && Accepted(TwoSteps(params), {"n"})
  {
    var steps := TwoSteps(params).steps;
    LiteralScan(text);
    LiteralScan(text[..0]);
    assert RefsAccepted(text, {"n"}, {}) && RefsAccepted(text[..0], {"n"}, Ids(steps));
    assert steps[..0] == [] && steps[..1] == [Never()];
    assert Ids(steps[..0]) == {} && Ids(steps[..1]) == {"a"} by {
      assert steps[..1][0].id == "a";
    }
    assert StepAccepted(Never(), {"n"}, {}) && StepAccepted(Second(params), {"n"}, {"a"});
  }

  lemma RunOfTwo(params: seq<Binding>, ops: Operations, render: Render)
    ensures RunOf(TwoSteps(params), map[], ops, render).outcome
         == match Decide(Second(params), FIRST_SKIPPED, render)
            case Skip => Running
            case Fail(failure) => Failed("b", failure)
            case Execute(_) => RunOf(TwoSteps(params), map[], ops, render).outcome
  {
    var exec, steps := StepExec(ops, render), TwoSteps(params).steps;
    NeverSkips("x", render);
    var first := exec(Start(map[]), Never());
    assert first.outcome.Running? && first.state == FIRST_SKIPPED;
    assert steps[1..] == [Second(params)] && [Second(params)][1..] == [];
    assert ExecFrom(first, steps[1..], exec) == ExecFrom(exec(first, Second(params)), [], exec);
  }

  const FROM_STEP := "steps.a"
  const FROM_INPUT := "input.n"

  function ParamP(): Binding {
    Binding("p", Braced(FROM_STEP))
  }

  function ParamQ(): Binding {
    Binding("q", Braced(FROM_INPUT))
  }

  lemma TheTargets()
    ensures PlainRef(FROM_STEP) && TargetOf(FROM_STEP) == StepOutput("a", "")
    ensures PlainRef(FROM_INPUT) && TargetOf(FROM_INPUT) == Input("n")
  {
    assert FROM_STEP == "steps." + "a" && FROM_INPUT[6..] == "n";
    BareStepTarget("a");
  }

  lemma BothAccepted(p: Binding, q: Binding)
    requires p == ParamP() && q == ParamQ()
    ensures AllAccepted(Exprs([p, q]), {"n"}, {"a"}) && AllAccepted(Exprs([q, p]), {"n"}, {"a"})
  {
    TheTargets();
    BracedRefAccepted(FROM_STEP, {"n"}, {"a"});
    BracedRefAccepted(FROM_INPUT, {"n"}, {"a"});
    TwoAccepted(p, q, {"n"}, {"a"});
    TwoAccepted(q, p, {"n"}, {"a"});
  }

  lemma TwoAccepted(a: Binding, b: Binding, inputs: set<string>, steps: set<string>)
    requires RefsAccepted(a.expr, inputs, steps) && RefsAccepted(b.expr, inputs, steps)
    ensures AllAccepted(Exprs([a, b]), inputs, steps)
  {
  }

  lemma BothFail(p: Binding, q: Binding, render: Render)
    requires p == ParamP() && q == ParamQ()
    ensures ValueEval(FIRST_SKIPPED, render)(p.expr) == Err(StepSkipped("a"))
    ensures ValueEval(FIRST_SKIPPED, render)(q.expr) == Err(UnknownInput("n"))
  {
    TheTargets();
    BracedRefValue(FROM_STEP, FIRST_SKIPPED, render);
    BracedRefValue(FROM_INPUT, FIRST_SKIPPED, render);
  }

  lemma FirstDecides(params: seq<Binding>, e: EvalError, ops: Operations, render: Render)
    requires params != [] && ValueEval(FIRST_SKIPPED, render)(params[0].expr) == Err(e)
    ensures RunOf(TwoSteps(params), map[], ops, render).outcome
         == if e.StepSkipped? then Running else Failed("b", EvalFailure(e))
  {
    FirstParamFails(Second(params), FIRST_SKIPPED, render, e);
    RunOfTwo(params, ops, render);
  }

  lemma EitherOrder(p: Binding, q: Binding, ops: Operations, render: Render)
    requires p == ParamP() && q == ParamQ()
    ensures Accepted(TwoSteps([p, q]), {"n"}) && Accepted(TwoSteps([q, p]), {"n"})
    ensures RunOf(TwoSteps([p, q]), map[], ops, render).outcome == Running
    ensures RunOf(TwoSteps([q, p]), map[], ops, render).outcome == Failed("b", EvalFailure(UnknownInput("n")))
  {
    BothAccepted(p, q);
    AcceptedTwoSteps([p, q], "x");
    AcceptedTwoSteps([q, p], "x");
    BothFail(p, q, render);
    FirstDecides([p, q], StepSkipped("a"), ops, render);
    FirstDecides([q, p], UnknownInput("n"), ops, render);
  }

  /** One accepted workflow, whatever its operations return: when the optional input n is not set, its
      second step, with the parameters p from a skipped step and q from n, is skipped when p is visited
      first and fails when q is. */
  lemma AcceptedWorkflowDependsOnOrder(ops: Operations, render: Render)
    ensures var p, q := ParamP(), ParamQ();
            && Reordered([p, q], [q, p]) && Accepted(TwoSteps([p, q]), {"n"}) && Accepted(TwoSteps([q, p]), {"n"})
            && RunOf(TwoSteps([p, q]), map[], ops, render).outcome == Running
            && RunOf(TwoSteps([q, p]), map[], ops, render).outcome == Failed("b", EvalFailure(UnknownInput("n")))
  {
    EitherOrder(ParamP(), ParamQ(), ops, render);
  }
}
