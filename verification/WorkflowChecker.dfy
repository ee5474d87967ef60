/** Workflow declarations and their static reference checker
    (pkg/config/workflow.go, internal/lathecmd/workflow.go). */
module WorkflowChecker {
  import opened Wrappers
  import opened Text

  datatype Condition = Condition(value: string, operator: string, values: seq<string>)

  datatype Binding = Binding(name: string, expr: string)

  /** `params`, `sets` and `stringSets` list Go maps in the order of one iteration over them. */
  datatype Step = Step(
    id: string,
    uses: string,
    when: seq<Condition>,
    params: seq<Binding>,
    sets: seq<Binding>,
    stringSets: seq<Binding>)

  datatype Workflow = Workflow(steps: seq<Step>, outputFrom: string)

  // ----- references in an expression

  /** The head of an expression: literal text, then an unclosed or a complete `${...}`. */
  datatype Scan =
    | Plain(literal: string)
    | Unclosed(literal: string, after: string)
    | Reference(literal: string, ref: string, rest: string)

  function ScanExpr(expr: string): (scan: Scan)
    ensures scan.Reference? ==> |scan.rest| < |expr|
  {
    var head := Cut(expr, "${");
    if !head.found then Plain(head.before)
    else
      var tail := Cut(head.after, "}");
      if tail.found then Reference(head.before, TrimSpace(tail.before), tail.after)
      else Unclosed(head.before, head.after)
  }

  /** A scanned expression. */
  datatype Template =
    | End(literal: string)
    | OpenEnd(literal: string, after: string)
    | Part(literal: string, ref: string, tail: Template)

  function Parse(expr: string): Template
    decreases |expr|
  {
    match ScanExpr(expr)
    case Plain(literal) => End(literal)
    case Unclosed(literal, after) => OpenEnd(literal, after)
    case Reference(literal, ref, rest) => Part(literal, ref, Parse(rest))
  }

  /** The references of a template, up to an unterminated one. */
  function RefsOf(t: Template): seq<string> {
    if t.Part? then [t.ref] + RefsOf(t.tail) else []
  }

  predicate Closed(t: Template) {
    match t
    case End(_) => true
    case OpenEnd(_, _) => false
    case Part(_, _, tail) => Closed(tail)
  }

  function Reads(expr: string): seq<string> {
    RefsOf(Parse(expr))
  }

  predicate Terminated(expr: string) {
    Closed(Parse(expr))
  }

  /** One round of the loop in workflowRefs, by index arithmetic. */
  method NextRef(rest: string) returns (scan: Scan)
    ensures scan == ScanExpr(rest)
  {
    var start := Index(rest, "${");
    if start < 0 {
      return Plain(rest);
    }
    var after := rest[start + 2..];
    var end := Index(after, "}");
    if end < 0 {
      return Unclosed(rest[..start], after);
    }
    return Reference(rest[..start], TrimSpace(after[..end]), after[end + 1..]);
  }

  method WorkflowRefs(expr: string) returns (refs: Option<seq<string>>)
    ensures refs == if Terminated(expr) then Some(Reads(expr)) else None
  {
    var found: seq<string>, rest := [], expr;
    while true
      invariant Closed(Parse(rest)) == Closed(Parse(expr))
      invariant found + RefsOf(Parse(rest)) == RefsOf(Parse(expr))
      decreases |rest|
    {
      var scan := NextRef(rest);
      match scan
      case Plain(_) =>
        assert found + [] == found;
        return Some(found);
      case Unclosed(_, _) =>
        return None;
      case Reference(_, ref, after) =>
        found := found + [ref];
        rest := after;
    }
  }

  /** What a reference addresses: its prefix decides, and a step path starts after the first dot. */
  datatype Target = Input(name: string) | StepOutput(id: string, path: string) | NoTarget

  function TargetOf(ref: string): Target {
    if "input." <= ref then Input(ref[6..])
    else if "steps." <= ref then
      var cut := Cut(ref[6..], ".");
      StepOutput(cut.before, cut.after)
    else NoTarget
  }

  datatype RefError =
    | UnterminatedRef
    | UnknownInputName(name: string)
    | UnknownOrForwardStep(id: string)
    | UnknownRef(ref: string)

  function RefProblem(ref: string, inputs: set<string>, steps: set<string>): Option<RefError> {
    match TargetOf(ref)
    case Input(name) => if name in inputs then None else Some(UnknownInputName(name))
    case StepOutput(id, _) => if id in steps then None else Some(UnknownOrForwardStep(id))
    case NoTarget => Some(UnknownRef(ref))
  }

  type Check = string -> Option<RefError>

  function CheckAgainst(inputs: set<string>, steps: set<string>): Check {
    ref => RefProblem(ref, inputs, steps)
  }

  predicate AllPass(refs: seq<string>, check: Check) {
    forall i :: 0 <= i < |refs| ==> check(refs[i]).None?
  }

  predicate RefsAccepted(expr: string, inputs: set<string>, steps: set<string>) {
    Terminated(expr) && AllPass(Reads(expr), CheckAgainst(inputs, steps))
  }

  method FirstProblem(refs: seq<string>, check: Check) returns (problem: Option<RefError>)
    ensures problem.None? <==> AllPass(refs, check)
    ensures problem.Some? ==> exists i :: 0 <= i < |refs| && problem == check(refs[i]) && AllPass(refs[..i], check)
  {
    for i := 0 to |refs|
      invariant AllPass(refs[..i], check)
    {
      problem := check(refs[i]);
      if problem.Some? {
        return;
      }
    }
    assert refs[..|refs|] == refs;
    return None;
  }

  method ValidateWorkflowRefs(expr: string, inputs: set<string>, steps: set<string>) returns (problem: Option<RefError>)
    ensures problem.None? <==> RefsAccepted(expr, inputs, steps)
  {
    var refs := WorkflowRefs(expr);
    if refs.None? {
      return Some(UnterminatedRef);
    }
    problem := FirstProblem(refs.value, CheckAgainst(inputs, steps));
  }

  // ----- steps and workflows

  function Exprs(bindings: seq<Binding>): (exprs: seq<string>)
    ensures |exprs| == |bindings|
    ensures forall i :: 0 <= i < |bindings| ==> exprs[i] == bindings[i].expr
  {
    seq(|bindings|, i requires 0 <= i < |bindings| => bindings[i].expr)
  }

  function ConditionExprs(conditions: seq<Condition>): (exprs: seq<string>)
    ensures |exprs| == |conditions|
    ensures forall i :: 0 <= i < |conditions| ==> exprs[i] == conditions[i].value
  {
    seq(|conditions|, i requires 0 <= i < |conditions| => conditions[i].value)
  }

  predicate AllAccepted(exprs: seq<string>, inputs: set<string>, steps: set<string>) {
    forall i :: 0 <= i < |exprs| ==> RefsAccepted(exprs[i], inputs, steps)
  }

  predicate StepAccepted(step: Step, inputs: set<string>, steps: set<string>) {
    && AllAccepted(ConditionExprs(step.when), inputs, steps)
    && AllAccepted(Exprs(step.params), inputs, steps)
    && AllAccepted(Exprs(step.sets), inputs, steps)
    && AllAccepted(Exprs(step.stringSets), inputs, steps)
  }

  method ValidateAll(exprs: seq<string>, inputs: set<string>, steps: set<string>) returns (ok: bool)
    ensures ok <==> AllAccepted(exprs, inputs, steps)
  {
    for i := 0 to |exprs|
      invariant forall j :: 0 <= j < i ==> RefsAccepted(exprs[j], inputs, steps)
    {
      var problem := ValidateWorkflowRefs(exprs[i], inputs, steps);
      if problem.Some? {
        return false;
      }
    }
    return true;
  }

  method ValidateWorkflowStepRefs(step: Step, inputs: set<string>, steps: set<string>) returns (ok: bool)
    ensures ok <==> StepAccepted(step, inputs, steps)
  {
    ok := ValidateAll(ConditionExprs(step.when), inputs, steps);
    if ok {
      ok := ValidateAll(Exprs(step.params), inputs, steps);
    }
    if ok {
      ok := ValidateAll(Exprs(step.sets), inputs, steps);
    }
    if ok {
      ok := ValidateAll(Exprs(step.stringSets), inputs, steps);
    }
  }

  function Ids(steps: seq<Step>): set<string> {
    set i | 0 <= i < |steps| :: steps[i].id
  }

  /** Every reference names an input or an earlier step. */
  predicate Accepted(workflow: Workflow, inputs: set<string>) {
    && (forall i :: 0 <= i < |workflow.steps| ==> StepAccepted(workflow.steps[i], inputs, Ids(workflow.steps[..i])))
    && RefsAccepted(workflow.outputFrom, inputs, Ids(workflow.steps))
  }

  lemma IdsSnoc(steps: seq<Step>, i: nat)
    requires i < |steps|
    ensures Ids(steps[..i + 1]) == Ids(steps[..i]) + {steps[i].id}
  {
    var more, less := steps[..i + 1], steps[..i];
    assert more == less + [steps[i]];
    forall id | id in Ids(less) + {steps[i].id} ensures id in Ids(more) {
      if id in Ids(less) {
        var j :| 0 <= j < |less| && less[j].id == id;
        assert more[j].id == id;
      } else {
        assert more[i].id == id;
      }
    }
  }

  // ----- normalizeWorkflow: the step loop

  /** strings.ToLower is a parameter of the model. */
  type Lowering = string -> string

  function NormalizedCondition(c: Condition, lower: Lowering): Condition {
    c.(operator := lower(TrimSpace(c.operator)))
  }

  predicate ValidCondition(c: Condition) {
    TrimSpace(c.value) != "" && c.operator in ["in", "notin"] && c.values != []
  }

  function NormalizedStep(step: Step, lower: Lowering): (s: Step)
    ensures s.params == step.params && s.sets == step.sets && s.stringSets == step.stringSets
  {
    step.(
      id := TrimSpace(step.id),
      uses := TrimSpace(step.uses),
      when := seq(|step.when|, i requires 0 <= i < |step.when| => NormalizedCondition(step.when[i], lower)))
  }

  predicate ValidId(id: string) {
    id != "" && !Contains(id, ".")
  }

  predicate ValidStep(step: Step) {
    && ValidId(step.id) && step.uses != ""
    && forall i :: 0 <= i < |step.when| ==> ValidCondition(step.when[i])
  }

  predicate DistinctIds(steps: seq<Step>) {
    forall i, j :: 0 <= i < j < |steps| ==> steps[i].id != steps[j].id
  }

  function Rewritten(steps: seq<Step>, rewrite: Step -> Step): (after: seq<Step>)
    ensures |after| == |steps|
    ensures forall i :: 0 <= i < |steps| ==> after[i] == rewrite(steps[i])
  {
    seq(|steps|, i requires 0 <= i < |steps| => rewrite(steps[i]))
  }

  function NormalizedSteps(steps: seq<Step>, lower: Lowering): (normal: seq<Step>)
    ensures |normal| == |steps|
  {
    Rewritten(steps, (step: Step) => NormalizedStep(step, lower))
  }

  predicate AllValid(steps: seq<Step>, valid: Step -> bool) {
    forall i :: 0 <= i < |steps| ==> valid(steps[i])
  }

  /** What normalizeWorkflow demands of the steps of a command, after trimming. */
  predicate Normalizable(steps: seq<Step>, lower: Lowering) {
    steps != [] && DistinctIds(NormalizedSteps(steps, lower)) && AllValid(NormalizedSteps(steps, lower), ValidStep)
  }

  /** A condition has a value, one of two operators in any case, and something to compare with. */
  predicate DeclaredCondition(c: Condition, lower: Lowering) {
    && (exists i :: 0 <= i < |c.value| && !IsSpace(c.value[i]))
    && (lower(TrimSpace(c.operator)) == "in" || lower(TrimSpace(c.operator)) == "notin")
    && |c.values| > 0
  }

  /** Between blanks, a step has an id without dots and an operation. */
  predicate DeclaredStep(step: Step, lower: Lowering) {
    && |TrimSpace(step.id)| > 0 && '.' !in TrimSpace(step.id)
    && |TrimSpace(step.uses)| > 0
    && forall k :: 0 <= k < |step.when| ==> DeclaredCondition(step.when[k], lower)
  }

  predicate WellDeclared(steps: seq<Step>, lower: Lowering) {
    && |steps| > 0
    && (forall i :: 0 <= i < |steps| ==> DeclaredStep(steps[i], lower))
    && forall i, j :: 0 <= i < j < |steps| ==> TrimSpace(steps[i].id) != TrimSpace(steps[j].id)
  }

  /** What normalising makes of a step: names without outer blanks, operators in lower case, all else as it was. */
  predicate Normalized(before: Step, after: Step, lower: Lowering) {
    && after.id == TrimSpace(before.id) && after.uses == TrimSpace(before.uses)
    && after.params == before.params && after.sets == before.sets && after.stringSets == before.stringSets
    && |after.when| == |before.when|
    && forall k :: 0 <= k < |before.when| ==>
         && after.when[k].operator == lower(TrimSpace(before.when[k].operator))
         && after.when[k].value == before.when[k].value && after.when[k].values == before.when[k].values
  }

  lemma ConditionDeclared(c: Condition, lower: Lowering)
    ensures ValidCondition(NormalizedCondition(c, lower)) <==> DeclaredCondition(c, lower)
  {
    BlankIsEmpty(c.value);
  }

  lemma StepDeclared(step: Step, lower: Lowering)
    ensures ValidStep(NormalizedStep(step, lower)) <==> DeclaredStep(step, lower)
    ensures Normalized(step, NormalizedStep(step, lower), lower)
  {
    var after := NormalizedStep(step, lower);
    if '.' in after.id {
      var i :| 0 <= i < |after.id| && after.id[i] == '.';
      CharOccurs(after.id, i);
    } else {
      AbsentChar(after.id, '.', ".");
    }
    forall k | 0 <= k < |step.when|
      ensures ValidCondition(after.when[k]) <==> DeclaredCondition(step.when[k], lower)
    {
      ConditionDeclared(step.when[k], lower);
    }
  }

  lemma StepsDeclared(steps: seq<Step>, lower: Lowering)
    ensures Normalizable(steps, lower) <==> WellDeclared(steps, lower)
    ensures forall i :: 0 <= i < |steps| ==> Normalized(steps[i], NormalizedSteps(steps, lower)[i], lower)
  {
    var after := NormalizedSteps(steps, lower);
    forall i | 0 <= i < |steps|
      ensures ValidStep(after[i]) <==> DeclaredStep(steps[i], lower)
      ensures Normalized(steps[i], after[i], lower)
    {
      StepDeclared(steps[i], lower);
    }
  }

  /** The loop over declared steps: rewrites each through its pointer, then checks it and its id. */
  method RewriteSteps(steps: array<Step>, rewrite: Step -> Step, valid: Step -> bool) returns (ok: bool)
    modifies steps
    ensures var after := Rewritten(old(steps[..]), rewrite);
            ok <==> DistinctIds(after) && AllValid(after, valid)
    ensures ok ==> steps[..] == Rewritten(old(steps[..]), rewrite)
  {
    ghost var after := Rewritten(steps[..], rewrite);
    var ids: set<string> := {};
    for i := 0 to steps.Length
      invariant forall j :: 0 <= j < i ==> steps[j] == after[j]
      invariant forall j :: i <= j < steps.Length ==> steps[j] == old(steps[j])
      invariant AllValid(after[..i], valid) && DistinctIds(after[..i])
      invariant forall id :: id in ids <==> exists j :: 0 <= j < i && after[j].id == id
    {
      steps[i] := rewrite(steps[i]);
      assert steps[i] == after[i] && after[..i + 1] == after[..i] + [after[i]];
      if steps[i].id in ids || !valid(steps[i]) {
        return false;
      }
      ids := ids + {steps[i].id};
    }
    assert after[..steps.Length] == after;
    return true;
  }

  method NormalizeSteps(steps: array<Step>, lower: Lowering) returns (ok: bool)
    modifies steps
    ensures ok <==> WellDeclared(old(steps[..]), lower)
    ensures ok ==> forall i :: 0 <= i < steps.Length ==> Normalized(old(steps[i]), steps[i], lower)
  {
    StepsDeclared(steps[..], lower);
    if steps.Length == 0 {
      return false;
    }
    ok := RewriteSteps(steps, (step: Step) => NormalizedStep(step, lower), ValidStep);
  }
}
