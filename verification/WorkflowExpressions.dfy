/** Evaluation of workflow expressions (pkg/runtime/workflow_expression.go). */
module WorkflowExpressions {
  import opened Wrappers
  import opened JsonValues
  import opened Text
  import opened WorkflowChecker
  import Documents

  datatype Mode = Strict | InCondition | InOutput

  datatype EvalError =
    | UnknownInput(name: string)
    | StepSkipped(id: string)
    | UnknownStep(id: string)
    | NoOutputPath(id: string, path: string)
    | UnknownReference(ref: string)
    | UnterminatedReference

  /** The failures that the static checker is there to exclude. */
  predicate GoesWrong(e: EvalError) {
    e.UnknownStep? || e.UnknownReference? || e.UnterminatedReference?
  }

  datatype State = State(inputs: map<string, Json>, steps: map<string, Json>, skipped: set<string>)

  type Value = Result<Json, EvalError>
  type Textual = Result<string, EvalError>

  /** How values print; workflowString is a parameter of the model. */
  type Render = Json -> string

  function TargetValue(target: Target, ref: string, state: State): Value {
    match target
    case Input(name) => if name in state.inputs then Ok(state.inputs[name]) else Err(UnknownInput(name))
    case StepOutput(id, path) =>
      if id in state.skipped then Err(StepSkipped(id))
      else if id !in state.steps then Err(UnknownStep(id))
      else
        (match Documents.GetPath(state.steps[id], path)
         case Some(value) => Ok(value)
         case None => Err(NoOutputPath(id, path)))
    case NoTarget => Err(UnknownReference(ref))
  }

  /** workflowRefValue. */
  function RefValue(ref: string, state: State): Value {
    TargetValue(TargetOf(ref), ref, state)
  }

  /** What a reference contributes to the text, by mode. */
  function Contribution(value: Value, mode: Mode, render: Render): Textual {
    match value
    case Ok(v) => Ok(render(v))
    case Err(e) =>
      if mode.InOutput? && e.StepSkipped? then Ok("null")
      else if mode.InCondition? && !e.StepSkipped? then Ok("")
      else Err(e)
  }

  type Pieces = string -> Textual

  function PiecesOf(state: State, mode: Mode, render: Render): Pieces {
    ref => Contribution(RefValue(ref, state), mode, render)
  }

  /** Literal text and contributions in order, or the first error. */
  function Evaluate(t: Template, pieces: Pieces, mode: Mode): Textual {
    match t
    case End(literal) => Ok(literal)
    case OpenEnd(literal, after) =>
      if mode.InCondition? then Ok(literal + "${" + after) else Err(UnterminatedReference)
    case Part(literal, ref, tail) =>
      (match pieces(ref)
       case Err(e) => Err(e)
       case Ok(text) => Prefixed(literal + text, Evaluate(tail, pieces, mode)))
  }

  function Prefixed(text: string, rest: Textual): Textual {
    match rest
    case Ok(tail) => Ok(text + tail)
    case Err(e) => Err(e)
  }

  lemma PrefixedNothing(rest: Textual)
    ensures Prefixed("", rest) == rest
  {
    if rest.Ok? {
      assert "" + rest.value == rest.value;
    }
  }

  lemma PrefixedTwice(a: string, b: string, rest: Textual)
    ensures Prefixed(a, Prefixed(b, rest)) == Prefixed(a + b, rest)
  {
    if rest.Ok? {
      assert a + (b + rest.value) == a + b + rest.value;
    }
  }

  function EvalString(expr: string, state: State, mode: Mode, render: Render): Textual {
    Evaluate(Parse(expr), PiecesOf(state, mode, render), mode)
  }

  /** The loop of evalWorkflowString: a builder over the rest of the expression. */
  method EvalWorkflowString(expr: string, pieces: Pieces, mode: Mode) returns (result: Textual)
    ensures result == Evaluate(Parse(expr), pieces, mode)
  {
    var out, rest := "", expr;
    PrefixedNothing(Evaluate(Parse(expr), pieces, mode));
    while true
      invariant Prefixed(out, Evaluate(Parse(rest), pieces, mode)) == Evaluate(Parse(expr), pieces, mode)
      decreases |rest|
    {
      var scan := NextRef(rest);
      match scan
      case Plain(literal) =>
        return Ok(out + literal);
      case Unclosed(literal, after) =>
        if mode.InCondition? {
          return Ok(out + (literal + "${" + after));
        }
        return Err(UnterminatedReference);
      case Reference(literal, ref, remaining) =>
        if pieces(ref).Err? {
          return Err(pieces(ref).error);
        }
        PrefixedTwice(out, literal + pieces(ref).value, Evaluate(Parse(remaining), pieces, mode));
        out := out + (literal + pieces(ref).value);
        rest := remaining;
    }
  }

  // ----- the evaluator visits exactly the references that the checker extracts

  predicate Contributes(refs: seq<string>, pieces: Pieces) {
    forall i :: 0 <= i < |refs| ==> pieces(refs[i]).Ok?
  }

  /** `e` is what the first reference without a contribution fails with. */
  ghost predicate FirstFailure(refs: seq<string>, pieces: Pieces, e: EvalError) {
    exists i :: 0 <= i < |refs| && pieces(refs[i]) == Err(e) && Contributes(refs[..i], pieces)
  }

  /** Evaluation succeeds exactly when every extracted reference contributes and, outside
      conditions, the last one is closed; otherwise it reports the first that does not. */
  lemma {:induction false} EvaluateVisitsRefs(t: Template, pieces: Pieces, mode: Mode)
    ensures Evaluate(t, pieces, mode).Ok? <==> Contributes(RefsOf(t), pieces) && (mode.InCondition? || Closed(t))
    ensures Evaluate(t, pieces, mode).Err? ==>
      var e := Evaluate(t, pieces, mode).error;
      if Contributes(RefsOf(t), pieces) then e == UnterminatedReference else FirstFailure(RefsOf(t), pieces, e)
  {
    if !t.Part? {
    } else {
      EvaluateVisitsRefs(t.tail, pieces, mode);
      FailureBehind(t.ref, RefsOf(t.tail), pieces);
    }
  }

  /** One reference in front: it fails first, or the failure is that of the rest. */
  lemma FailureBehind(ref: string, tail: seq<string>, pieces: Pieces)
    ensures Contributes([ref] + tail, pieces) <==> pieces(ref).Ok? && Contributes(tail, pieces)
    ensures pieces(ref).Err? ==> FirstFailure([ref] + tail, pieces, pieces(ref).error)
    ensures pieces(ref).Ok? ==> forall e :: FirstFailure(tail, pieces, e) ==> FirstFailure([ref] + tail, pieces, e)
  {
    var refs := [ref] + tail;
    assert refs[0] == ref && forall i :: 0 <= i < |tail| ==> refs[i + 1] == tail[i];
    assert Contributes(refs[..0], pieces);
    if pieces(ref).Ok? {
      forall e | FirstFailure(tail, pieces, e) ensures FirstFailure(refs, pieces, e) {
        var i :| 0 <= i < |tail| && pieces(tail[i]) == Err(e) && Contributes(tail[..i], pieces);
        assert refs[..i + 1] == [ref] + tail[..i];
        assert pieces(refs[i + 1]) == Err(e) && Contributes(refs[..i + 1], pieces);
      }
    }
  }

  // ----- evalWorkflowValue

  function Count(s: string, sub: string): nat
    requires sub != ""
    decreases |s|
  {
    var i := Index(s, sub);
    if i < 0 then 0 else 1 + Count(s[i + |sub|..], sub)
  }

  /** The reference that stands for a whole expression, everything up to the last brace. */
  function WholeReference(expr: string): Option<string> {
    var trimmed := TrimSpace(expr);
    if OccursAt(trimmed, "${", 0) && HasSuffix(trimmed, "}") && |trimmed| >= 3 && Count(trimmed, "${") == 1
    then Some(TrimSpace(trimmed[2..|trimmed| - 1]))
    else None
  }

  datatype Evaluated = JsonValue(value: Json) | TextValue(text: string)

  function EvalValue(expr: string, state: State, mode: Mode, render: Render): Result<Evaluated, EvalError> {
    match WholeReference(expr)
    case Some(ref) =>
      (match RefValue(ref, state)
       case Ok(value) => Ok(JsonValue(value))
       case Err(e) => Err(e))
    case None =>
      (match EvalString(expr, state, mode, render)
       case Ok(text) => Ok(TextValue(text))
       case Err(e) => Err(e))
  }

  // ----- accepted expressions

  /** The steps that the checker knows have all been decided: executed or skipped. */
  ghost predicate Decided(state: State, steps: set<string>) {
    state.steps.Keys + state.skipped == steps
  }

  predicate TargetKnown(ref: string, steps: set<string>) {
    match TargetOf(ref)
    case Input(_) => true
    case StepOutput(id, _) => id in steps
    case NoTarget => false
  }

  lemma RefGoesWrong(ref: string, state: State, steps: set<string>)
    requires Decided(state, steps)
    ensures (RefValue(ref, state).Err? && GoesWrong(RefValue(ref, state).error)) <==> !TargetKnown(ref, steps)
  {
  }

  lemma AcceptedTargetsKnown(expr: string, inputs: set<string>, steps: set<string>, i: nat)
    requires RefsAccepted(expr, inputs, steps) && i < |Reads(expr)|
    ensures TargetKnown(Reads(expr)[i], steps)
  {
    assert CheckAgainst(inputs, steps)(Reads(expr)[i]).None?;
  }

  /** An accepted expression evaluated as text fails only on an unset input, a missing output path
      or a skipped step; as a condition, only on a skipped step. */
  lemma AcceptedTextIsSafe(expr: string, inputs: set<string>, steps: set<string>, state: State, mode: Mode,
                           render: Render)
    requires RefsAccepted(expr, inputs, steps) && Decided(state, steps)
    ensures EvalString(expr, state, mode, render).Err? ==>
      var e := EvalString(expr, state, mode, render).error;
      !GoesWrong(e) && (mode.InCondition? ==> e.StepSkipped?)
  {
    var pieces, refs := PiecesOf(state, mode, render), Reads(expr);
    EvaluateVisitsRefs(Parse(expr), pieces, mode);
    if EvalString(expr, state, mode, render).Err? && !Contributes(refs, pieces) {
      var e := EvalString(expr, state, mode, render).error;
      var i :| 0 <= i < |refs| && pieces(refs[i]) == Err(e);
      AcceptedTargetsKnown(expr, inputs, steps, i);
      RefGoesWrong(refs[i], state, steps);
    }
  }

  /** An accepted expression evaluated as a value goes wrong exactly when it is one reference whose
      text up to the last brace names a step that the checker does not know. */
  lemma AcceptedValueGoesWrongIff(expr: string, inputs: set<string>, steps: set<string>, state: State, mode: Mode,
                                  render: Render)
    requires RefsAccepted(expr, inputs, steps) && Decided(state, steps)
    ensures (EvalValue(expr, state, mode, render).Err? && GoesWrong(EvalValue(expr, state, mode, render).error))
       <==> WholeReference(expr).Some? && !TargetKnown(WholeReference(expr).value, steps)
  {
    match WholeReference(expr)
    case Some(ref) => RefGoesWrong(ref, state, steps);
    case None => AcceptedTextIsSafe(expr, inputs, steps, state, mode, render);
  }

  /** The text between the opening and the last brace has no brace of its own. */
  predicate OneBrace(expr: string) {
    WholeReference(expr).Some? ==> '}' !in TrimSpace(expr)[2..|TrimSpace(expr)| - 1]
  }

  /** With one closing brace, the whole-expression reference is the one the checker extracted. */
  lemma OneBraceIsFirstRead(expr: string)
    requires WholeReference(expr).Some? && OneBrace(expr)
    ensures ScanExpr(expr).Reference? && ScanExpr(expr).ref == WholeReference(expr).value
  {
    var from, beyond := WholeStart(expr);
    CutChar(TrimSpace(expr)[2..|TrimSpace(expr)| - 1], '}', beyond);
  }

  /** A whole-expression reference opens after the leading blanks. */
  lemma WholeStart(expr: string) returns (from: nat, beyond: string)
    requires WholeReference(expr).Some?
    ensures Index(expr, "${") == from && from + 2 <= |expr|
    ensures expr[from + 2..] == TrimSpace(expr)[2..|TrimSpace(expr)| - 1] + ['}'] + beyond
  {
    var until;
    from, until := TrimSpaceBounds(expr);
    var trimmed := TrimSpace(expr);
    beyond := expr[until..];
    assert trimmed[|trimmed| - 1] == '}';
    assert OccursAt(expr, "${", from) by {
      assert trimmed[0..2] == expr[from..from + 2];
    }
    forall j | 0 <= j < from ensures !OccursAt(expr, "${", j) {
      assert IsSpace(expr[j]) && "${"[0] == '$';
    }
    IndexUnique(expr, "${", from);
  }

  const BRACED := "${steps.a}}"

  lemma BracedScan()
    ensures ScanExpr(BRACED) == Reference("", "steps.a", "}")
  {
    IndexUnique(BRACED, "${", 0);
    var after := BRACED[2..];
    assert after == "steps.a" + ['}'] + "}";
    CutChar("steps.a", '}', "}");
    TrimSpaceNoop("steps.a");
  }

  /** A dot-free step id is addressed by its bare reference. */
  lemma BareStepTarget(id: string)
    requires '.' !in id
    ensures TargetOf("steps." + id) == StepOutput(id, "")
  {
    var ref := "steps." + id;
    assert ref[0] != "input."[0];
    assert ref[6..] == id;
    AbsentChar(id, '.', ".");
  }

  lemma LiteralScan(expr: string)
    requires '$' !in expr
    ensures Parse(expr) == End(expr)
  {
    AbsentChar(expr, '$', "${");
  }

  lemma BracedReads()
    ensures Reads(BRACED) == ["steps.a"] && Terminated(BRACED)
  {
    BracedScan();
    LiteralScan("}");
    assert Parse(BRACED) == Part("", "steps.a", End("}"));
    assert RefsOf(End("}")) == [];
  }

  lemma BracedIsAccepted()
    ensures RefsAccepted(BRACED, {}, {"a"})
  {
    BracedReads();
    assert "steps.a" == "steps." + "a";
    BareStepTarget("a");
    assert RefProblem("steps.a", {}, {"a"}).None?;
  }

  lemma BracedIsWhole()
    ensures WholeReference(BRACED) == Some("steps.a}")
  {
    TrimSpaceNoop(BRACED);
    IndexUnique(BRACED, "${", 0);
    AbsentChar(BRACED[2..], '$', "${");
    assert Count(BRACED[2..], "${") == 0;
    assert BRACED[2..|BRACED| - 1] == "steps.a}";
    TrimSpaceNoop("steps.a}");
  }

  /** The checker reads `${steps.a}}` up to the first brace, the evaluator up to the last: an
      accepted parameter can end in "unknown step". */
  lemma ExtraBraceGoesWrong(state: State, mode: Mode, render: Render)
    requires Decided(state, {"a"})
    ensures RefsAccepted(BRACED, {}, {"a"})
    ensures EvalValue(BRACED, state, mode, render) == Err(UnknownStep("a}"))
  {
    BracedIsAccepted();
    BracedIsWhole();
    BracedStepUnknown(state);
  }

  lemma BracedStepUnknown(state: State)
    requires Decided(state, {"a"})
    ensures RefValue("steps.a}", state) == Err(UnknownStep("a}"))
  {
    assert "steps.a}" == "steps." + "a}";
    BareStepTarget("a}");
    assert |"a}"| != |"a"|;
    assert "a}" !in state.steps.Keys + state.skipped;
  }
}
