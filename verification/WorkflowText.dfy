/** The text that a workflow expression evaluates to: literal text stays, and every reference is replaced
    where it stands (pkg/runtime/workflow_expression.go). */
module WorkflowText {
  import opened Wrappers
  import opened Text
  import opened WorkflowChecker
  import opened WorkflowExpressions
  import Documents

  // ----- the three shapes of an expression

  /** No reference is opened: the expression is its own value. */
  lemma LiteralStays(expr: string, state: State, mode: Mode, render: Render)
    requires !Contains(expr, "${")
    ensures Parse(expr) == End(expr)
    ensures EvalString(expr, state, mode, render) == Ok(expr)
  {
    assert Index(expr, "${") == -1;
  }

  lemma OpeningSplits(lit: string, rest: string)
    requires !Contains(lit, "${")
    ensures Cut(lit + "${" + rest, "${") == CutResult(lit, rest, true)
  {
    var expr := lit + "${" + rest;
    assert expr[|lit|..|lit| + 2] == "${";
    forall j | 0 <= j < |lit| ensures !OccursAt(expr, "${", j) {
      if OccursAt(expr, "${", j) {
        assert expr[j..j + 2] == "${";
        assert j + 1 < |lit| by {
          assert expr[|lit|] == '$' && expr[j + 1] == '{';
        }
        assert lit[j..j + 2] == "${";
        assert OccursAt(lit, "${", j);
      }
    }
    IndexUnique(expr, "${", |lit|);
    assert expr[..|lit|] == lit && expr[|lit| + 2..] == rest;
  }

  lemma ReferenceScan(lit: string, ref: string, rest: string)
    requires !Contains(lit, "${") && '}' !in ref
    ensures ScanExpr(lit + "${" + ref + "}" + rest) == Reference(lit, TrimSpace(ref), rest)
  {
    assert lit + "${" + ref + "}" + rest == lit + "${" + (ref + ['}'] + rest);
    OpeningSplits(lit, ref + ['}'] + rest);
    CutChar(ref, '}', rest);
  }

  /** `whole` is `lit`, what a reference of the given value stands for, and `after`: the value as text, `null` in
      an output when the step it names was skipped, nothing in a condition when it has no value. Any other
      failure is the result, and so is that of `after`. */
  ghost predicate Replaces(whole: Textual, lit: string, value: Value, after: Textual, mode: Mode, render: Render) {
    match value
    case Ok(v) => whole == if after.Ok? then Ok(lit + render(v) + after.value) else after
    case Err(StepSkipped(id)) =>
      if mode == InOutput then whole == if after.Ok? then Ok(lit + "null" + after.value) else after
      else whole == Err(StepSkipped(id))
    case Err(e) =>
      if mode == InCondition then whole == if after.Ok? then Ok(lit + after.value) else after
      else whole == Err(e)
  }

  lemma ContributionReplaces(lit: string, value: Value, after: Textual, mode: Mode, render: Render)
    ensures var whole: Textual :=
              match Contribution(value, mode, render)
              case Err(e) => Err(e)
              case Ok(text) => Prefixed(lit + text, after);
            Replaces(whole, lit, value, after, mode, render)
  {
    assert lit + "" == lit;
  }

  lemma EvaluateReference(lit: string, ref: string, rest: string, pieces: Pieces, mode: Mode)
    requires !Contains(lit, "${") && '}' !in ref
    ensures Evaluate(Parse(lit + "${" + ref + "}" + rest), pieces, mode)
         == var piece := pieces(TrimSpace(ref));
            if piece.Err? then piece else Prefixed(lit + piece.value, Evaluate(Parse(rest), pieces, mode))
  {
    ReferenceScan(lit, ref, rest);
  }

  /** A reference is replaced where it stands, by what its trimmed text names. */
  lemma ReferenceReplaced(lit: string, ref: string, rest: string, state: State, mode: Mode, render: Render)
    requires !Contains(lit, "${") && '}' !in ref
    ensures Replaces(EvalString(lit + "${" + ref + "}" + rest, state, mode, render), lit,
                     RefValue(TrimSpace(ref), state), EvalString(rest, state, mode, render), mode, render)
  {
    EvaluateReference(lit, ref, rest, PiecesOf(state, mode, render), mode);
    ContributionReplaces(lit, RefValue(TrimSpace(ref), state), EvalString(rest, state, mode, render), mode, render);
  }

  /** A reference left open stays as it is in a condition and is an error elsewhere. */
  lemma OpenReference(lit: string, rest: string, state: State, mode: Mode, render: Render)
    requires !Contains(lit, "${") && '}' !in rest
    ensures EvalString(lit + "${" + rest, state, mode, render)
         == if mode == InCondition then Ok(lit + "${" + rest) else Err(UnterminatedReference)
  {
    OpeningSplits(lit, rest);
    AbsentChar(rest, '}', "}");
  }

  /** There is no fourth shape. */
  lemma ExpressionShapes(expr: string) returns (lit: string, ref: string, rest: string)
    ensures !Contains(lit, "${")
    ensures || expr == lit
            || (expr == lit + "${" + rest && '}' !in rest)
            || (expr == lit + "${" + ref + "}" + rest && '}' !in ref)
  {
    var head := Cut(expr, "${");
    lit, ref, rest := head.before, "", head.after;
    CutParts(expr, "${");
    if head.found {
      var found;
      found, ref, rest := CutAtBrace(head.after);
      if found {
        assert expr == lit + "${" + ref + "}" + rest;
      } else {
        rest := head.after;
      }
    }
  }

  lemma CutAtBrace(s: string) returns (found: bool, before: string, after: string)
    ensures Cut(s, "}") == CutResult(before, after, found) && '}' !in before
    ensures s == if found then before + "}" + after else before
  {
    var cut := Cut(s, "}");
    found, before, after := cut.found, cut.before, cut.after;
    CutParts(s, "}");
    forall i | 0 <= i < |before| ensures before[i] != '}' {
      CharOccurs(before, i);
    }
  }

  // ----- references that stand for themselves

  /** No reference has blanks inside its braces. */
  predicate Tight(expr: string)
    decreases |expr|
  {
    var head := Cut(expr, "${");
    head.found ==>
      var tail := Cut(head.after, "}");
      tail.found ==> TrimSpace(tail.before) == tail.before && Tight(tail.after)
  }

  lemma Reassociated(lit: string, ref: string, rest: string)
    ensures lit + "${" + (ref + "}" + rest) == lit + ("${" + ref + "}") + rest
  {
  }

  lemma ReferenceRead(expr: string, lit: string, ref: string, rest: string)
    requires Tight(expr) && ScanExpr(expr) == Reference(lit, ref, rest)
    ensures expr == lit + ("${" + ref + "}") + rest && Tight(rest)
  {
    CutParts(expr, "${");
    var after := Cut(expr, "${").after;
    CutParts(after, "}");
    assert after == ref + "}" + rest && expr == lit + "${" + after;
    Reassociated(lit, ref, rest);
  }

  lemma ReadsFirst(expr: string, lit: string, ref: string, rest: string)
    requires ScanExpr(expr) == Reference(lit, ref, rest)
    ensures Reads(expr) == [ref] + Reads(rest)
    ensures Reads(expr)[0] == ref && forall i :: 0 <= i < |Reads(rest)| ==> Reads(expr)[i + 1] == Reads(rest)[i]
  {
  }

  predicate StandForThemselves(refs: seq<string>, pieces: Pieces) {
    forall i :: 0 <= i < |refs| ==> pieces(refs[i]) == Ok("${" + refs[i] + "}")
  }

  /** If every reference contributes its own source text, the expression comes back unchanged. */
  lemma {:induction false} OwnTextComesBack(expr: string, pieces: Pieces, mode: Mode)
    requires Tight(expr) && (Terminated(expr) || mode == InCondition)
    requires StandForThemselves(Reads(expr), pieces)
    ensures Evaluate(Parse(expr), pieces, mode) == Ok(expr)
    decreases |expr|
  {
    match ScanExpr(expr)
    case Plain(_) =>
    case Unclosed(_, _) =>
      CutParts(expr, "${");
    case Reference(lit, ref, rest) =>
      ReferenceRead(expr, lit, ref, rest);
      ReadsFirst(expr, lit, ref, rest);
      OwnTextComesBack(rest, pieces, mode);
  }

  // ----- what the checker accepts of the three shapes

  lemma LiteralAccepted(expr: string, inputs: set<string>, steps: set<string>)
    requires !Contains(expr, "${")
    ensures RefsAccepted(expr, inputs, steps)
  {
    assert Parse(expr) == End(expr);
    assert RefsOf(End(expr)) == [];
  }

  lemma OpenReferenceRejected(lit: string, rest: string, inputs: set<string>, steps: set<string>)
    requires !Contains(lit, "${") && '}' !in rest
    ensures !RefsAccepted(lit + "${" + rest, inputs, steps)
  {
    OpeningSplits(lit, rest);
    AbsentChar(rest, '}', "}");
  }

  /** A reference is accepted when it names an input or a known step, and the rest is accepted. */
  lemma ReferenceAccepted(lit: string, ref: string, rest: string, inputs: set<string>, steps: set<string>)
    requires !Contains(lit, "${") && '}' !in ref
    ensures RefsAccepted(lit + "${" + ref + "}" + rest, inputs, steps)
       <==> RefProblem(TrimSpace(ref), inputs, steps).None? && RefsAccepted(rest, inputs, steps)
  {
    var expr, check := lit + "${" + ref + "}" + rest, CheckAgainst(inputs, steps);
    ReferenceScan(lit, ref, rest);
    ReadsFirst(expr, lit, TrimSpace(ref), rest);
    assert Terminated(expr) == Terminated(rest);
    assert AllPass(Reads(expr), check) <==> check(TrimSpace(ref)).None? && AllPass(Reads(rest), check) by {
      if check(TrimSpace(ref)).None? && AllPass(Reads(rest), check) {
        forall i | 0 <= i < |Reads(expr)| ensures check(Reads(expr)[i]).None? {
          assert i > 0 ==> Reads(expr)[i] == Reads(rest)[i - 1];
        }
      }
      if AllPass(Reads(expr), check) {
        forall i | 0 <= i < |Reads(rest)| ensures check(Reads(rest)[i]).None? {
          assert check(Reads(expr)[i + 1]).None?;
        }
      }
    }
  }

  /** The names that are known: declared inputs, and steps with or without a path. */
  lemma KnownNames(name: string, id: string, path: string, inputs: set<string>, steps: set<string>)
    requires '.' !in id
    ensures RefProblem("input." + name, inputs, steps).None? <==> name in inputs
    ensures RefProblem("steps." + id, inputs, steps).None? <==> id in steps
    ensures RefProblem("steps." + id + "." + path, inputs, steps).None? <==> id in steps
  {
    assert ("input." + name)[6..] == name;
    BareStepTarget(id);
    var ref := "steps." + id + "." + path;
    assert ref[0] != "input."[0];
    assert ref[6..] == id + ['.'] + path;
    CutChar(id, '.', path);
  }

  // ----- what a reference names

  /** `input.` and a name. */
  lemma InputValue(name: string, state: State)
    ensures RefValue("input." + name, state)
         == if name in state.inputs then Ok(state.inputs[name]) else Err(UnknownInput(name))
  {
    var ref := "input." + name;
    assert ref[6..] == name;
  }

  /** `steps.`, an id without a dot and a path: a skipped step before an unknown one, then the value at the path. */
  lemma StepValue(id: string, path: string, state: State)
    requires '.' !in id
    ensures var value := RefValue("steps." + id + "." + path, state);
            && (id in state.skipped ==> value == Err(StepSkipped(id)))
            && (id !in state.skipped && id !in state.steps ==> value == Err(UnknownStep(id)))
            && (id !in state.skipped && id in state.steps ==>
                  match Documents.GetPath(state.steps[id], path)
                  case Some(found) => value == Ok(found)
                  case None => value == Err(NoOutputPath(id, path)))
  {
    var ref := "steps." + id + "." + path;
    assert ref[0] != "input."[0];
    assert ref[6..] == id + ['.'] + path;
    CutChar(id, '.', path);
  }

  /** `steps.` and an id alone name the whole output. */
  lemma StepWholeValue(id: string, state: State)
    requires '.' !in id
    ensures var value := RefValue("steps." + id, state);
            && (id in state.skipped ==> value == Err(StepSkipped(id)))
            && (id !in state.skipped && id !in state.steps ==> value == Err(UnknownStep(id)))
            && (id !in state.skipped && id in state.steps ==> value == Ok(state.steps[id]))
  {
    BareStepTarget(id);
  }

  // ----- an expression that is one reference

  lemma OneOpening(ref: string)
    requires !Contains(ref, "${")
    ensures Count("${" + ref + "}", "${") == 1
  {
    var braced := "${" + ref + "}";
    IndexUnique(braced, "${", 0);
    assert braced[2..] == ref + "}";
    forall j | 0 <= j && OccursAt(ref + "}", "${", j) ensures false {
      assert (ref + "}")[j + 1] == '{';
      assert ref[j..j + 2] == (ref + "}")[j..j + 2];
      assert OccursAt(ref, "${", j);
    }
    assert Count(ref + "}", "${") == 0;
  }

  /** Between blanks, a single reference is the value it names, not its text. */
  lemma SingleReferenceValue(lead: string, ref: string, trail: string, state: State, mode: Mode, render: Render)
    requires (forall i :: 0 <= i < |lead| ==> IsSpace(lead[i])) && (forall i :: 0 <= i < |trail| ==> IsSpace(trail[i]))
    requires !Contains(ref, "${")
    ensures EvalValue(lead + "${" + ref + "}" + trail, state, mode, render)
         == match RefValue(TrimSpace(ref), state)
            case Ok(value) => Ok(JsonValue(value))
            case Err(e) => Err(e)
  {
    WholeBetween(lead, ref, trail);
  }

  lemma WholeBetween(lead: string, ref: string, trail: string)
    requires (forall i :: 0 <= i < |lead| ==> IsSpace(lead[i])) && (forall i :: 0 <= i < |trail| ==> IsSpace(trail[i]))
    requires !Contains(ref, "${")
    ensures WholeReference(lead + "${" + ref + "}" + trail) == Some(TrimSpace(ref))
  {
    var braced := "${" + ref + "}";
    assert lead + "${" + ref + "}" + trail == lead + braced + trail;
    TrimmedBetween(lead, braced, trail);
    assert braced[0..2] == "${" && braced[|braced| - 1..] == "}";
    assert braced[2..|braced| - 1] == ref;
    OneOpening(ref);
  }

  lemma WholeShape(expr: string) returns (lead: string, ref: string, trail: string)
    requires WholeReference(expr).Some?
    ensures (forall i :: 0 <= i < |lead| ==> IsSpace(lead[i])) && (forall i :: 0 <= i < |trail| ==> IsSpace(trail[i]))
    ensures !Contains(ref, "${") && expr == lead + "${" + (ref + "}" + trail)
  {
    var from, until := TrimSpaceBounds(expr);
    var trimmed := TrimSpace(expr);
    lead, ref, trail := expr[..from], trimmed[2..|trimmed| - 1], expr[until..];
    InnerHasNoOpening(trimmed);
    assert expr == lead + trimmed + trail;
    BracesAround(trimmed);
    Regrouped(lead, ref, trail);
  }

  lemma BracesAround(trimmed: string)
    requires |trimmed| >= 3 && OccursAt(trimmed, "${", 0) && HasSuffix(trimmed, "}")
    ensures trimmed == "${" + trimmed[2..|trimmed| - 1] + "}"
  {
    assert trimmed[0..2] == "${";
  }

  lemma Regrouped(lead: string, ref: string, trail: string)
    ensures lead + ("${" + ref + "}") + trail == lead + "${" + (ref + "}" + trail)
  {
  }

  lemma InnerHasNoOpening(trimmed: string)
    requires |trimmed| >= 3 && OccursAt(trimmed, "${", 0) && Count(trimmed, "${") == 1
    ensures !Contains(trimmed[2..|trimmed| - 1], "${")
  {
    var rest, ref := trimmed[2..], trimmed[2..|trimmed| - 1];
    assert Count(rest, "${") == 0;
    assert ref == rest[..|rest| - 1];
    forall j | OccursAt(ref, "${", j) ensures OccursAt(rest, "${", j) {
      assert rest[j..j + 2] == ref[j..j + 2];
    }
  }

  /** Past the only reference, and the blanks behind it, nothing opens another. */
  lemma OpensNoMore(ref: string, trail: string)
    requires !Contains(ref, "${") && (forall i :: 0 <= i < |trail| ==> IsSpace(trail[i]))
    ensures !Contains(ref + "}" + trail, "${")
  {
    var rest := ref + "}" + trail;
    forall j | OccursAt(rest, "${", j) ensures OccursAt(ref, "${", j) {
      assert rest[j] == rest[j..j + 2][0] == '$' && rest[j + 1] == rest[j..j + 2][1] == '{';
      Between(ref, "}", trail, j);
      Between(ref, "}", trail, j + 1);
      assert ref[j..j + 2] == "${";
    }
  }

  lemma MixedIsNotWhole(lit: string, rest: string)
    requires !Contains(lit, "${")
    requires (exists i :: 0 <= i < |lit| && !IsSpace(lit[i])) || Contains(rest, "${")
    ensures WholeReference(lit + "${" + rest).None?
  {
    var expr := lit + "${" + rest;
    if WholeReference(expr).Some? {
      var lead, ref, trail := WholeShape(expr);
      AbsentChar(lead, '$', "${");
      OpeningSplits(lead, ref + "}" + trail);
      OpeningSplits(lit, rest);
      OpensNoMore(ref, trail);
      assert false;
    }
  }

  /** With text before its first reference, or with a second one, an expression is text. */
  lemma MixedExpressionIsText(lit: string, rest: string, state: State, mode: Mode, render: Render)
    requires !Contains(lit, "${")
    requires (exists i :: 0 <= i < |lit| && !IsSpace(lit[i])) || Contains(rest, "${")
    ensures EvalValue(lit + "${" + rest, state, mode, render)
         == match EvalString(lit + "${" + rest, state, mode, render)
            case Ok(text) => Ok(TextValue(text))
            case Err(e) => Err(e)
  {
    MixedIsNotWhole(lit, rest);
  }
}
