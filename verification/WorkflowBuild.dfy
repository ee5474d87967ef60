/** The workflow builder's step loop: operations, parameter names and references (internal/lathecmd/workflow.go). */
module WorkflowBuild {
  import opened WorkflowChecker
  import opened OperationLookup

  /** A parameter of an operation, by its name and its flag. */
  datatype Param = Param(name: string, flag: string)

  /** What the builder looks at in an operation. */
  datatype Details = Details(binary: bool, params: seq<Param>)

  predicate NamesParam(details: Details, key: string) {
    exists i :: 0 <= i < |details.params| && (details.params[i].name == key || details.params[i].flag == key)
  }

  /** Every parameter that the step gives is one of the operation's, by name or by flag. */
  predicate ParamsKnown(step: Step, details: Details) {
    forall i :: 0 <= i < |step.params| ==> NamesParam(details, step.params[i].name)
  }

  method ValidateStepParams(step: Step, details: Details) returns (ok: bool)
    ensures ok <==> ParamsKnown(step, details)
  {
    var allowed: set<string> := {};
    for i := 0 to |details.params|
      invariant forall key :: key in allowed <==>
        exists j :: 0 <= j < i && (details.params[j].name == key || details.params[j].flag == key)
    {
      allowed := allowed + {details.params[i].name, details.params[i].flag};
    }
    for i := 0 to |step.params|
      invariant forall j :: 0 <= j < i ==> NamesParam(details, step.params[j].name)
    {
      if step.params[i].name !in allowed {
        return false;
      }
    }
    return true;
  }

  /** The step's operation is found, returns no binary and has the parameters that the step gives it. */
  predicate Usable(step: Step, resolution: Resolution<Details>) {
    resolution.Found? && !resolution.operation.rest.binary && ParamsKnown(step, resolution.operation.rest)
  }

  /** The first claim on the key, which all claims on it share, is of an operation without binary answers, and
      whatever the step gives is the name or the flag of one of its parameters. */
  lemma UsableIff(step: Step, claims: seq<Claim<Details>>, key: string)
    ensures Usable(step, Resolved(claims, key)) <==>
      key != "" && exists i: nat ::
        && ClaimsFirst(claims, key, i)
        && (forall c :: c in claims && c.key == key ==> c.operation.identity == claims[i].operation.identity)
        && !claims[i].operation.rest.binary
        && forall b :: b in step.params ==>
             exists p :: p in claims[i].operation.rest.params && b.name in {p.name, p.flag}
  {
    var resolution := Resolved(claims, key);
    forall operation ensures resolution == Found(operation) <==>
      && key != ""
      && (exists i: nat :: ClaimsFirst(claims, key, i) && claims[i].operation == operation)
      && forall c :: c in claims && c.key == key ==> c.operation.identity == operation.identity
    {
      FoundIff(claims, key, operation);
    }
    forall details: Details ensures ParamsKnown(step, details) <==>
      forall b :: b in step.params ==> exists p :: p in details.params && b.name in {p.name, p.flag}
    {
      KnownIff(step, details);
    }
  }

  lemma KnownIff(step: Step, details: Details)
    ensures ParamsKnown(step, details) <==>
      forall b :: b in step.params ==> exists p :: p in details.params && b.name in {p.name, p.flag}
  {
    if ParamsKnown(step, details) {
      forall b | b in step.params ensures exists p :: p in details.params && b.name in {p.name, p.flag} {
        var i :| 0 <= i < |step.params| && step.params[i] == b;
        assert NamesParam(details, step.params[i].name);
        var j :| 0 <= j < |details.params| && (details.params[j].name == b.name || details.params[j].flag == b.name);
        assert details.params[j] in details.params;
      }
    }
  }

  predicate StepFits(step: Step, claims: seq<Claim<Details>>, naming: Naming, inputs: set<string>, steps: set<string>) {
    Usable(step, Resolved(claims, naming.key(step.uses))) && StepAccepted(step, inputs, steps)
  }

  method CheckStep(step: Step, inputs: set<string>, seen: set<string>, lookup: Lookup<Details>) returns (ok: bool)
    requires lookup.Valid()
    ensures ok <==> StepFits(step, lookup.claims, lookup.naming, inputs, seen)
  {
    var resolution := lookup.Resolve(step.uses);
    if !resolution.Found? || resolution.operation.rest.binary {
      return false;
    }
    ok := ValidateStepParams(step, resolution.operation.rest);
    if ok {
      ok := ValidateWorkflowStepRefs(step, inputs, seen);
    }
  }

  predicate StepsFit(steps: seq<Step>, n: nat, claims: seq<Claim<Details>>, naming: Naming, inputs: set<string>)
    requires n <= |steps|
  {
    forall i :: 0 <= i < n ==> StepFits(steps[i], claims, naming, inputs, Ids(steps[..i]))
  }

  /** Accepts exactly the workflows whose steps can use their operations and whose references name inputs and
      earlier steps. */
  method CheckWorkflow(workflow: Workflow, inputs: set<string>, lookup: Lookup<Details>) returns (ok: bool)
    requires lookup.Valid()
    ensures ok <==>
      && (forall step :: step in workflow.steps ==> Usable(step, Resolved(lookup.claims, lookup.naming.key(step.uses))))
      && Accepted(workflow, inputs)
  {
    var steps := workflow.steps;
    var seen: set<string> := {};
    for i := 0 to |steps|
      invariant seen == Ids(steps[..i]) && StepsFit(steps, i, lookup.claims, lookup.naming, inputs)
    {
      ok := CheckStep(steps[i], inputs, seen, lookup);
      if !ok {
        return;
      }
      IdsSnoc(steps, i);
      seen := seen + {steps[i].id};
    }
    assert steps[..|steps|] == steps;
    var problem := ValidateWorkflowRefs(workflow.outputFrom, inputs, seen);
    return problem.None?;
  }
}
