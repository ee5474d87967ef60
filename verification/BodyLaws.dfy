/** What a request body holds once it is assembled from assignments (pkg/runtime/body.go). */
module BodyLaws {
  import opened Wrappers
  import opened JsonValues
  import opened Text
  import opened Documents
  import opened PathLaws
  import opened BodySets
  import opened Envelope

  // ----- assignments in turn

  /** A value stays through assignments to paths that do not overlap its own. */
  lemma {:induction false} LaterSetsKeep(m: Fields, xs: seq<Assignment>, path: string, v: Json)
    requires path != "" && GetPath(Obj(m), path) == Some(v) && SetAll(m, xs).Some?
    requires forall x :: x in xs ==> !Overlaps(ParsePath(x.path), ParsePath(path))
    ensures GetPath(Obj(SetAll(m, xs).value), path) == Some(v)
    decreases |xs|
  {
    if xs == [] {
    } else {
      var x := xs[0];
      SetFrame(m, x.path, x.value, path);
      if Padded(Obj(m), ParsePath(x.path), ParsePath(path)) {
        PaddedWasAbsent(Obj(m), ParsePath(x.path), ParsePath(path));
      }
      LaterSetsKeep(Set(m, ParsePath(x.path), x.value).value, xs[1..], path, v);
    }
  }

  predicate NoneOverlaps(xs: seq<Assignment>, path: string) {
    forall x :: x in xs ==> !Overlaps(ParsePath(x.path), ParsePath(path))
  }

  /** The value of an assignment is read back when no later one overlaps it. */
  lemma {:induction false} AssignmentHeld(m: Fields, xs: seq<Assignment>, k: nat)
    requires k < |xs| && xs[k].path != "" && NoneOverlaps(xs[k + 1..], xs[k].path) && SetAll(m, xs).Some?
    ensures GetPath(Obj(SetAll(m, xs).value), xs[k].path) == Some(xs[k].value)
    decreases k
  {
    var after := Set(m, ParsePath(xs[0].path), xs[0].value).value;
    if k == 0 {
      ReadBack(m, xs[0].path, xs[0].value);
      LaterSetsKeep(after, xs[1..], xs[0].path, xs[0].value);
    } else {
      assert xs[1..][k..] == xs[k + 1..];
      AssignmentHeld(after, xs[1..], k - 1);
    }
  }

  // ----- the envelope

  /** The path of a variable or a set below the merge path. */
  function Below(mergePath: string, path: string): string {
    if mergePath == "" then path else mergePath + "." + path
  }

  predicate ApartFrom(mergePath: string, values: seq<Assignment>, path: string) {
    forall x :: x in values ==> !Overlaps(ParsePath(Below(mergePath, x.path)), ParsePath(path))
  }

  lemma PrefixedApart(mergePath: string, values: seq<Assignment>, path: string)
    requires ApartFrom(mergePath, values, path)
    ensures NoneOverlaps(Prefixed(mergePath, values), path)
  {
    forall x | x in Prefixed(mergePath, values) ensures !Overlaps(ParsePath(x.path), ParsePath(path)) {
      var i :| 0 <= i < |values| && Prefixed(mergePath, values)[i] == x;
      assert values[i] in values;
    }
  }

  /** A set holds in the envelope, below the merge path, when no later set overlaps it: over the variables and
      the file. */
  lemma EnvelopeHoldsSet(template: Fields, mergePath: string, vars: seq<Assignment>, sets: seq<Assignment>,
                         file: Option<Json>, k: nat)
    requires k < |sets| && EnvelopeBody(template, mergePath, vars, sets, file).Some?
    requires Below(mergePath, sets[k].path) != ""
    requires ApartFrom(mergePath, sets[k + 1..], Below(mergePath, sets[k].path))
    ensures GetPath(Obj(EnvelopeBody(template, mergePath, vars, sets, file).value), Below(mergePath, sets[k].path))
         == Some(sets[k].value)
  {
    PrefixedApart(mergePath, sets[k + 1..], Below(mergePath, sets[k].path));
    assert Prefixed(mergePath, sets)[k + 1..] == Prefixed(mergePath, sets[k + 1..]);
    HeldLast(template, FileAssignment(mergePath, file) + Prefixed(mergePath, vars), Prefixed(mergePath, sets), k);
  }

  lemma HeldLast(m: Fields, before: seq<Assignment>, xs: seq<Assignment>, k: nat)
    requires k < |xs| && xs[k].path != "" && SetAll(m, before + xs).Some? && NoneOverlaps(xs[k + 1..], xs[k].path)
    ensures GetPath(Obj(SetAll(m, before + xs).value), xs[k].path) == Some(xs[k].value)
  {
    assert before + xs + [] == before + xs;
    HeldBetween(m, before, xs, [], k);
  }

  /** A variable holds when no later variable and no set overlaps it: over the file. */
  lemma EnvelopeHoldsVariable(template: Fields, mergePath: string, vars: seq<Assignment>, sets: seq<Assignment>,
                              file: Option<Json>, k: nat)
    requires k < |vars| && EnvelopeBody(template, mergePath, vars, sets, file).Some?
    requires Below(mergePath, vars[k].path) != ""
    requires ApartFrom(mergePath, vars[k + 1..], Below(mergePath, vars[k].path))
    requires ApartFrom(mergePath, sets, Below(mergePath, vars[k].path))
    ensures GetPath(Obj(EnvelopeBody(template, mergePath, vars, sets, file).value), Below(mergePath, vars[k].path))
         == Some(vars[k].value)
  {
    var middle := Prefixed(mergePath, vars);
    PrefixedApart(mergePath, vars[k + 1..], Below(mergePath, vars[k].path));
    PrefixedApart(mergePath, sets, Below(mergePath, vars[k].path));
    assert middle[k + 1..] == Prefixed(mergePath, vars[k + 1..]);
    HeldBetween(template, FileAssignment(mergePath, file), middle, Prefixed(mergePath, sets), k);
  }

  lemma HeldBetween(m: Fields, before: seq<Assignment>, xs: seq<Assignment>, after: seq<Assignment>, k: nat)
    requires k < |xs| && xs[k].path != "" && SetAll(m, before + xs + after).Some?
    requires NoneOverlaps(xs[k + 1..], xs[k].path) && NoneOverlaps(after, xs[k].path)
    ensures GetPath(Obj(SetAll(m, before + xs + after).value), xs[k].path) == Some(xs[k].value)
  {
    var all := before + xs + after;
    assert all[|before| + k] == xs[k];
    assert all[|before| + k + 1..] == xs[k + 1..] + after;
    AssignmentHeld(m, all, |before| + k);
  }

  /** The file alone is what the envelope holds at the merge path, and it needs one. */
  lemma EnvelopeHoldsFile(template: Fields, mergePath: string, file: Json)
    ensures mergePath == "" ==> EnvelopeBody(template, mergePath, [], [], Some(file)) == None
    ensures EnvelopeBody(template, mergePath, [], [], Some(file)).Some? ==>
      GetPath(Obj(EnvelopeBody(template, mergePath, [], [], Some(file)).value), mergePath) == Some(file)
  {
    if mergePath != "" {
      var all := [Assignment(mergePath, file)];
      assert FileAssignment(mergePath, Some(file)) + Prefixed(mergePath, []) + Prefixed(mergePath, []) == all;
      if SetAll(template, all).Some? {
        AssignmentHeld(template, all, 0);
      }
    }
  }

  /** What the template holds, and nothing overlaps, stays. */
  lemma EnvelopeKeeps(template: Fields, mergePath: string, vars: seq<Assignment>, sets: seq<Assignment>, path: string,
                      v: Json)
    requires EnvelopeBody(template, mergePath, vars, sets, None).Some?
    requires path != "" && GetPath(Obj(template), path) == Some(v)
    requires ApartFrom(mergePath, vars, path) && ApartFrom(mergePath, sets, path)
    ensures GetPath(Obj(EnvelopeBody(template, mergePath, vars, sets, None).value), path) == Some(v)
  {
    PrefixedApart(mergePath, vars, path);
    PrefixedApart(mergePath, sets, path);
    LaterSetsKeep(template, FileAssignment(mergePath, None) + Prefixed(mergePath, vars) + Prefixed(mergePath, sets),
                  path, v);
  }

  // ----- --set and --set-str

  /** A path, an equals sign and a text are an assignment, unless the path leads into a field of a flag. Without
      a path or an equals sign there is none. */
  lemma AssignmentMeans(path: string, text: string, flagFields: set<string>, infer: Inference)
    requires '=' !in path
    ensures AssignmentOf(path + "=" + text, flagFields, infer)
         == if path == "" || ParsePath(path)[0].key in flagFields then None else Some(Assignment(path, infer(text)))
    ensures AssignmentOf(path, flagFields, infer) == None
  {
    assert path + "=" + text == path + ['='] + text;
    CutChar(path, '=', text);
    AbsentChar(path, '=', "=");
  }

  /** The --set assignments and then the --set-str ones, `None` when one of them is malformed or conflicts. */
  function BothAssignments(flagFields: set<string>, sets: seq<string>, stringSets: seq<string>, infer: Inference)
    : Option<seq<Assignment>>
  {
    match (Assignments(sets, flagFields, infer), Assignments(stringSets, flagFields, AsText()))
    case (Some(inferred), Some(plain)) => Some(inferred + plain)
    case _ => None
  }

  /** Both loops together set that list in turn, the texts of --set-str taken as they are. */
  lemma BothAreSetAll(m: Fields, flagFields: set<string>, sets: seq<string>, stringSets: seq<string>, infer: Inference)
    ensures var all := BothAssignments(flagFields, sets, stringSets, infer);
            MergeBoth(m, flagFields, sets, stringSets, infer) == (if all.Some? then SetAll(m, all.value) else None)
    ensures forall text :: AsText()(text) == Str(text)
  {
    var inferred, plain := Assignments(sets, flagFields, infer), Assignments(stringSets, flagFields, AsText());
    MergeIsSetAll(m, sets, flagFields, infer);
    if inferred.Some? {
      if plain.Some? {
        SetAllAppend(m, inferred.value, plain.value);
      }
      if SetAll(m, inferred.value).Some? {
        MergeIsSetAll(SetAll(m, inferred.value).value, stringSets, flagFields, AsText());
      }
    }
  }
}
