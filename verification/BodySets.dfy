/** A JSON body from flags and from --set and --set-str assignments (pkg/runtime/body.go). */
module BodySets {
  import opened Wrappers
  import opened JsonValues
  import opened Text
  import opened Documents
  import opened PathLaws

  /** parseSet: the text before the first `=`, which may not be empty, and the text after it. */
  function ParseSet(kv: string): Option<(string, string)> {
    var eq := Index(kv, "=");
    if eq <= 0 then None else Some((kv[..eq], kv[eq + 1..]))
  }

  /** rejectBodyFlagSetConflict: the path leads into a field that a flag has set. */
  predicate Conflicts(path: string, flagFields: set<string>) {
    ParsePath(path) != [] && ParsePath(path)[0].key in flagFields
  }

  /** inferValue is a parameter; --set-str takes the text itself. */
  type Inference = string -> Json

  function AsText(): Inference {
    (text: string) => Str(text)
  }

  function AssignmentOf(kv: string, flagFields: set<string>, infer: Inference): Option<Assignment> {
    match ParseSet(kv)
    case Some((path, text)) => if Conflicts(path, flagFields) then None else Some(Assignment(path, infer(text)))
    case None => None
  }

  /** All assignments; `None` when one is malformed or conflicts with a flag. */
  function Assignments(kvs: seq<string>, flagFields: set<string>, infer: Inference): Option<seq<Assignment>> {
    if kvs == [] then Some([])
    else
      match (AssignmentOf(kvs[0], flagFields, infer), Assignments(kvs[1..], flagFields, infer))
      case (Some(first), Some(rest)) => Some([first] + rest)
      case _ => None
  }

  /** The loop: parse, check and set, one after the other. */
  function MergedSets(m: Fields, kvs: seq<string>, flagFields: set<string>, infer: Inference): Option<Fields>
    decreases |kvs|
  {
    if kvs == [] then Some(m)
    else
      match AssignmentOf(kvs[0], flagFields, infer)
      case None => None
      case Some(a) =>
        match Set(m, ParsePath(a.path), a.value)
        case Some(after) => MergedSets(after, kvs[1..], flagFields, infer)
        case None => None
  }

  method MergeSets(doc: Document, kvs: seq<string>, flagFields: set<string>, infer: Inference) returns (ok: bool)
    modifies doc
    ensures ok <==> MergedSets(old(doc.root), kvs, flagFields, infer).Some?
    ensures ok ==> doc.root == MergedSets(old(doc.root), kvs, flagFields, infer).value
  {
    ghost var start := doc.root;
    for i := 0 to |kvs|
      invariant MergedSets(start, kvs, flagFields, infer) == MergedSets(doc.root, kvs[i..], flagFields, infer)
    {
      assert kvs[i..][1..] == kvs[i + 1..];
      var parsed := ParseSet(kvs[i]);
      if parsed.None? || Conflicts(parsed.value.0, flagFields) {
        return false;
      }
      ok := doc.SetPath(parsed.value.0, infer(parsed.value.1));
      if !ok {
        return;
      }
    }
    ok := true;
  }

  /** mergeJSONBodySets: the --set assignments, then the --set-str ones. */
  method MergeJsonBodySets(doc: Document, flagFields: set<string>, sets: seq<string>, stringSets: seq<string>,
                           infer: Inference) returns (ok: bool)
    modifies doc
    ensures ok <==> MergeBoth(old(doc.root), flagFields, sets, stringSets, infer).Some?
    ensures ok ==> doc.root == MergeBoth(old(doc.root), flagFields, sets, stringSets, infer).value
  {
    ok := MergeSets(doc, sets, flagFields, infer);
    if ok {
      ok := MergeSets(doc, stringSets, flagFields, AsText());
    }
  }

  function MergeBoth(m: Fields, flagFields: set<string>, sets: seq<string>, stringSets: seq<string>, infer: Inference)
    : Option<Fields>
  {
    match MergedSets(m, sets, flagFields, infer)
    case Some(after) => MergedSets(after, stringSets, flagFields, AsText())
    case None => None
  }

  // ----- what merging means

  /** Merging is all assignments in turn, and fails when one is malformed or conflicts, wherever it stands. */
  lemma {:induction false} MergeIsSetAll(m: Fields, kvs: seq<string>, flagFields: set<string>, infer: Inference)
    ensures MergedSets(m, kvs, flagFields, infer)
         == match Assignments(kvs, flagFields, infer)
            case Some(all) => SetAll(m, all)
            case None => None
    decreases |kvs|
  {
    if kvs == [] {
    } else {
      match AssignmentOf(kvs[0], flagFields, infer)
      case None =>
      case Some(a) =>
        var rest := Assignments(kvs[1..], flagFields, infer);
        if rest.Some? {
          assert ([a] + rest.value)[1..] == rest.value;
        }
        match Set(m, ParsePath(a.path), a.value)
        case None =>
        case Some(after) => MergeIsSetAll(after, kvs[1..], flagFields, infer);
    }
  }

  lemma SetOtherKey(m: Fields, segs: seq<Segment>, v: Json, key: string)
    requires segs != [] && segs[0].key != key && Set(m, segs, v).Some?
    ensures (key in Set(m, segs, v).value <==> key in m) && FieldOf(Set(m, segs, v).value, key) == FieldOf(m, key)
  {
    SetStep(m, segs, v);
  }

  lemma {:induction false} MergeKeepsField(m: Fields, kvs: seq<string>, flagFields: set<string>, infer: Inference,
                                           name: string)
    requires name in flagFields && name in m && MergedSets(m, kvs, flagFields, infer).Some?
    ensures var after := MergedSets(m, kvs, flagFields, infer).value; name in after && after[name] == m[name]
    decreases |kvs|
  {
    if kvs == [] {
    } else {
      var a := AssignmentOf(kvs[0], flagFields, infer).value;
      SetOtherKey(m, ParsePath(a.path), a.value, name);
      MergeKeepsField(Set(m, ParsePath(a.path), a.value).value, kvs[1..], flagFields, infer, name);
    }
  }

  /** No assignment touches a field that a flag has set: after a merge that succeeds it holds the flag's value. */
  lemma FlagFieldsKept(flags: Fields, sets: seq<string>, stringSets: seq<string>, infer: Inference)
    requires MergeBoth(flags, flags.Keys, sets, stringSets, infer).Some?
    ensures var body := MergeBoth(flags, flags.Keys, sets, stringSets, infer).value;
            forall name :: name in flags ==> name in body && body[name] == flags[name]
  {
    var after := MergedSets(flags, sets, flags.Keys, infer).value;
    forall name | name in flags
      ensures var body := MergeBoth(flags, flags.Keys, sets, stringSets, infer).value;
              name in body && body[name] == flags[name]
    {
      MergeKeepsField(flags, sets, flags.Keys, infer, name);
      MergeKeepsField(after, stringSets, flags.Keys, AsText(), name);
    }
  }
}
