/** Generated GraphQL selection sets (internal/codegen/backends/graphql/selection.go). */
module Selections {
  import opened Wrappers

  datatype Argument = Argument(nonNull: bool, hasDefault: bool)

  /** `typeName` is the innermost type, under lists and non-null marks. */
  datatype FieldDef = FieldDef(name: string, arguments: seq<Argument>, typeName: string)

  datatype TypeDef = Leaf | Union | Composite(fields: seq<FieldDef>)

  type Schema = map<string, TypeDef>

  /** Whether the configuration prunes a field of a type; `None` is a malformed pattern. */
  type Pruner = (string, string) -> Option<bool>

  /** `Unselected` is the empty text that a leaf gets. */
  datatype Selection = Unselected | TypenameOnly | Select(fields: seq<Selected>)

  datatype Selected = Selected(name: string, sub: Selection)

  function HasRequiredArgs(f: FieldDef): bool {
    exists i :: 0 <= i < |f.arguments| && f.arguments[i].nonNull && !f.arguments[i].hasDefault
  }

  /** Fields that may be selected at all. */
  predicate Eligible(schema: Schema, prune: Pruner, typeName: string, f: FieldDef) {
    && !("__" <= f.name) && !HasRequiredArgs(f) && prune(typeName, f.name) == Some(false)
    && f.typeName in schema
  }

  /** Not an introspection field, no argument that must be given, not pruned, and of a type that is known. */
  predicate Selectable(schema: Schema, prune: Pruner, typeName: string, f: FieldDef) {
    && (|f.name| < 2 || f.name[..2] != "__")
    && (forall i :: 0 <= i < |f.arguments| && f.arguments[i].nonNull ==> f.arguments[i].hasDefault)
    && prune(typeName, f.name) == Some(false)
    && f.typeName in schema
  }

  lemma EligibleIsSelectable(schema: Schema, prune: Pruner, typeName: string, f: FieldDef)
    ensures Eligible(schema, prune, typeName, f) <==> Selectable(schema, prune, typeName, f)
  {
    if |f.name| >= 2 && f.name[..2] == "__" {
      assert "__" <= f.name;
    }
  }

  /** How many levels may still be opened below `depth`. */
  function Below(depth: int, maxDepth: int): nat {
    if depth < maxDepth then maxDepth - depth else 0
  }

  /** selectionSet as a function; `None` is an error. */
  function SelectionSet(schema: Schema, prune: Pruner, maxDepth: int, typeName: string, depth: int, onPath: set<string>)
    : Option<Selection>
    decreases Below(depth, maxDepth), 1, 0
  {
    if typeName !in schema then None
    else
      match schema[typeName]
      case Leaf => Some(Unselected)
      case Union => Some(TypenameOnly)
      case Composite(fields) =>
        match SelectFields(schema, prune, maxDepth, typeName, fields, depth, onPath)
        case Some(selected) => if selected == [] then None else Some(Select(selected))
        case None => None
  }

  /** The loop over the fields. */
  function SelectFields(schema: Schema, prune: Pruner, maxDepth: int, typeName: string, fields: seq<FieldDef>,
                        depth: int, onPath: set<string>): Option<seq<Selected>>
    decreases Below(depth, maxDepth), 0, |fields|
  {
    if fields == [] then Some([])
    else if prune(typeName, fields[0].name).None? then None
    else
      match SelectFields(schema, prune, maxDepth, typeName, fields[1..], depth, onPath)
      case None => None
      case Some(rest) =>
        match SelectField(schema, prune, maxDepth, typeName, fields[0], depth, onPath)
        case Some(selected) => Some([selected] + rest)
        case None => Some(rest)
  }

  /** One field: left out, selected as a leaf, or selected with a sub-selection. */
  function SelectField(schema: Schema, prune: Pruner, maxDepth: int, typeName: string, f: FieldDef,
                       depth: int, onPath: set<string>): Option<Selected>
    decreases Below(depth, maxDepth), 0, 0
  {
    if !Eligible(schema, prune, typeName, f) then None
    else if schema[f.typeName].Leaf? then Some(Selected(f.name, Unselected))
    else if depth >= maxDepth || f.typeName in onPath then None
    else
      match SelectionSet(schema, prune, maxDepth, f.typeName, depth + 1, onPath + {typeName})
      case None => None
      case Some(sub) => if sub == Unselected then None else Some(Selected(f.name, sub))
  }

  /** hasRequiredArgs loops over the arguments. */
  method FieldHasRequiredArgs(f: FieldDef) returns (required: bool)
    ensures required == HasRequiredArgs(f)
  {
    for i := 0 to |f.arguments|
      invariant forall k :: 0 <= k < i ==> !(f.arguments[k].nonNull && !f.arguments[k].hasDefault)
    {
      if f.arguments[i].nonNull && !f.arguments[i].hasDefault {
        return true;
      }
    }
    required := false;
  }

  /** selectionSet recurses with a cloned path and gathers fields in a loop. */
  method BuildSelectionSet(schema: Schema, prune: Pruner, maxDepth: int, typeName: string, depth: int,
                           onPath: set<string>) returns (selection: Option<Selection>)
    ensures selection == SelectionSet(schema, prune, maxDepth, typeName, depth, onPath)
    decreases Below(depth, maxDepth), 1
  {
    if typeName !in schema {
      return None;
    }
    match schema[typeName] {
      case Leaf =>
        return Some(Unselected);
      case Union =>
        return Some(TypenameOnly);
      case Composite(all) =>
        var fields: seq<Selected> := [];
        ghost var goal := SelectFields(schema, prune, maxDepth, typeName, all, depth, onPath);
        ghost var rest := goal;
        assert all[0..] == all;
        BehindNothing(goal);
        for i := 0 to |all|
          invariant rest == SelectFields(schema, prune, maxDepth, typeName, all[i..], depth, onPath)
          invariant goal == Behind(fields, rest)
        {
          assert all[i..][0] == all[i] && all[i..][1..] == all[i + 1..];
          if prune(typeName, all[i].name).None? {
            return None;
          }
          ghost var before := rest;
          rest := SelectFields(schema, prune, maxDepth, typeName, all[i + 1..], depth, onPath);
          var field := BuildField(schema, prune, maxDepth, typeName, all[i], depth, onPath);
          BehindOne(fields, field, rest);
          if field.Some? {
            fields := fields + [field.value];
          }
        }
        assert fields + [] == fields;
        return if fields == [] then None else Some(Select(fields));
    }
  }

  /** One round of the loop. */
  method BuildField(schema: Schema, prune: Pruner, maxDepth: int, typeName: string, f: FieldDef,
                    depth: int, onPath: set<string>) returns (field: Option<Selected>)
    requires prune(typeName, f.name).Some?
    ensures field == SelectField(schema, prune, maxDepth, typeName, f, depth, onPath)
    decreases Below(depth, maxDepth), 0
  {
    var required := FieldHasRequiredArgs(f);
    if "__" <= f.name || required || prune(typeName, f.name).value || f.typeName !in schema {
      return None;
    }
    if schema[f.typeName].Leaf? {
      return Some(Selected(f.name, Unselected));
    }
    if depth >= maxDepth || f.typeName in onPath {
      return None;
    }
    var sub := BuildSelectionSet(schema, prune, maxDepth, f.typeName, depth + 1, onPath + {typeName});
    if sub.None? || sub.value == Unselected {
      return None;
    }
    return Some(Selected(f.name, sub.value));
  }

  /** What was gathered, followed by what the remaining fields give. */
  function Behind(fields: seq<Selected>, rest: Option<seq<Selected>>): Option<seq<Selected>> {
    match rest
    case Some(more) => Some(fields + more)
    case None => None
  }

  lemma BehindNothing(rest: Option<seq<Selected>>)
    ensures Behind([], rest) == rest
  {
    if rest.Some? {
      assert [] + rest.value == rest.value;
    }
  }

  lemma BehindOne(fields: seq<Selected>, field: Option<Selected>, rest: Option<seq<Selected>>)
    ensures Behind(fields, match rest
                           case None => None
                           case Some(more) => Some((if field.Some? then [field.value] else []) + more))
         == Behind(if field.Some? then fields + [field.value] else fields, rest)
  {
    if rest.Some? {
      assert [] + rest.value == rest.value;
      assert field.Some? ==> fields + ([field.value] + rest.value) == fields + [field.value] + rest.value;
    }
  }
}
