/** Every generated selection set is valid (section 5.3.3 of the GraphQL specification, October 2021),
    bounded in depth and complete; and when one exists at all. */
module SelectionLaws {
  import opened Selections

  // ----- validity

  /** The selected fields name fields of the list, in its order, and each is validly selected. */
  predicate ValidFields(schema: Schema, prune: Pruner, levels: nat, typeName: string, fields: seq<FieldDef>,
                        selected: seq<Selected>)
    decreases selected, 0, |fields|
  {
    if selected == [] then true
    else if fields == [] then false
    else
      || ValidFields(schema, prune, levels, typeName, fields[1..], selected)
      || (ValidField(schema, prune, levels, typeName, fields[0], selected[0])
          && ValidFields(schema, prune, levels, typeName, fields[1..], selected[1..]))
  }

  /** A leaf has no sub-selection, any other field a non-empty one; nothing pruned, nothing that needs an
      argument, and no level beyond the limit. */
  predicate ValidField(schema: Schema, prune: Pruner, levels: nat, typeName: string, f: FieldDef, selected: Selected)
    decreases selected, 0, 0
  {
    && selected.name == f.name && Selectable(schema, prune, typeName, f)
    && if schema[f.typeName].Leaf? then selected.sub == Unselected
       else levels > 0 && selected.sub != Unselected && Valid(schema, prune, levels - 1, f.typeName, selected.sub)
  }

  predicate Valid(schema: Schema, prune: Pruner, levels: nat, typeName: string, selection: Selection)
    decreases selection, 1, 0
  {
    && typeName in schema
    && match selection
       case Unselected => schema[typeName].Leaf?
       case TypenameOnly => schema[typeName].Union?
       case Select(selected) =>
         schema[typeName].Composite? && selected != []
         && ValidFields(schema, prune, levels, typeName, schema[typeName].fields, selected)
  }

  lemma {:induction false} SelectionValid(schema: Schema, prune: Pruner, maxDepth: int, typeName: string, depth: int,
                                          onPath: set<string>)
    requires SelectionSet(schema, prune, maxDepth, typeName, depth, onPath).Some?
    ensures Valid(schema, prune, Below(depth, maxDepth), typeName,
                  SelectionSet(schema, prune, maxDepth, typeName, depth, onPath).value)
    decreases Below(depth, maxDepth), 1, 0
  {
    if schema[typeName].Composite? {
      FieldsValid(schema, prune, maxDepth, typeName, schema[typeName].fields, depth, onPath);
    }
  }

  lemma {:induction false} FieldsValid(schema: Schema, prune: Pruner, maxDepth: int, typeName: string,
                                       fields: seq<FieldDef>, depth: int, onPath: set<string>)
    requires SelectFields(schema, prune, maxDepth, typeName, fields, depth, onPath).Some?
    ensures ValidFields(schema, prune, Below(depth, maxDepth), typeName, fields,
                        SelectFields(schema, prune, maxDepth, typeName, fields, depth, onPath).value)
    decreases Below(depth, maxDepth), 0, |fields|
  {
    if fields == [] {
    } else {
      FieldsValid(schema, prune, maxDepth, typeName, fields[1..], depth, onPath);
      var rest := SelectFields(schema, prune, maxDepth, typeName, fields[1..], depth, onPath).value;
      var field := SelectField(schema, prune, maxDepth, typeName, fields[0], depth, onPath);
      if field.Some? {
        FieldValid(schema, prune, maxDepth, typeName, fields[0], depth, onPath);
        assert ([field.value] + rest)[1..] == rest;
      }
    }
  }

  lemma {:induction false} FieldValid(schema: Schema, prune: Pruner, maxDepth: int, typeName: string, f: FieldDef,
                                      depth: int, onPath: set<string>)
    requires SelectField(schema, prune, maxDepth, typeName, f, depth, onPath).Some?
    ensures ValidField(schema, prune, Below(depth, maxDepth), typeName, f,
                       SelectField(schema, prune, maxDepth, typeName, f, depth, onPath).value)
    decreases Below(depth, maxDepth), 0, 0
  {
    if !schema[f.typeName].Leaf? {
      SelectionValid(schema, prune, maxDepth, f.typeName, depth + 1, onPath + {typeName});
    }
  }

  // ----- depth

  function Height(selection: Selection): nat
    decreases selection, 1
  {
    match selection
    case Unselected => 0
    case TypenameOnly => 1
    case Select(fields) => 1 + Highest(fields)
  }

  function Highest(fields: seq<Selected>): nat
    decreases fields, 0
  {
    if fields == [] then 0
    else
      var rest := Highest(fields[1..]);
      var first := Height(fields[0].sub);
      if first > rest then first else rest
  }

  lemma {:induction false} ValidHeight(schema: Schema, prune: Pruner, levels: nat, typeName: string,
                                       selection: Selection)
    requires Valid(schema, prune, levels, typeName, selection)
    ensures Height(selection) <= levels + 1
    decreases selection, 1, 0
  {
    if selection.Select? {
      ValidHighest(schema, prune, levels, typeName, schema[typeName].fields, selection.fields);
    }
  }

  lemma {:induction false} ValidHighest(schema: Schema, prune: Pruner, levels: nat, typeName: string,
                                        fields: seq<FieldDef>, selected: seq<Selected>)
    requires ValidFields(schema, prune, levels, typeName, fields, selected)
    ensures Highest(selected) <= levels
    decreases selected, 0, |fields|
  {
    if selected == [] {
    } else {
      if ValidFields(schema, prune, levels, typeName, fields[1..], selected) {
        ValidHighest(schema, prune, levels, typeName, fields[1..], selected);
      } else {
        ValidHighest(schema, prune, levels, typeName, fields[1..], selected[1..]);
        if !schema[fields[0].typeName].Leaf? {
          ValidHeight(schema, prune, levels - 1, fields[0].typeName, selected[0].sub);
        }
      }
    }
  }

  /** At the call's depth of one, no selection set is nested deeper than the limit. */
  lemma SelectionBounded(schema: Schema, prune: Pruner, maxDepth: int, typeName: string)
    requires maxDepth > 0 && SelectionSet(schema, prune, maxDepth, typeName, 1, {}).Some?
    ensures Height(SelectionSet(schema, prune, maxDepth, typeName, 1, {}).value) <= maxDepth
  {
    SelectionValid(schema, prune, maxDepth, typeName, 1, {});
    ValidHeight(schema, prune, Below(1, maxDepth), typeName,
                SelectionSet(schema, prune, maxDepth, typeName, 1, {}).value);
  }

  // ----- when there is one

  /** No pruning pattern fails on a field of the type. */
  predicate PruneWorks(prune: Pruner, typeName: string, fields: seq<FieldDef>) {
    forall i :: 0 <= i < |fields| ==> prune(typeName, fields[i].name).Some?
  }

  /** A walk along selectable fields within the depth limit, through types that are not on the path, to a
      leaf field or a union. */
  predicate Walks(schema: Schema, prune: Pruner, maxDepth: int, typeName: string, depth: int, onPath: set<string>,
                  walk: seq<FieldDef>)
    decreases |walk|
  {
    && typeName in schema
    && match schema[typeName]
       case Leaf => walk == []
       case Union => walk == []
       case Composite(fields) =>
         && PruneWorks(prune, typeName, fields)
         && walk != [] && walk[0] in fields && Selectable(schema, prune, typeName, walk[0])
         && if schema[walk[0].typeName].Leaf? then |walk| == 1
            else depth < maxDepth && walk[0].typeName !in onPath
                 && Walks(schema, prune, maxDepth, walk[0].typeName, depth + 1, onPath + {typeName}, walk[1..])
  }

  ghost predicate Reaches(schema: Schema, prune: Pruner, maxDepth: int, typeName: string, depth: int,
                          onPath: set<string>)
  {
    exists walk :: Walks(schema, prune, maxDepth, typeName, depth, onPath, walk)
  }

  /** The field of a type would be selected. */
  ghost predicate Offers(schema: Schema, prune: Pruner, maxDepth: int, typeName: string, depth: int,
                         onPath: set<string>, f: FieldDef)
  {
    Selectable(schema, prune, typeName, f)
    && (schema[f.typeName].Leaf?
        || (depth < maxDepth && f.typeName !in onPath
            && Reaches(schema, prune, maxDepth, f.typeName, depth + 1, onPath + {typeName})))
  }

  lemma {:induction false} FieldsExist(schema: Schema, prune: Pruner, maxDepth: int, typeName: string,
                                       fields: seq<FieldDef>, depth: int, onPath: set<string>)
    ensures SelectFields(schema, prune, maxDepth, typeName, fields, depth, onPath).Some?
       <==> PruneWorks(prune, typeName, fields)
    decreases |fields|
  {
    if fields == [] {
    } else {
      FieldsExist(schema, prune, maxDepth, typeName, fields[1..], depth, onPath);
      assert forall i :: 0 < i < |fields| ==> fields[i] == fields[1..][i - 1];
    }
  }

  /** Some field is selected exactly when one of them is. */
  lemma {:induction false} FieldsNonEmpty(schema: Schema, prune: Pruner, maxDepth: int, typeName: string,
                                          fields: seq<FieldDef>, depth: int, onPath: set<string>)
    requires SelectFields(schema, prune, maxDepth, typeName, fields, depth, onPath).Some?
    ensures SelectFields(schema, prune, maxDepth, typeName, fields, depth, onPath).value != []
       <==> exists f :: f in fields && SelectField(schema, prune, maxDepth, typeName, f, depth, onPath).Some?
    decreases |fields|
  {
    if fields == [] {
    } else {
      FieldsNonEmpty(schema, prune, maxDepth, typeName, fields[1..], depth, onPath);
      assert fields[0] in fields && forall f :: f in fields <==> f == fields[0] || f in fields[1..];
      var rest := SelectFields(schema, prune, maxDepth, typeName, fields[1..], depth, onPath).value;
      var field := SelectField(schema, prune, maxDepth, typeName, fields[0], depth, onPath);
      assert SelectFields(schema, prune, maxDepth, typeName, fields, depth, onPath).value
          == (if field.Some? then [field.value] else []) + rest;
    }
  }

  /** A field is selected exactly when it leads to a leaf or a union within the limits. */
  lemma {:induction false} FieldSelectedIff(schema: Schema, prune: Pruner, maxDepth: int, typeName: string, f: FieldDef,
                                            depth: int, onPath: set<string>)
    ensures SelectField(schema, prune, maxDepth, typeName, f, depth, onPath).Some?
       <==> Offers(schema, prune, maxDepth, typeName, depth, onPath, f)
    decreases Below(depth, maxDepth), 0
  {
    EligibleIsSelectable(schema, prune, typeName, f);
    if Eligible(schema, prune, typeName, f) && !schema[f.typeName].Leaf? && depth < maxDepth && f.typeName !in onPath {
      SelectionExistsIff(schema, prune, maxDepth, f.typeName, depth + 1, onPath + {typeName});
    }
  }

  /** A selection set is generated exactly when some walk along selectable fields, within the depth limit
      and off the path, reaches a leaf or a union, and no pruning pattern on its way is malformed. */
  lemma {:induction false} SelectionExistsIff(schema: Schema, prune: Pruner, maxDepth: int, typeName: string,
                                              depth: int, onPath: set<string>)
    ensures SelectionSet(schema, prune, maxDepth, typeName, depth, onPath).Some?
       <==> Reaches(schema, prune, maxDepth, typeName, depth, onPath)
    decreases Below(depth, maxDepth), 1
  {
    if typeName in schema {
      match schema[typeName] {
        case Leaf =>
          assert Walks(schema, prune, maxDepth, typeName, depth, onPath, []);
        case Union =>
          assert Walks(schema, prune, maxDepth, typeName, depth, onPath, []);
        case Composite(fields) =>
          FieldsExist(schema, prune, maxDepth, typeName, fields, depth, onPath);
          forall f ensures SelectField(schema, prune, maxDepth, typeName, f, depth, onPath).Some?
                      <==> Offers(schema, prune, maxDepth, typeName, depth, onPath, f) {
            FieldSelectedIff(schema, prune, maxDepth, typeName, f, depth, onPath);
          }
          if PruneWorks(prune, typeName, fields) {
            FieldsNonEmpty(schema, prune, maxDepth, typeName, fields, depth, onPath);
            CompositeReaches(schema, prune, maxDepth, typeName, depth, onPath);
          }
      }
    }
  }

  lemma CompositeReaches(schema: Schema, prune: Pruner, maxDepth: int, typeName: string, depth: int,
                         onPath: set<string>)
    requires typeName in schema && schema[typeName].Composite? && PruneWorks(prune, typeName, schema[typeName].fields)
    ensures Reaches(schema, prune, maxDepth, typeName, depth, onPath)
       <==> exists f :: f in schema[typeName].fields && Offers(schema, prune, maxDepth, typeName, depth, onPath, f)
  {
    var fields := schema[typeName].fields;
    if Reaches(schema, prune, maxDepth, typeName, depth, onPath) {
      var walk: seq<FieldDef> :| Walks(schema, prune, maxDepth, typeName, depth, onPath, walk);
      if !schema[walk[0].typeName].Leaf? {
        assert Walks(schema, prune, maxDepth, walk[0].typeName, depth + 1, onPath + {typeName}, walk[1..]);
      }
      assert Offers(schema, prune, maxDepth, typeName, depth, onPath, walk[0]);
    }
    if f :| f in fields && Offers(schema, prune, maxDepth, typeName, depth, onPath, f) {
      if schema[f.typeName].Leaf? {
        assert Walks(schema, prune, maxDepth, typeName, depth, onPath, [f]);
      } else {
        var rest: seq<FieldDef> :| Walks(schema, prune, maxDepth, f.typeName, depth + 1, onPath + {typeName}, rest);
        assert ([f] + rest)[1..] == rest;
        assert Walks(schema, prune, maxDepth, typeName, depth, onPath, [f] + rest);
      }
    }
  }

  // ----- completeness

  /** The names of a type's fields that lead somewhere, in order. */
  ghost function Offered(schema: Schema, prune: Pruner, maxDepth: int, typeName: string, fields: seq<FieldDef>,
                         depth: int, onPath: set<string>): seq<string> {
    if fields == [] then []
    else
      (if Offers(schema, prune, maxDepth, typeName, depth, onPath, fields[0]) then [fields[0].name] else [])
      + Offered(schema, prune, maxDepth, typeName, fields[1..], depth, onPath)
  }

  function Names(selected: seq<Selected>): (names: seq<string>)
    ensures |names| == |selected| && forall i :: 0 <= i < |selected| ==> names[i] == selected[i].name
  {
    seq(|selected|, i requires 0 <= i < |selected| => selected[i].name)
  }

  /** Exactly the fields that lead to a leaf or a union are selected, in schema order. */
  lemma {:induction false} SelectsOffered(schema: Schema, prune: Pruner, maxDepth: int, typeName: string,
                                          fields: seq<FieldDef>, depth: int, onPath: set<string>)
    requires SelectFields(schema, prune, maxDepth, typeName, fields, depth, onPath).Some?
    ensures Names(SelectFields(schema, prune, maxDepth, typeName, fields, depth, onPath).value)
         == Offered(schema, prune, maxDepth, typeName, fields, depth, onPath)
    decreases |fields|
  {
    if fields == [] {
    } else {
      SelectsOffered(schema, prune, maxDepth, typeName, fields[1..], depth, onPath);
      FieldSelectedIff(schema, prune, maxDepth, typeName, fields[0], depth, onPath);
    }
  }
}
