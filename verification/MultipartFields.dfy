/** The fields of a multipart body (internal/codegen/normalize/params.go): unfolding references with a
    set of those on the current path, which is mutated and restored. */
module MultipartFields {
  import opened Wrappers
  import opened RawSchemas

  datatype ObjectFields = ObjectFields(properties: map<string, RawSchema>, required: seq<string>)

  /** multipartSchemaHasKeywords. */
  predicate HasKeywords(s: RawSchema)
    requires s.Raw?
  {
    || s.typ != NoType || s.format != NoFormat || s.enum != [] || s.properties != map[] || s.items != Nil
    || s.anyOf != [] || s.oneOf != [] || s.additional != NoAdditional
  }

  function Copied(s: RawSchema): ObjectFields
    requires s.Raw?
  {
    ObjectFields(s.properties, s.required)
  }

  /** The first occurrence of each name. */
  function FirstOccurrences(names: seq<string>): (firsts: seq<string>)
    ensures forall name :: name in firsts <==> name in names
  {
    if names == [] then []
    else
      var init, last := names[..|names| - 1], names[|names| - 1];
      assert names == init + [last];
      if last in init then FirstOccurrences(init) else FirstOccurrences(init) + [last]
  }

  function Merged(base: ObjectFields, extra: ObjectFields): ObjectFields {
    ObjectFields(extra.properties + base.properties, FirstOccurrences(base.required + extra.required))
  }

  predicate DeclaresObject(s: RawSchema)
    requires s.Raw?
  {
    s.typ == ObjectType || (s.typ == NoType && (s.properties != map[] || s.additional != NoAdditional))
  }

  function AllOfBase(s: RawSchema): ObjectFields
    requires s.Raw?
  {
    if s.typ == ObjectType || s.properties != map[] || s.additional != NoAdditional then Copied(s)
    else ObjectFields(map[], [])
  }

  /** The sibling part of a reference. */
  function Local(s: RawSchema): RawSchema
    requires s.Raw?
  {
    s.(ref := "")
  }

  predicate HasSiblings(s: RawSchema)
    requires s.Raw?
  {
    HasKeywords(s) || s.allOf != []
  }

  // ----- multipartObjectFields as a function of the references on the path

  function Fields(s: RawSchema, defs: Defs, path: set<string>): Option<ObjectFields>
    decreases Resolvable(defs) - path, s, 1, 0
  {
    if s.Nil? then None
    else if s.ref != "" then
      if s.ref in path || Resolve(s.ref, defs).Nil? then None
      else
        ResolvableRef(s.ref, defs);
        match Fields(Resolve(s.ref, defs), defs, path + {s.ref})
        case None => None
        case Some(base) =>
          if !HasSiblings(s) then Some(base)
          else
            match Fields(Local(s), defs, path + {s.ref})
            case Some(extra) => Some(Merged(base, extra))
            case None => None
    else if s.oneOf != [] || s.anyOf != [] then None
    else if s.allOf != [] then
      if s.typ != NoType && s.typ != ObjectType then None else FieldsOfAll(AllOfBase(s), s, 0, defs, path)
    else if DeclaresObject(s) then Some(Copied(s))
    else None
  }

  function FieldsOfAll(base: ObjectFields, s: RawSchema, i: nat, defs: Defs, path: set<string>): Option<ObjectFields>
    requires s.Raw? && i <= |s.allOf|
    decreases Resolvable(defs) - path, s, 0, |s.allOf| - i
  {
    if i == |s.allOf| then Some(base)
    else
      match Fields(s.allOf[i], defs, path)
      case Some(extra) => FieldsOfAll(Merged(base, extra), s, i + 1, defs, path)
      case None => None
  }

  // ----- the method and its shared set

  /** The set that the calls share. */
  class SeenRefs {
    var refs: set<string>

    constructor ()
      ensures refs == {}
    {
      refs := {};
    }
  }

  /** mergeMultipartFields' loop over the required names. */
  method DistinctNames(names: seq<string>) returns (required: seq<string>)
    ensures required == FirstOccurrences(names)
  {
    var seen: set<string> := {};
    required := [];
    for i := 0 to |names|
      invariant required == FirstOccurrences(names[..i])
      invariant forall name :: name in seen <==> name in names[..i]
    {
      assert names[..i + 1][..i] == names[..i];
      assert names[..i + 1] == names[..i] + [names[i]];
      if names[i] in seen {
        continue;
      }
      seen := seen + {names[i]};
      required := required + [names[i]];
    }
    assert names[..|names|] == names;
  }

  method Merge(base: ObjectFields, extra: ObjectFields) returns (merged: ObjectFields)
    ensures merged == Merged(base, extra)
  {
    var properties, left := base.properties, extra.properties.Keys;
    while left != {}
      invariant left <= extra.properties.Keys
      invariant forall name :: name in properties <==>
        name in base.properties || name in extra.properties.Keys - left
      invariant forall name :: name in properties ==>
        properties[name] == if name in base.properties then base.properties[name] else extra.properties[name]
    {
      var name :| name in left;
      if name !in properties {
        properties := properties[name := extra.properties[name]];
      }
      left := left - {name};
    }
    assert properties == extra.properties + base.properties;
    var required := DistinctNames(base.required + extra.required);
    merged := ObjectFields(properties, required);
  }

  /** Returns with the set exactly as it was on entry, on every way out. */
  method MultipartObjectFields(s: RawSchema, defs: Defs, seen: SeenRefs) returns (fields: Option<ObjectFields>)
    modifies seen
    ensures seen.refs == old(seen.refs)
    ensures fields == Fields(s, defs, old(seen.refs))
    decreases Resolvable(defs) - seen.refs, s, 2
  {
    if s.Nil? {
      return None;
    }
    if s.ref != "" {
      if s.ref in seen.refs {
        return None;
      }
      ghost var path := seen.refs;
      seen.refs := seen.refs + {s.ref};
      if Resolve(s.ref, defs).Raw? {
        ResolvableRef(s.ref, defs);
        fields := UnfoldReference(s, defs, seen);
      } else {
        fields := None;
      }
      seen.refs := seen.refs - {s.ref};
      assert seen.refs == path;
      return;
    }
    if s.oneOf != [] || s.anyOf != [] {
      return None;
    }
    if s.allOf != [] {
      if s.typ != NoType && s.typ != ObjectType {
        return None;
      }
      fields := MergeAllOf(s, defs, seen);
      return;
    }
    return if DeclaresObject(s) then Some(Copied(s)) else None;
  }

  /** The target's fields, then those beside the reference. */
  method UnfoldReference(s: RawSchema, defs: Defs, seen: SeenRefs) returns (fields: Option<ObjectFields>)
    requires s.Raw? && s.ref != "" && s.ref in seen.refs && s.ref in Resolvable(defs) && Resolve(s.ref, defs).Raw?
    modifies seen
    ensures seen.refs == old(seen.refs)
    ensures fields == match Fields(Resolve(s.ref, defs), defs, old(seen.refs))
                      case None => None
                      case Some(base) =>
                        if !HasSiblings(s) then Some(base)
                        else
                          match Fields(Local(s), defs, old(seen.refs))
                          case Some(extra) => Some(Merged(base, extra))
                          case None => None
    decreases Resolvable(defs) - (seen.refs - {s.ref}), s, 0
  {
    assert s.ref in Resolvable(defs) - (seen.refs - {s.ref}) && s.ref !in Resolvable(defs) - seen.refs;
    fields := MultipartObjectFields(Resolve(s.ref, defs), defs, seen);
    if fields.None? || !HasSiblings(s) {
      return;
    }
    var extra := MultipartObjectFields(Local(s), defs, seen);
    if extra.None? {
      return None;
    }
    var merged := Merge(fields.value, extra.value);
    fields := Some(merged);
  }

  method MergeAllOf(s: RawSchema, defs: Defs, seen: SeenRefs) returns (fields: Option<ObjectFields>)
    requires s.Raw?
    modifies seen
    ensures seen.refs == old(seen.refs)
    ensures fields == FieldsOfAll(AllOfBase(s), s, 0, defs, old(seen.refs))
    decreases Resolvable(defs) - seen.refs, s, 1
  {
    var merged := AllOfBase(s);
    for i := 0 to |s.allOf|
      invariant seen.refs == old(seen.refs)
      invariant FieldsOfAll(merged, s, i, defs, seen.refs) == FieldsOfAll(AllOfBase(s), s, 0, defs, seen.refs)
    {
      var child := MultipartObjectFields(s.allOf[i], defs, seen);
      if child.None? {
        return None;
      }
      merged := Merge(merged, child.value);
    }
    fields := Some(merged);
  }
}
