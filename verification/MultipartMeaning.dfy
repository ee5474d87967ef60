/** What the fields of a multipart body are, keyword by keyword (internal/codegen/normalize/params.go). */
module MultipartMeaning {
  import opened Wrappers
  import opened RawSchemas
  import opened MultipartFields
  import opened MultipartLaws

  /** A schema without reference and allOf has fields exactly when it is an object without alternatives, by its
      type or, untyped, by its properties or additionalProperties: its own, as declared. */
  lemma PlainFields(s: RawSchema, defs: Defs, path: set<string>)
    requires s.Raw? && s.ref == "" && s.allOf == []
    ensures Fields(s, defs, path) ==
      if && s.anyOf == [] && s.oneOf == []
         && (s.typ == ObjectType || (s.typ == NoType && (s.properties != map[] || s.additional.Additional?)))
      then Some(ObjectFields(s.properties, s.required))
      else None
  {
  }

  // ----- composing fields

  function MergedAll(base: ObjectFields, list: seq<ObjectFields>): ObjectFields
    decreases |list|
  {
    if list == [] then base else MergedAll(Merged(base, list[0]), list[1..])
  }

  predicate SomeDeclares(list: seq<ObjectFields>, name: string) {
    exists i :: 0 <= i < |list| && name in list[i].properties
  }

  predicate SomeRequires(list: seq<ObjectFields>, name: string) {
    exists i :: 0 <= i < |list| && name in list[i].required
  }

  /** The first in the list that declares the name declares it so. */
  predicate DeclaredFirst(list: seq<ObjectFields>, name: string, property: RawSchema) {
    exists i :: 0 <= i < |list| && !SomeDeclares(list[..i], name)
                && name in list[i].properties && list[i].properties[name] == property
  }

  lemma Tail(list: seq<ObjectFields>, name: string)
    requires list != []
    ensures SomeDeclares(list, name) <==> name in list[0].properties || SomeDeclares(list[1..], name)
    ensures SomeRequires(list, name) <==> name in list[0].required || SomeRequires(list[1..], name)
    ensures name in list[0].properties ==> DeclaredFirst(list, name, list[0].properties[name])
    ensures name !in list[0].properties ==> forall property ::
      DeclaredFirst(list[1..], name, property) ==> DeclaredFirst(list, name, property)
  {
    var rest := list[1..];
    assert forall i :: 0 < i < |list| ==> list[i] == rest[i - 1];
    assert !SomeDeclares(list[..0], name);
    if name !in list[0].properties {
      forall property | DeclaredFirst(rest, name, property) ensures DeclaredFirst(list, name, property) {
        var i :| 0 <= i < |rest| && !SomeDeclares(rest[..i], name)
              && name in rest[i].properties && rest[i].properties[name] == property;
        assert list[..i + 1] == [list[0]] + rest[..i];
        assert list[i + 1] == rest[i] && !SomeDeclares(list[..i + 1], name);
      }
    }
  }

  /** In a composition the base wins, then the first that declares a name; requirements add up. */
  lemma {:induction false} MergedAllMeans(base: ObjectFields, list: seq<ObjectFields>, name: string)
    ensures var all := MergedAll(base, list);
            && (name in all.properties <==> name in base.properties || SomeDeclares(list, name))
            && (name in base.properties ==> all.properties[name] == base.properties[name])
            && (name in all.properties && name !in base.properties ==>
                  DeclaredFirst(list, name, all.properties[name]))
            && (name in all.required <==> name in base.required || SomeRequires(list, name))
    decreases |list|
  {
    if list == [] {
    } else {
      var at := MergedMeans(base, list[0]);
      MergedAllMeans(Merged(base, list[0]), list[1..], name);
      Tail(list, name);
    }
  }

  // ----- allOf

  predicate AllHaveFields(parts: seq<RawSchema>, defs: Defs, path: set<string>) {
    forall i :: 0 <= i < |parts| ==> Fields(parts[i], defs, path).Some?
  }

  function FieldsOf(parts: seq<RawSchema>, defs: Defs, path: set<string>): (list: seq<ObjectFields>)
    requires AllHaveFields(parts, defs, path)
  {
    seq(|parts|, i requires 0 <= i < |parts| => Fields(parts[i], defs, path).value)
  }

  lemma {:induction false} MembersMerge(base: ObjectFields, s: RawSchema, i: nat, defs: Defs, path: set<string>)
    requires s.Raw? && i <= |s.allOf|
    ensures FieldsOfAll(base, s, i, defs, path).Some? <==> AllHaveFields(s.allOf[i..], defs, path)
    ensures AllHaveFields(s.allOf[i..], defs, path) ==>
      FieldsOfAll(base, s, i, defs, path) == Some(MergedAll(base, FieldsOf(s.allOf[i..], defs, path)))
    decreases |s.allOf| - i
  {
    var parts := s.allOf[i..];
    if i == |s.allOf| {
    } else {
      assert parts[0] == s.allOf[i] && parts[1..] == s.allOf[i + 1..];
      var first := Fields(s.allOf[i], defs, path);
      if first.Some? {
        MembersMerge(Merged(base, first.value), s, i + 1, defs, path);
        if AllHaveFields(parts[1..], defs, path) {
          assert forall j :: 0 < j < |parts| ==> parts[j] == parts[1..][j - 1];
          assert FieldsOf(parts, defs, path)[1..] == FieldsOf(parts[1..], defs, path);
        }
      }
    }
  }

  /** What a schema with allOf declares beside it; requirements alone do not count. */
  function OwnFields(s: RawSchema): ObjectFields
    requires s.Raw?
  {
    if s.typ == NoType && s.properties == map[] && s.additional.NoAdditional? then ObjectFields(map[], [])
    else ObjectFields(s.properties, s.required)
  }

  /** A schema with allOf has fields exactly when all members have, it has no alternatives and is not typed as
      anything but an object: its own and those of the members, composed in order. */
  lemma AllOfFields(s: RawSchema, defs: Defs, path: set<string>)
    requires s.Raw? && s.ref == "" && s.allOf != []
    ensures Fields(s, defs, path).Some? <==>
              && s.anyOf == [] && s.oneOf == [] && (s.typ == NoType || s.typ == ObjectType)
              && AllHaveFields(s.allOf, defs, path)
    ensures Fields(s, defs, path).Some? ==>
      Fields(s, defs, path).value == MergedAll(OwnFields(s), FieldsOf(s.allOf, defs, path))
  {
    MembersMerge(AllOfBase(s), s, 0, defs, path);
    assert s.allOf[0..] == s.allOf;
  }

  // ----- references

  /** The keywords that make a reference more than a reference; requirements alone are not among them. */
  predicate HasMore(s: RawSchema)
    requires s.Raw?
  {
    !(s.typ == NoType && s.format == NoFormat && s.enum == [] && s.properties == map[] && s.items.Nil?
      && s.anyOf == [] && s.oneOf == [] && s.allOf == [] && s.additional.NoAdditional?)
  }

  /** A reference has fields exactly when it is not on the path, its target has them and so has what stands beside
      it, if anything does: those of the target first. */
  lemma ReferenceFields(s: RawSchema, defs: Defs, path: set<string>)
    requires s.Raw? && s.ref != ""
    ensures var target := Fields(Resolve(s.ref, defs), defs, path + {s.ref});
            var beside := Fields(s.(ref := ""), defs, path + {s.ref});
            && (Fields(s, defs, path).Some? <==>
                  s.ref !in path && target.Some? && (HasMore(s) ==> beside.Some?))
            && (Fields(s, defs, path).Some? ==>
                  Fields(s, defs, path).value ==
                  MergedAll(target.value, if HasMore(s) then [beside.value] else []))
  {
  }
}
