/** Compiled schemas as JSON and back (pkg/runtime/spec.go). */
module SchemaJson {
  import opened RawSchemas
  import opened SchemaCompiler
  import opened StaticDocuments

  // ----- reading

  function TextAt(m: map<Keyword, Doc>, key: Keyword): string {
    if key in m && m[key].StrDoc? then m[key].s else ""
  }

  function TypeAt(m: map<Keyword, Doc>): SchemaType {
    if TypeKey in m && m[TypeKey].TypeDoc? then m[TypeKey].typ else NoType
  }

  function TextsAt(m: map<Keyword, Doc>, key: Keyword): seq<string> {
    if key in m then TextsOf(m[key]) else []
  }

  function TextsOf(doc: Doc): seq<string> {
    if !doc.ListDoc? then []
    else seq(|doc.items|, i requires 0 <= i < |doc.items| => if doc.items[i].StrDoc? then doc.items[i].s else "")
  }

  function AdditionalOf(doc: Doc): AdditionalSpec
    decreases doc, 1
  {
    match doc
    case BoolDoc(allowed) => AdditionalSpec(allowed, NilSpec)
    case SchemaDoc(_) => AdditionalSpec(false, Unmarshal(doc))
    case _ => NoAdditionalSpec
  }

  /** json.Unmarshal: absent members stay zero, and null is a nil schema. */
  function Unmarshal(doc: Doc): SchemaSpec
    decreases doc, 0
  {
    if !doc.SchemaDoc? then NilSpec
    else
      var m := doc.keywords;
      Spec(
        TextAt(m, RefKey), TypeAt(m), FormatOf(m), NullableIn(m), TextsAt(m, EnumKey),
        if PropertiesKey in m then UnmarshalMembers(m[PropertiesKey]) else map[],
        TextsAt(m, RequiredKey),
        if ItemsKey in m then Unmarshal(m[ItemsKey]) else NilSpec,
        if AnyOfKey in m then UnmarshalList(m[AnyOfKey]) else [],
        if OneOfKey in m then UnmarshalList(m[OneOfKey]) else [],
        if AllOfKey in m then UnmarshalList(m[AllOfKey]) else [],
        if AdditionalKey in m then AdditionalOf(m[AdditionalKey]) else NoAdditionalSpec)
  }

  function UnmarshalMembers(doc: Doc): map<string, SchemaSpec>
    decreases doc, 1
  {
    if doc.NamedDoc? then map name | name in doc.members :: Unmarshal(doc.members[name]) else map[]
  }

  function UnmarshalList(doc: Doc): seq<SchemaSpec>
    decreases doc, 1
  {
    if doc.ListDoc? then seq(|doc.items|, i requires 0 <= i < |doc.items| => Unmarshal(doc.items[i])) else []
  }

  // ----- the round trip

  /** The JSON of additionalProperties is a schema or a boolean, never both. */
  predicate OneAdditional(s: SchemaSpec) {
    s.Spec? ==>
      && AdditionalAlone(s.additional)
      && (forall name :: name in s.properties ==> OneAdditional(s.properties[name]))
      && OneAdditional(s.items)
      && (forall i :: 0 <= i < |s.anyOf| ==> OneAdditional(s.anyOf[i]))
      && (forall i :: 0 <= i < |s.oneOf| ==> OneAdditional(s.oneOf[i]))
      && (forall i :: 0 <= i < |s.allOf| ==> OneAdditional(s.allOf[i]))
  }

  predicate AdditionalAlone(a: AdditionalSpec) {
    a.AdditionalSpec? ==> OneAdditional(a.schema) && (a.schema.Spec? ==> !a.allowed)
  }

  lemma Marshalled(s: SchemaSpec, key: Keyword)
    requires s.Spec?
    ensures var m := Marshal(s).keywords;
            && (key in m <==> key in MEMBERS && Present(s, key))
            && (key in m ==> m[key] == MemberValue(s, key))
  {
  }

  lemma ScalarsBack(s: SchemaSpec)
    requires s.Spec?
    ensures var back := Unmarshal(Marshal(s));
            && back.Spec? && back.ref == s.ref && back.typ == s.typ && back.format == s.format
            && back.nullable == s.nullable && back.enum == s.enum && back.required == s.required
  {
    Marshalled(s, RefKey);
    Marshalled(s, TypeKey);
    Marshalled(s, FormatKey);
    Marshalled(s, NullableKey);
    Marshalled(s, EnumKey);
    Marshalled(s, RequiredKey);
  }

  lemma {:induction false} ListBack(list: seq<SchemaSpec>)
    ensures UnmarshalList(ListDoc(seq(|list|, i requires 0 <= i < |list| => Marshal(list[i])))) == list
       <==> forall i :: 0 <= i < |list| ==> OneAdditional(list[i])
    decreases list, 0
  {
    forall i | 0 <= i < |list| ensures Unmarshal(Marshal(list[i])) == list[i] <==> OneAdditional(list[i]) {
      RoundTripIff(list[i]);
    }
    var back := UnmarshalList(ListDoc(seq(|list|, i requires 0 <= i < |list| => Marshal(list[i]))));
    assert |back| == |list| && forall i :: 0 <= i < |list| ==> back[i] == Unmarshal(Marshal(list[i]));
  }

  /** What is read from each member. */
  lemma Parts(m: map<Keyword, Doc>)
    ensures var back := Unmarshal(SchemaDoc(m));
            && back.properties == (if PropertiesKey in m then UnmarshalMembers(m[PropertiesKey]) else map[])
            && back.items == (if ItemsKey in m then Unmarshal(m[ItemsKey]) else NilSpec)
            && back.anyOf == (if AnyOfKey in m then UnmarshalList(m[AnyOfKey]) else [])
            && back.oneOf == (if OneOfKey in m then UnmarshalList(m[OneOfKey]) else [])
            && back.allOf == (if AllOfKey in m then UnmarshalList(m[AllOfKey]) else [])
            && back.additional == (if AdditionalKey in m then AdditionalOf(m[AdditionalKey]) else NoAdditionalSpec)
  {
  }

  lemma {:induction false} AnyOfBack(s: SchemaSpec, m: map<Keyword, Doc>)
    requires s.Spec? && m == Marshal(s).keywords
    ensures Unmarshal(SchemaDoc(m)).anyOf == s.anyOf
       <==> forall i :: 0 <= i < |s.anyOf| ==> OneAdditional(s.anyOf[i])
    decreases s, 0
  {
    Parts(m);
    Marshalled(s, AnyOfKey);
    ListBack(s.anyOf);
  }

  lemma {:induction false} OneOfBack(s: SchemaSpec, m: map<Keyword, Doc>)
    requires s.Spec? && m == Marshal(s).keywords
    ensures Unmarshal(SchemaDoc(m)).oneOf == s.oneOf
       <==> forall i :: 0 <= i < |s.oneOf| ==> OneAdditional(s.oneOf[i])
    decreases s, 0
  {
    Parts(m);
    Marshalled(s, OneOfKey);
    ListBack(s.oneOf);
  }

  lemma {:induction false} AllOfBack(s: SchemaSpec, m: map<Keyword, Doc>)
    requires s.Spec? && m == Marshal(s).keywords
    ensures Unmarshal(SchemaDoc(m)).allOf == s.allOf
       <==> forall i :: 0 <= i < |s.allOf| ==> OneAdditional(s.allOf[i])
    decreases s, 0
  {
    Parts(m);
    Marshalled(s, AllOfKey);
    ListBack(s.allOf);
  }

  function MembersOf(s: SchemaSpec): map<string, Doc>
    requires s.Spec?
  {
    map name | name in s.properties :: Marshal(s.properties[name])
  }

  lemma {:induction false} MembersBack(s: SchemaSpec)
    requires s.Spec?
    ensures UnmarshalMembers(NamedDoc(MembersOf(s))) == s.properties
       <==> forall name :: name in s.properties ==> OneAdditional(s.properties[name])
    decreases s, 0, 0
  {
    var members := MembersOf(s);
    var back := map name | name in members :: Unmarshal(members[name]);
    assert back.Keys == s.properties.Keys;
    forall name | name in s.properties ensures back[name] == s.properties[name] <==> OneAdditional(s.properties[name]) {
      RoundTripIff(s.properties[name]);
    }
  }

  lemma {:induction false} PropertiesBack(s: SchemaSpec, m: map<Keyword, Doc>)
    requires s.Spec? && m == Marshal(s).keywords
    ensures Unmarshal(SchemaDoc(m)).properties == s.properties
       <==> forall name :: name in s.properties ==> OneAdditional(s.properties[name])
    decreases s, 0, 1
  {
    Parts(m);
    Marshalled(s, PropertiesKey);
    MembersBack(s);
    assert MemberValue(s, PropertiesKey) == NamedDoc(MembersOf(s));
  }

  lemma {:induction false} ItemsBack(s: SchemaSpec, m: map<Keyword, Doc>)
    requires s.Spec? && m == Marshal(s).keywords
    ensures Unmarshal(SchemaDoc(m)).items == s.items <==> OneAdditional(s.items)
    decreases s, 0
  {
    Parts(m);
    Marshalled(s, ItemsKey);
    RoundTripIff(s.items);
  }

  lemma {:induction false} AdditionalValueBack(s: SchemaSpec, value: Doc)
    requires s.Spec? && s.additional.AdditionalSpec? && value == MemberValue(s, AdditionalKey)
    ensures AdditionalOf(value) == s.additional <==> AdditionalAlone(s.additional)
    decreases s, 0, 0
  {
    RoundTripIff(s.additional.schema);
  }

  lemma {:induction false} AdditionalBack(s: SchemaSpec, m: map<Keyword, Doc>)
    requires s.Spec? && m == Marshal(s).keywords
    ensures Unmarshal(SchemaDoc(m)).additional == s.additional <==> AdditionalAlone(s.additional)
    decreases s, 0, 1
  {
    Parts(m);
    Marshalled(s, AdditionalKey);
    if s.additional.AdditionalSpec? {
      AdditionalValueBack(s, m[AdditionalKey]);
    }
  }

  /** A compiled schema comes back from its JSON exactly when no additionalProperties holds both a schema and
      the permission that the schema replaces. */
  lemma {:induction false} RoundTripIff(s: SchemaSpec)
    ensures Unmarshal(Marshal(s)) == s <==> OneAdditional(s)
    decreases s, 1
  {
    if s.Spec? {
      var m := Marshal(s).keywords;
      ScalarsBack(s);
      AnyOfBack(s, m);
      OneOfBack(s, m);
      AllOfBack(s, m);
      PropertiesBack(s, m);
      ItemsBack(s, m);
      AdditionalBack(s, m);
    }
  }
}
