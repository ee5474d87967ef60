/** The JSON document handed to the schema validator (pkg/runtime/static_schema.go) and its meaning. */
module StaticDocuments {
  import opened JsonValues
  import opened Occurrences
  import opened RawSchemas
  import opened SchemaCompiler
  import opened SchemaMeaning

  datatype Keyword =
    | RefKey | TypeKey | FormatKey | NullableKey | EnumKey | PropertiesKey | RequiredKey | ItemsKey
    | AnyOfKey | OneOfKey | AllOfKey | AdditionalKey | OtherKey(name: string)

  /** The JSON of a schema. An object in schema position is keyed by keyword, the one under
      `properties` by property name; type and format names are already classified. */
  datatype Doc =
    | NullDoc
    | BoolDoc(b: bool)
    | TypeDoc(typ: SchemaType)
    | FormatDoc(format: Format)
    | StrDoc(s: string)
    | ListDoc(items: seq<Doc>)
    | NamedDoc(members: map<string, Doc>)
    | SchemaDoc(keywords: map<Keyword, Doc>)

  // ----- json.Marshal of a compiled schema: empty members are omitted

  function Strings(names: seq<string>): Doc {
    ListDoc(seq(|names|, i requires 0 <= i < |names| => StrDoc(names[i])))
  }

  const MEMBERS := {RefKey, TypeKey, FormatKey, NullableKey, EnumKey, PropertiesKey, RequiredKey, ItemsKey,
                    AnyOfKey, OneOfKey, AllOfKey, AdditionalKey}

  predicate Present(s: SchemaSpec, key: Keyword)
    requires s.Spec?
  {
    match key
    case RefKey => s.ref != ""
    case TypeKey => s.typ != NoType
    case FormatKey => s.format != NoFormat
    case NullableKey => s.nullable
    case EnumKey => s.enum != []
    case PropertiesKey => s.properties != map[]
    case RequiredKey => s.required != []
    case ItemsKey => s.items != NilSpec
    case AnyOfKey => s.anyOf != []
    case OneOfKey => s.oneOf != []
    case AllOfKey => s.allOf != []
    case AdditionalKey => s.additional != NoAdditionalSpec
    case OtherKey(_) => false
  }

  function MemberValue(s: SchemaSpec, key: Keyword): Doc
    requires s.Spec?
    decreases s, 0
  {
    match key
    case RefKey => StrDoc(s.ref)
    case TypeKey => TypeDoc(s.typ)
    case FormatKey => FormatDoc(s.format)
    case NullableKey => BoolDoc(s.nullable)
    case EnumKey => Strings(s.enum)
    case PropertiesKey => NamedDoc(map name | name in s.properties :: Marshal(s.properties[name]))
    case RequiredKey => Strings(s.required)
    case ItemsKey => Marshal(s.items)
    case AnyOfKey => ListDoc(seq(|s.anyOf|, i requires 0 <= i < |s.anyOf| => Marshal(s.anyOf[i])))
    case OneOfKey => ListDoc(seq(|s.oneOf|, i requires 0 <= i < |s.oneOf| => Marshal(s.oneOf[i])))
    case AllOfKey => ListDoc(seq(|s.allOf|, i requires 0 <= i < |s.allOf| => Marshal(s.allOf[i])))
    case AdditionalKey =>
      if s.additional.AdditionalSpec? && s.additional.schema.Spec? then Marshal(s.additional.schema)
      else BoolDoc(s.additional.AdditionalSpec? && s.additional.allowed)
    case OtherKey(_) => NullDoc
  }

  function Marshal(s: SchemaSpec): Doc
    decreases s, 1
  {
    if s.NilSpec? then NullDoc
    else SchemaDoc(map key | key in MEMBERS && Present(s, key) :: MemberValue(s, key))
  }

  // ----- JSON Schema validity for the keywords that survive

  predicate TypeKeyword(typ: Doc, v: Json) {
    match typ
    case TypeDoc(t) => TypeMatches(t, v)
    case ListDoc(types) => exists i :: 0 <= i < |types| && types[i].TypeDoc? && TypeMatches(types[i].typ, v)
    case _ => true
  }

  ghost predicate Valid(schema: Doc, v: Json)
    decreases schema, 1
  {
    schema.SchemaDoc? ==>
      && ValidType(schema, v)
      && ValidRequired(schema, v)
      && ValidProperties(schema, v)
      && ValidItems(schema, v)
      && ValidAllOf(schema, v)
      && ValidAnyOf(schema, v)
  }

  predicate ValidType(schema: Doc, v: Json)
    requires schema.SchemaDoc?
  {
    TypeKey in schema.keywords ==> TypeKeyword(schema.keywords[TypeKey], v)
  }

  function ListAt(schema: Doc, key: Keyword): (list: seq<Doc>)
    requires schema.SchemaDoc?
    ensures forall doc :: doc in list ==> (schema decreases to doc)
  {
    if key in schema.keywords && schema.keywords[key].ListDoc? then schema.keywords[key].items else []
  }

  predicate ValidRequired(schema: Doc, v: Json)
    requires schema.SchemaDoc?
  {
    v.Obj? ==> forall doc :: doc in ListAt(schema, RequiredKey) && doc.StrDoc? ==> doc.s in v.fields
  }

  ghost predicate ValidProperties(schema: Doc, v: Json)
    requires schema.SchemaDoc?
    decreases schema, 0
  {
    PropertiesKey in schema.keywords && schema.keywords[PropertiesKey].NamedDoc? && v.Obj? ==>
      var members := schema.keywords[PropertiesKey].members;
      forall key :: key in members && key in v.fields ==> Valid(members[key], v.fields[key])
  }

  ghost predicate ValidItems(schema: Doc, v: Json)
    requires schema.SchemaDoc?
    decreases schema, 0
  {
    ItemsKey in schema.keywords && v.Arr? ==>
      forall i :: 0 <= i < |v.items| ==> Valid(schema.keywords[ItemsKey], v.items[i])
  }

  ghost predicate ValidAllOf(schema: Doc, v: Json)
    requires schema.SchemaDoc?
    decreases schema, 0
  {
    forall i :: 0 <= i < |ListAt(schema, AllOfKey)| ==> Valid(ListAt(schema, AllOfKey)[i], v)
  }

  ghost predicate ValidAnyOf(schema: Doc, v: Json)
    requires schema.SchemaDoc?
    decreases schema, 0
  {
    AnyOfKey in schema.keywords && schema.keywords[AnyOfKey].ListDoc? ==>
      exists i :: 0 <= i < |ListAt(schema, AnyOfKey)| && Valid(ListAt(schema, AnyOfKey)[i], v)
  }

  // ----- staticBodySchemaDocument

  predicate Survives(key: Keyword) {
    key.TypeKey? || key.PropertiesKey? || key.RequiredKey? || key.ItemsKey? || key.AllOfKey?
  }

  function FormatOf(m: map<Keyword, Doc>): Format {
    if FormatKey in m && m[FormatKey].FormatDoc? then m[FormatKey].format else NoFormat
  }

  predicate NullableIn(m: map<Keyword, Doc>) {
    NullableKey in m && m[NullableKey] == BoolDoc(true)
  }

  predicate Kept(m: map<Keyword, Doc>, key: Keyword)
    requires key in m
  {
    Survives(key) && !(key.TypeKey? && m[key].TypeDoc? && !KnownType(m[key].typ))
  }

  function StaticType(typ: Doc, format: Format): Doc {
    if typ == TypeDoc(StringType) && IntegerFormat(format)
    then ListDoc([TypeDoc(StringType), TypeDoc(IntegerType)])
    else typ
  }

  /** The string elements, first occurrences only. */
  function UniqueStrings(items: seq<Doc>): seq<Doc> {
    if items == [] then []
    else
      var rest := UniqueStrings(items[..|items| - 1]);
      var last := items[|items| - 1];
      if last.StrDoc? && last !in items[..|items| - 1] then rest + [last] else rest
  }

  lemma {:induction false} UniqueStringsElements(items: seq<Doc>, x: Doc)
    ensures x in UniqueStrings(items) <==> x in items && x.StrDoc?
  {
    if items == [] {
    } else {
      UniqueStringsElements(items[..|items| - 1], x);
    }
  }

  /** The string elements, each once, in the order in which they first occur. */
  lemma {:induction false} UniqueStringsInOrder(items: seq<Doc>) returns (at: seq<nat>)
    ensures Picks(items, UniqueStrings(items), at) && NoRepeats(UniqueStrings(items))
    ensures forall i: nat :: i in at <==> FirstAt(items, i) && items[i].StrDoc?
  {
    if items == [] {
      at := [];
    } else {
      var n := |items| - 1;
      var init := items[..n];
      var before := UniqueStringsInOrder(init);
      PicksSnoc(items, n, UniqueStrings(init), before);
      FirstSnoc(items, n, before);
      at := if items[n].StrDoc? && items[n] !in init then before + [n] else before;
    }
    PicksOnce(items, UniqueStrings(items), at);
  }

  lemma FirstSnoc(items: seq<Doc>, n: nat, at: seq<nat>)
    requires n + 1 == |items| && forall i: nat :: i in at <==> FirstAt(items[..n], i) && items[..n][i].StrDoc?
    ensures forall i: nat ::
      (i in at || (i == n && items[n].StrDoc? && items[n] !in items[..n])) <==> FirstAt(items, i) && items[i].StrDoc?
  {
    FirstInPrefix(items, n);
  }

  function StaticMember(key: Keyword, value: Doc, format: Format): Doc
    decreases value, 2
  {
    match key
    case TypeKey => StaticType(value, format)
    case RequiredKey => if value.ListDoc? then ListDoc(UniqueStrings(value.items)) else value
    case PropertiesKey =>
      if value.NamedDoc? then NamedDoc(map name | name in value.members :: StaticDocument(value.members[name]))
      else value
    case ItemsKey => if value.SchemaDoc? then StaticDocument(value) else value
    case AllOfKey =>
      if value.ListDoc?
      then ListDoc(seq(|value.items|, i requires 0 <= i < |value.items| => StaticDocument(value.items[i])))
      else value
    case _ => value
  }

  function Nullable(nullable: bool, keywords: map<Keyword, Doc>): Doc {
    if nullable
    then SchemaDoc(map[AnyOfKey := ListDoc([SchemaDoc(keywords), SchemaDoc(map[TypeKey := TypeDoc(NullType)])])])
    else SchemaDoc(keywords)
  }

  /** Keyword by keyword: what staticBodySchemaDocument leaves of `doc`. A value that is not an
      object stands for a nil map. */
  function StaticDocument(doc: Doc): Doc
    decreases doc, 1
  {
    if !doc.SchemaDoc? then SchemaDoc(map[]) else Nullable(NullableIn(doc.keywords), StaticKeywords(doc))
  }

  function StaticKeywords(doc: Doc): map<Keyword, Doc>
    requires doc.SchemaDoc?
    decreases doc, 0
  {
    var m := doc.keywords;
    map key | key in m && Kept(m, key) :: StaticMember(key, m[key], FormatOf(m))
  }

  method DropKeywords(m: map<Keyword, Doc>) returns (fields: map<Keyword, Doc>)
    ensures fields == map key | key in m && Survives(key) :: m[key]
  {
    fields := m;
    var pending := m.Keys;
    while pending != {}
      invariant pending <= m.Keys
      invariant fields == map key | key in m && (key in pending || Survives(key)) :: m[key]
      decreases pending
    {
      var key :| key in pending;
      pending := pending - {key};
      if !Survives(key) {
        fields := fields - {key};
      }
    }
  }

  /** The document while it is rewritten: the keywords in `done` are final, the others untouched. */
  ghost function Rewritten(doc: Doc, done: set<Keyword>): map<Keyword, Doc>
    requires doc.SchemaDoc?
  {
    var m := doc.keywords;
    map key | key in m && (if key in done then Kept(m, key) else Survives(key)) ::
      if key in done then StaticMember(key, m[key], FormatOf(m)) else m[key]
  }

  method RewriteType(doc: Doc, fields: map<Keyword, Doc>) returns (rewritten: map<Keyword, Doc>)
    requires doc.SchemaDoc? && fields == Rewritten(doc, {})
    ensures rewritten == Rewritten(doc, {TypeKey})
  {
    rewritten := fields;
    if TypeKey in fields && fields[TypeKey].TypeDoc? {
      var typ := fields[TypeKey].typ;
      if !KnownType(typ) {
        rewritten := rewritten - {TypeKey};
      }
      if typ == StringType && IntegerFormat(FormatOf(doc.keywords)) {
        rewritten := rewritten[TypeKey := ListDoc([TypeDoc(StringType), TypeDoc(IntegerType)])];
      }
    }
  }

  /** The in-place rewriting of the document, children included. */
  method StaticBodySchemaDocument(doc: Doc) returns (result: Doc)
    ensures result == StaticDocument(doc)
    decreases doc, 1
  {
    if !doc.SchemaDoc? {
      return SchemaDoc(map[]);
    }
    var fields := DropKeywords(doc.keywords);
    fields := RewriteType(doc, fields);
    if RequiredKey in fields && fields[RequiredKey].ListDoc? {
      var unique := UniqueRequired(fields[RequiredKey].items);
      fields := fields[RequiredKey := ListDoc(unique)];
    }
    assert fields == Rewritten(doc, {TypeKey, RequiredKey});
    fields := RewriteProperties(doc, fields);
    fields := RewriteItems(doc, fields);
    fields := RewriteAllOf(doc, fields);
    return Nullable(NullableIn(doc.keywords), fields);
  }

  method RewriteProperties(doc: Doc, fields: map<Keyword, Doc>) returns (rewritten: map<Keyword, Doc>)
    requires doc.SchemaDoc? && fields == Rewritten(doc, {TypeKey, RequiredKey})
    ensures rewritten == Rewritten(doc, {TypeKey, RequiredKey, PropertiesKey})
    decreases doc, 0
  {
    rewritten := fields;
    if PropertiesKey in fields && fields[PropertiesKey].NamedDoc? {
      var properties := StaticProperties(fields[PropertiesKey]);
      assert NamedDoc(properties) == StaticMember(PropertiesKey, fields[PropertiesKey], FormatOf(doc.keywords));
      rewritten := fields[PropertiesKey := NamedDoc(properties)];
    }
  }

  method RewriteItems(doc: Doc, fields: map<Keyword, Doc>) returns (rewritten: map<Keyword, Doc>)
    requires doc.SchemaDoc? && fields == Rewritten(doc, {TypeKey, RequiredKey, PropertiesKey})
    ensures rewritten == Rewritten(doc, {TypeKey, RequiredKey, PropertiesKey, ItemsKey})
    decreases doc, 0
  {
    rewritten := fields;
    if ItemsKey in fields && fields[ItemsKey].SchemaDoc? {
      var items := StaticBodySchemaDocument(fields[ItemsKey]);
      rewritten := fields[ItemsKey := items];
    }
  }

  method RewriteAllOf(doc: Doc, fields: map<Keyword, Doc>) returns (rewritten: map<Keyword, Doc>)
    requires doc.SchemaDoc? && fields == Rewritten(doc, {TypeKey, RequiredKey, PropertiesKey, ItemsKey})
    ensures rewritten == StaticKeywords(doc)
    decreases doc, 0
  {
    rewritten := fields;
    if AllOfKey in fields && fields[AllOfKey].ListDoc? {
      var parts := StaticParts(fields[AllOfKey]);
      rewritten := fields[AllOfKey := ListDoc(parts)];
    }
  }

  method UniqueRequired(required: seq<Doc>) returns (unique: seq<Doc>)
    ensures unique == UniqueStrings(required)
  {
    unique := [];
    var seen: set<string> := {};
    for i := 0 to |required|
      invariant unique == UniqueStrings(required[..i])
      invariant forall name :: name in seen <==> StrDoc(name) in required[..i]
    {
      assert required[..i + 1][..i] == required[..i];
      if required[i].StrDoc? && required[i].s !in seen {
        unique := unique + [required[i]];
        seen := seen + {required[i].s};
      }
    }
    assert required[..|required|] == required;
  }

  method StaticProperties(properties: Doc) returns (result: map<string, Doc>)
    requires properties.NamedDoc?
    ensures result == map name | name in properties.members :: StaticDocument(properties.members[name])
    decreases properties, 0
  {
    result := properties.members;
    var pending := properties.members.Keys;
    while pending != {}
      invariant pending <= properties.members.Keys
      invariant result == map name | name in properties.members ::
          if name in pending then properties.members[name] else StaticDocument(properties.members[name])
      decreases pending
    {
      var name :| name in pending;
      pending := pending - {name};
      var child := StaticBodySchemaDocument(properties.members[name]);
      result := result[name := child];
    }
  }

  method StaticParts(parts: Doc) returns (result: seq<Doc>)
    requires parts.ListDoc?
    ensures result == seq(|parts.items|, i requires 0 <= i < |parts.items| => StaticDocument(parts.items[i]))
    decreases parts, 0
  {
    result := parts.items;
    for i := 0 to |parts.items|
      invariant |result| == |parts.items|
      invariant forall j :: 0 <= j < i ==> result[j] == StaticDocument(parts.items[j])
      invariant forall j :: i <= j < |parts.items| ==> result[j] == parts.items[j]
    {
      var child := StaticBodySchemaDocument(parts.items[i]);
      result := result[i := child];
    }
  }

  // ----- the document means what the compiled schema means

  lemma ValidNullable(nullable: bool, keywords: map<Keyword, Doc>, v: Json)
    ensures Valid(Nullable(nullable, keywords), v) <==> Valid(SchemaDoc(keywords), v) || (nullable && v.Null?)
  {
    if nullable {
      var both := ListAt(Nullable(true, keywords), AnyOfKey);
      assert both == [SchemaDoc(keywords), SchemaDoc(map[TypeKey := TypeDoc(NullType)])];
      assert Valid(both[1], v) <==> v.Null?;
      if Valid(SchemaDoc(keywords), v) {
        assert Valid(both[0], v);
      }
    }
  }

  function Compiled(s: SchemaSpec): Doc
    requires s.Spec?
  {
    SchemaDoc(StaticKeywords(Marshal(s)))
  }

  /** A surviving keyword of the marshalled schema, and what it is rewritten to. */
  lemma CompiledMember(s: SchemaSpec, key: Keyword)
    requires s.Spec?
    ensures var doc := Compiled(s).keywords;
            && (key in doc <==> Survives(key) && Present(s, key) && (key.TypeKey? ==> KnownType(s.typ)))
            && (key in doc ==> doc[key] == StaticMember(key, MemberValue(s, key), s.format))
  {
    var m := Marshal(s).keywords;
    assert FormatKey in m <==> s.format != NoFormat;
    assert MemberValue(s, FormatKey) == FormatDoc(s.format);
    assert FormatKey in m ==> m[FormatKey] == MemberValue(s, FormatKey);
    assert FormatOf(m) == s.format;
    assert key in m <==> key in MEMBERS && Present(s, key);
    assert key in m ==> m[key] == MemberValue(s, key);
    assert key.TypeKey? ==> MemberValue(s, key) == TypeDoc(s.typ);
    var doc := StaticKeywords(Marshal(s));
    assert key in doc <==> key in m && Kept(m, key);
    assert key in doc ==> doc[key] == StaticMember(key, m[key], FormatOf(m));
  }

  lemma TypeMeaning(s: SchemaSpec, v: Json)
    requires s.Spec?
    ensures ValidType(Compiled(s), v) <==> CompiledTypeMatches(s.typ, s.format, v)
  {
    CompiledMember(s, TypeKey);
    if s.typ == StringType && IntegerFormat(s.format) {
      var both := StaticType(TypeDoc(s.typ), s.format).items;
      assert both == [TypeDoc(StringType), TypeDoc(IntegerType)];
      assert both[0].TypeDoc? && both[1].TypeDoc?;
    }
  }

  lemma RequiredMeaning(s: SchemaSpec, v: Json)
    requires s.Spec?
    ensures ValidRequired(Compiled(s), v) <==> HasRequired(s, v)
  {
    CompiledMember(s, RequiredKey);
    var names := Strings(s.required).items;
    assert ListAt(Compiled(s), RequiredKey) == UniqueStrings(names);
    forall name ensures StrDoc(name) in UniqueStrings(names) <==> name in s.required {
      UniqueStringsElements(names, StrDoc(name));
      if name in s.required {
        var i :| 0 <= i < |s.required| && s.required[i] == name;
        assert names[i] == StrDoc(name);
      }
    }
    if v.Obj? && ValidRequired(Compiled(s), v) {
      forall name | name in s.required ensures name in v.fields {
        assert StrDoc(name) in ListAt(Compiled(s), RequiredKey);
      }
    }
  }

  lemma {:induction false} PropertiesMeaning(s: SchemaSpec, v: Json)
    requires s.Spec?
    ensures ValidProperties(Compiled(s), v) <==> PreflightProperties(s, v)
    decreases s, 0
  {
    CompiledMember(s, PropertiesKey);
    if v.Obj? {
      forall key | key in s.properties && key in v.fields
        ensures Valid(StaticDocument(Marshal(s.properties[key])), v.fields[key])
           <==> Preflight(s.properties[key], v.fields[key])
      {
        StaticDocumentMeaning(s.properties[key], v.fields[key]);
      }
      if s.properties != map[] {
        PropertiesMember(s);
      }
    }
  }

  lemma PropertiesMember(s: SchemaSpec)
    requires s.Spec? && s.properties != map[]
    ensures var doc := Compiled(s).keywords;
            && PropertiesKey in doc
            && doc[PropertiesKey].NamedDoc?
            && doc[PropertiesKey].members.Keys == s.properties.Keys
            && forall name :: name in s.properties ==>
                 doc[PropertiesKey].members[name] == StaticDocument(Marshal(s.properties[name]))
  {
    CompiledMember(s, PropertiesKey);
    assert MemberValue(s, PropertiesKey) == NamedDoc(map name | name in s.properties :: Marshal(s.properties[name]));
  }

  lemma {:induction false} ItemsMeaning(s: SchemaSpec, v: Json)
    requires s.Spec?
    ensures ValidItems(Compiled(s), v) <==> PreflightItems(s, v)
    decreases s, 0
  {
    CompiledMember(s, ItemsKey);
    assert MemberValue(s, ItemsKey) == Marshal(s.items);
    if v.Arr? {
      forall i | 0 <= i < |v.items|
        ensures Valid(StaticDocument(Marshal(s.items)), v.items[i]) <==> Preflight(s.items, v.items[i])
      {
        StaticDocumentMeaning(s.items, v.items[i]);
      }
    }
  }

  lemma {:induction false} AllOfMeaning(s: SchemaSpec, v: Json)
    requires s.Spec?
    ensures ValidAllOf(Compiled(s), v) <==> PreflightAllOf(s, v)
    decreases s, 0
  {
    CompiledMember(s, AllOfKey);
    var parts := seq(|s.allOf|, i requires 0 <= i < |s.allOf| => Marshal(s.allOf[i]));
    assert MemberValue(s, AllOfKey) == ListDoc(parts);
    assert |ListAt(Compiled(s), AllOfKey)| == |s.allOf|;
    forall i | 0 <= i < |s.allOf|
      ensures Valid(ListAt(Compiled(s), AllOfKey)[i], v) <==> Preflight(s.allOf[i], v)
    {
      assert ListAt(Compiled(s), AllOfKey)[i] == StaticDocument(Marshal(s.allOf[i]));
      StaticDocumentMeaning(s.allOf[i], v);
    }
  }

  /** The rewritten document accepts exactly what the compiled schema accepts. */
  lemma {:induction false} StaticDocumentMeaning(s: SchemaSpec, v: Json)
    ensures Valid(StaticDocument(Marshal(s)), v) <==> Preflight(s, v)
    decreases s, 1
  {
    if s.Spec? {
      ValidNullable(s.nullable, StaticKeywords(Marshal(s)), v);
      assert NullableIn(Marshal(s).keywords) == s.nullable by {
        assert MemberValue(s, NullableKey) == BoolDoc(s.nullable);
      }
      TypeMeaning(s, v);
      RequiredMeaning(s, v);
      PropertiesMeaning(s, v);
      ItemsMeaning(s, v);
      AllOfMeaning(s, v);
      CompiledMember(s, AnyOfKey);
    }
  }
}
