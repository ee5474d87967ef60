/** The compiled schema read with all of its keywords.

    What formats and enumerations ask of a value is an arbitrary predicate `scalar` over the keywords
    as they stand in the schema; what a reference left in a compiled schema asks is an arbitrary
    predicate `residual`. A reading of the source is any relation that respects its keywords, oneOf
    and its negations included. */
module SchemaKeywords {
  import opened JsonValues
  import opened RawSchemas
  import opened SchemaCompiler
  import opened SchemaMeaning
  import opened PreflightSoundness
  import StaticDocuments

  type Scalar = (SchemaType, Format, seq<string>, Json) -> bool
  type Residual = (string, Json) -> bool

  // ----- source schemas

  /** Enumeration and format, additionalProperties, anyOf and oneOf of a source schema. */
  ghost predicate HasOthers(s: RawSchema, scalar: Scalar, v: Json, reading: Reading) {
    s.Raw? ==>
      && scalar(s.typ, s.format, s.enum, v)
      && (v.Obj? && s.additional.Additional? ==> forall key :: key in v.fields && key !in s.properties ==>
            if s.additional.schema.Raw? then reading(s.additional.schema, iset{}, v.fields[key])
            else s.additional.allowed)
      && (s.anyOf != [] ==> true in Read(s.anyOf, v, reading))
      && (s.oneOf != [] ==> OneTrue(Read(s.oneOf, v, reading)))
  }

  predicate OneTrue(verdicts: seq<bool>) {
    exists i :: 0 <= i < |verdicts| && verdicts[i] && forall j :: 0 <= j < |verdicts| && j != i ==> !verdicts[j]
  }

  ghost function Read(list: seq<RawSchema>, v: Json, reading: Reading): seq<bool> {
    seq(|list|, i requires 0 <= i < |list| => reading(list[i], iset{}, v))
  }

  ghost function Others(scalar: Scalar, reading: Reading): Verdict {
    (s, v) => HasOthers(s, scalar, v, reading)
  }

  /** `reading` says of every schema what its keywords say. */
  ghost predicate Respects(reading: Reading, defs: Defs, request: bool, scalar: Scalar) {
    forall s, exempt, v ::
      reading(s, exempt, v) <==> Unfolded(s, defs, request, Others(scalar, reading), exempt, v, reading)
  }

  // ----- compiled schemas

  ghost predicate SpecAccepts(s: SchemaSpec, scalar: Scalar, residual: Residual, v: Json)
    decreases s, 1
  {
    s.Spec? ==>
      || (s.nullable && v.Null?)
      || (&& (s.ref != "" ==> residual(s.ref, v))
          && CompiledTypeMatches(s.typ, s.format, v)
          && scalar(s.typ, s.format, s.enum, v)
          && HasRequired(s, v)
          && SpecFields(s, scalar, residual, v)
          && (v.Arr? ==> forall i :: 0 <= i < |v.items| ==> SpecAccepts(s.items, scalar, residual, v.items[i]))
          && (s.anyOf != [] ==> true in SpecVerdicts(s.anyOf, scalar, residual, v))
          && (s.oneOf != [] ==> OneTrue(SpecVerdicts(s.oneOf, scalar, residual, v)))
          && forall i :: 0 <= i < |s.allOf| ==> SpecAccepts(s.allOf[i], scalar, residual, v))
  }

  ghost predicate SpecFields(s: SchemaSpec, scalar: Scalar, residual: Residual, v: Json)
    requires s.Spec?
    decreases s, 0
  {
    v.Obj? ==> forall key :: key in v.fields ==>
      if key in s.properties then SpecAccepts(s.properties[key], scalar, residual, v.fields[key])
      else if s.additional.NoAdditionalSpec? then true
      else if s.additional.schema.Spec? then SpecAccepts(s.additional.schema, scalar, residual, v.fields[key])
      else s.additional.allowed
  }

  ghost function SpecVerdicts(list: seq<SchemaSpec>, scalar: Scalar, residual: Residual, v: Json): seq<bool>
    decreases list
  {
    seq(|list|, i requires 0 <= i < |list| => SpecAccepts(list[i], scalar, residual, v))
  }

  // ----- references that the compiled schema keeps

  /** The reference of `s` is left in the compiled schema, and is read there as its target is read at the
      source. A null that the keywords beside the reference allow is not taken from the target. */
  ghost predicate LeftReferenceAgrees(s: RawSchema, defs: Defs, residual: Residual, reading: Reading,
                                      exempt: iset<string>)
    requires s.Raw?
  {
    && (forall v :: residual(s.ref, v) <==> (UsesReference(s, defs) ==> reading(Resolve(s.ref, defs), exempt, v)))
    && (s.nullable && HasRefSiblings(s) ==> residual(s.ref, Null))
  }

  /** So are all references left on the paths that the unfolding of `s` takes. */
  ghost predicate LeftAgree(s: RawSchema, defs: Defs, visited: set<string>, request: bool, residual: Residual,
                            reading: Reading, exempt: iset<string>)
    decreases Resolvable(defs) - visited, s, 1
  {
    s.Raw? ==>
      var inner := Exempted(s, defs, request, exempt);
      && (s.ref != "" ==>
            if Resolve(s.ref, defs) != Nil && s.ref !in visited
            then (ResolvableRef(s.ref, defs);
                  LeftAgree(Resolve(s.ref, defs), defs, visited + {s.ref}, request, residual, reading, inner))
            else LeftReferenceAgrees(s, defs, residual, reading, inner))
      && LeftAgreeInside(s, defs, visited, request, residual, reading, inner)
  }

  ghost predicate LeftAgreeInside(s: RawSchema, defs: Defs, visited: set<string>, request: bool, residual: Residual,
                                  reading: Reading, exempt: iset<string>)
    requires s.Raw?
    decreases Resolvable(defs) - visited, s, 0
  {
    && (forall key :: key in s.properties ==>
          LeftAgree(s.properties[key], defs, visited, request, residual, reading, iset{}))
    && LeftAgree(s.items, defs, visited, request, residual, reading, iset{})
    && (s.additional.Additional? ==>
          LeftAgree(s.additional.schema, defs, visited, request, residual, reading, iset{}))
    && (forall i :: 0 <= i < |s.anyOf| ==>
          LeftAgree(s.anyOf[i], defs, visited, request, residual, reading, iset{}))
    && (forall i :: 0 <= i < |s.oneOf| ==>
          LeftAgree(s.oneOf[i], defs, visited, request, residual, reading, iset{}))
    && forall i :: 0 <= i < |s.allOf| ==>
         LeftAgree(s.allOf[i], defs, visited, request, residual, reading, exempt)
  }

  // ----- relaxing

  ghost function Names(removed: set<string>): iset<string> {
    iset name | name in removed
  }

  lemma ExemptedAll(s: RawSchema, defs: Defs, request: bool, removed: set<string>)
    ensures Exempted(s, defs, request, Names(removed)) == Names(RelaxedNames(s, defs, request) + removed)
  {
    forall name
      ensures name in Exempted(s, defs, request, Names(removed))
         <==> name in Names(RelaxedNames(s, defs, request) + removed)
    {
      ExemptedNames(s, defs, request, Names(removed), name);
    }
  }

  lemma NullableSpecAccepts(s: SchemaSpec, nullable: bool, scalar: Scalar, residual: Residual, v: Json)
    requires s.Spec? && (s.nullable ==> nullable)
    ensures SpecAccepts(s.(nullable := nullable), scalar, residual, v)
       <==> SpecAccepts(s, scalar, residual, v) || (nullable && v.Null?)
  {
    var t := s.(nullable := nullable);
    assert HasRequired(t, v) == HasRequired(s, v);
    assert SpecFields(t, scalar, residual, v) == SpecFields(s, scalar, residual, v);
  }

  /** Absent keywords say nothing. */
  ghost predicate SilentWhereAbsent(scalar: Scalar) {
    forall v :: scalar(NoType, NoFormat, [], v)
  }

  lemma ConjunctionSpecAccepts(s: SchemaSpec, scalar: Scalar, residual: Residual, v: Json)
    requires s.Spec? && s == Conjunction(s.allOf) && |s.allOf| == 2 && SilentWhereAbsent(scalar)
    ensures SpecAccepts(s, scalar, residual, v)
       <==> SpecAccepts(s.allOf[0], scalar, residual, v) && SpecAccepts(s.allOf[1], scalar, residual, v)
  {
    assert HasRequired(s, v) && SpecFields(s, scalar, residual, v);
    assert SpecAccepts(s.items, scalar, residual, v);
    assert scalar(s.typ, s.format, s.enum, v);
  }

  // ----- the compiled schema keeps every keyword

  ghost predicate SourceFields(s: RawSchema, v: Json, reading: Reading)
    requires s.Raw?
  {
    v.Obj? ==> forall key :: key in v.fields ==>
      if key in s.properties then reading(s.properties[key], iset{}, v.fields[key])
      else if s.additional.NoAdditional? then true
      else if s.additional.schema.Raw? then reading(s.additional.schema, iset{}, v.fields[key])
      else s.additional.allowed
  }

  ghost predicate Keeping(defs: Defs, request: bool, scalar: Scalar, reading: Reading) {
    Respects(reading, defs, request, scalar) && SilentWhereAbsent(scalar)
  }

  lemma KeepsRequired(s: RawSchema, whole: RawSchema, defs: Defs, visited: set<string>, request: bool,
                      removed: set<string>, v: Json)
    requires s.Raw? && whole.Raw? && s == whole.(ref := s.ref)
    ensures HasRequired(Relax(RuntimeLocal(s, whole, defs, visited, request), removed), v)
       <==> var exempt := Names(RelaxedNames(s, defs, request) + removed);
            v.Obj? ==> forall name :: name in whole.required && name !in exempt ==> name in v.fields
  {
    var relaxed := Relax(RuntimeLocal(s, whole, defs, visited, request), removed);
    var all := RelaxedNames(s, defs, request) + removed;
    assert forall name :: name in relaxed.required <==> name in whole.required && name !in all;
  }

  lemma {:induction false} KeepsFields(s: RawSchema, whole: RawSchema, defs: Defs, visited: set<string>, request: bool,
                                       scalar: Scalar, residual: Residual, reading: Reading, removed: set<string>,
                                       v: Json)
    requires s.Raw? && whole.Raw? && s == whole.(ref := s.ref) && Keeping(defs, request, scalar, reading)
    requires LeftAgreeInside(whole, defs, visited, request, residual, reading,
                             Names(RelaxedNames(s, defs, request) + removed))
    ensures SpecFields(Relax(RuntimeLocal(s, whole, defs, visited, request), removed), scalar, residual, v)
       <==> SourceFields(whole, v, reading)
    decreases Resolvable(defs) - visited, whole, 0
  {
    var relaxed := Relax(RuntimeLocal(s, whole, defs, visited, request), removed);
    if v.Obj? {
      forall key | key in v.fields && key in whole.properties
        ensures SpecAccepts(relaxed.properties[key], scalar, residual, v.fields[key])
           <==> reading(whole.properties[key], iset{}, v.fields[key])
      {
        KeepsChild(whole.properties[key], defs, visited, request, scalar, residual, reading, v.fields[key]);
      }
      if whole.additional.Additional? {
        forall key | key in v.fields
          ensures SpecAccepts(relaxed.additional.schema, scalar, residual, v.fields[key])
             <==> reading(whole.additional.schema, iset{}, v.fields[key])
        {
          KeepsChild(whole.additional.schema, defs, visited, request, scalar, residual, reading, v.fields[key]);
        }
      }
    }
  }

  lemma {:induction false} KeepsItems(s: RawSchema, whole: RawSchema, defs: Defs, visited: set<string>, request: bool,
                                      scalar: Scalar, residual: Residual, reading: Reading, removed: set<string>,
                                      v: Json)
    requires s.Raw? && whole.Raw? && s == whole.(ref := s.ref) && Keeping(defs, request, scalar, reading)
    requires LeftAgreeInside(whole, defs, visited, request, residual, reading,
                             Names(RelaxedNames(s, defs, request) + removed))
    requires v.Arr?
    ensures var items := Relax(RuntimeLocal(s, whole, defs, visited, request), removed).items;
            forall i :: 0 <= i < |v.items| ==>
              (SpecAccepts(items, scalar, residual, v.items[i]) <==> reading(whole.items, iset{}, v.items[i]))
    decreases Resolvable(defs) - visited, whole, 0
  {
    forall i | 0 <= i < |v.items|
      ensures SpecAccepts(Relax(RuntimeLocal(s, whole, defs, visited, request), removed).items, scalar, residual,
                          v.items[i])
         <==> reading(whole.items, iset{}, v.items[i])
    {
      KeepsChild(whole.items, defs, visited, request, scalar, residual, reading, v.items[i]);
    }
  }

  lemma {:induction false} KeepsAlternatives(s: RawSchema, whole: RawSchema, defs: Defs, visited: set<string>,
                                             request: bool, scalar: Scalar, residual: Residual, reading: Reading,
                                             removed: set<string>, v: Json)
    requires s.Raw? && whole.Raw? && s == whole.(ref := s.ref) && Keeping(defs, request, scalar, reading)
    requires LeftAgreeInside(whole, defs, visited, request, residual, reading,
                             Names(RelaxedNames(s, defs, request) + removed))
    ensures var relaxed := Relax(RuntimeLocal(s, whole, defs, visited, request), removed);
            && SpecVerdicts(relaxed.anyOf, scalar, residual, v) == Read(whole.anyOf, v, reading)
            && SpecVerdicts(relaxed.oneOf, scalar, residual, v) == Read(whole.oneOf, v, reading)
    decreases Resolvable(defs) - visited, whole, 0
  {
    forall i | 0 <= i < |whole.anyOf|
      ensures SpecAccepts(RuntimeSchema(whole.anyOf[i], defs, visited, request), scalar, residual, v)
         <==> reading(whole.anyOf[i], iset{}, v)
    {
      KeepsChild(whole.anyOf[i], defs, visited, request, scalar, residual, reading, v);
    }
    forall i | 0 <= i < |whole.oneOf|
      ensures SpecAccepts(RuntimeSchema(whole.oneOf[i], defs, visited, request), scalar, residual, v)
         <==> reading(whole.oneOf[i], iset{}, v)
    {
      KeepsChild(whole.oneOf[i], defs, visited, request, scalar, residual, reading, v);
    }
  }

  lemma {:induction false} KeepsAllOf(s: RawSchema, whole: RawSchema, defs: Defs, visited: set<string>, request: bool,
                                      scalar: Scalar, residual: Residual, reading: Reading, removed: set<string>,
                                      v: Json)
    requires s.Raw? && whole.Raw? && s == whole.(ref := s.ref) && Keeping(defs, request, scalar, reading)
    requires LeftAgreeInside(whole, defs, visited, request, residual, reading,
                             Names(RelaxedNames(s, defs, request) + removed))
    ensures var relaxed := Relax(RuntimeLocal(s, whole, defs, visited, request), removed);
            && |relaxed.allOf| == |whole.allOf|
            && forall i :: 0 <= i < |whole.allOf| ==>
                 (SpecAccepts(relaxed.allOf[i], scalar, residual, v)
                  <==> reading(whole.allOf[i], Names(RelaxedNames(s, defs, request) + removed), v))
    decreases Resolvable(defs) - visited, whole, 0
  {
    var relaxed := Relax(RuntimeLocal(s, whole, defs, visited, request), removed);
    var all := RelaxedNames(s, defs, request) + removed;
    forall i | 0 <= i < |whole.allOf|
      ensures SpecAccepts(relaxed.allOf[i], scalar, residual, v) <==> reading(whole.allOf[i], Names(all), v)
    {
      RelaxedChild(s, whole, i, defs, visited, request, removed);
      KeepsKeywords(whole.allOf[i], defs, visited, request, scalar, residual, reading, all, v);
    }
  }

  lemma {:induction false} KeepsChild(s: RawSchema, defs: Defs, visited: set<string>, request: bool, scalar: Scalar,
                                      residual: Residual, reading: Reading, v: Json)
    requires Keeping(defs, request, scalar, reading)
    requires LeftAgree(s, defs, visited, request, residual, reading, iset{})
    ensures SpecAccepts(RuntimeSchema(s, defs, visited, request), scalar, residual, v) <==> reading(s, iset{}, v)
    decreases Resolvable(defs) - visited, s, 3
  {
    assert Names({}) == iset{};
    KeepsKeywords(s, defs, visited, request, scalar, residual, reading, {}, v);
    RelaxNothing(RuntimeSchema(s, defs, visited, request));
  }

  /** Keywords of a compiled schema that say what those of `s` say. */
  lemma SameKeywords(out: SchemaSpec, s: RawSchema, scalar: Scalar, residual: Residual, exempt: iset<string>, v: Json,
                     reading: Reading)
    requires out.Spec? && s.Raw? && out.nullable == s.nullable
    requires out.typ == s.typ && out.format == s.format && out.enum == s.enum
    requires HasRequired(out, v) <==>
               (v.Obj? ==> forall name :: name in s.required && name !in exempt ==> name in v.fields)
    requires SpecFields(out, scalar, residual, v) <==> SourceFields(s, v, reading)
    requires v.Arr? ==> forall i :: 0 <= i < |v.items| ==>
               (SpecAccepts(out.items, scalar, residual, v.items[i]) <==> reading(s.items, iset{}, v.items[i]))
    requires SpecVerdicts(out.anyOf, scalar, residual, v) == Read(s.anyOf, v, reading)
    requires SpecVerdicts(out.oneOf, scalar, residual, v) == Read(s.oneOf, v, reading)
    requires |out.allOf| == |s.allOf|
    requires forall i :: 0 <= i < |s.allOf| ==>
               (SpecAccepts(out.allOf[i], scalar, residual, v) <==> reading(s.allOf[i], exempt, v))
    ensures SpecAccepts(out, scalar, residual, v)
       <==> || (s.nullable && v.Null?)
            || ((out.ref != "" ==> residual(out.ref, v))
                && UnfoldedLocal(s, Others(scalar, reading), exempt, v, reading))
  {
    assert CompiledTypeMatches(out.typ, out.format, v) <==> TakesType(s, v);
    assert |out.anyOf| == |SpecVerdicts(out.anyOf, scalar, residual, v)| == |s.anyOf|;
    assert |out.oneOf| == |SpecVerdicts(out.oneOf, scalar, residual, v)| == |s.oneOf|;
  }

  /** The keywords beside a reference, the reference itself read by `residual`. */
  lemma {:induction false} KeepsLocal(s: RawSchema, whole: RawSchema, defs: Defs, visited: set<string>, request: bool,
                                      scalar: Scalar, residual: Residual, reading: Reading, removed: set<string>,
                                      v: Json)
    requires s.Raw? && whole.Raw? && s == whole.(ref := s.ref) && Keeping(defs, request, scalar, reading)
    requires LeftAgreeInside(whole, defs, visited, request, residual, reading,
                             Names(RelaxedNames(s, defs, request) + removed))
    ensures SpecAccepts(Relax(RuntimeLocal(s, whole, defs, visited, request), removed), scalar, residual, v)
       <==> || (whole.nullable && v.Null?)
            || ((s.ref != "" ==> residual(s.ref, v))
                && UnfoldedLocal(whole, Others(scalar, reading), Names(RelaxedNames(s, defs, request) + removed), v,
                                 reading))
    decreases Resolvable(defs) - visited, whole, 1, 0
  {
    KeepsRequired(s, whole, defs, visited, request, removed, v);
    KeepsFields(s, whole, defs, visited, request, scalar, residual, reading, removed, v);
    KeepsAlternatives(s, whole, defs, visited, request, scalar, residual, reading, removed, v);
    KeepsAllOf(s, whole, defs, visited, request, scalar, residual, reading, removed, v);
    if v.Arr? {
      KeepsItems(s, whole, defs, visited, request, scalar, residual, reading, removed, v);
    }
    SameKeywords(Relax(RuntimeLocal(s, whole, defs, visited, request), removed), whole, scalar, residual,
                 Names(RelaxedNames(s, defs, request) + removed), v, reading);
  }

  /** A reference that is unfolded: the target, and the keywords beside it where there are any. */
  lemma UnfoldedReference(s: RawSchema, defs: Defs, visited: set<string>, request: bool, scalar: Scalar,
                          residual: Residual, removed: set<string>, v: Json)
    requires Unfolds(s, defs, visited) && SilentWhereAbsent(scalar)
    ensures SpecAccepts(Relax(RuntimeSchema(s, defs, visited, request), removed), scalar, residual, v)
       <==> var all := RelaxedNames(s, defs, request) + removed;
            var target := SpecAccepts(Relax(Target(s, defs, visited, request), all), scalar, residual, v);
            if HasRefSiblings(s)
            then target && SpecAccepts(Relax(Siblings(s, defs, visited, request), all), scalar, residual, v)
            else target || (s.nullable && v.Null?)
  {
    var all := RelaxedNames(s, defs, request) + removed;
    var target, local := Target(s, defs, visited, request), Siblings(s, defs, visited, request);
    if HasRefSiblings(s) {
      RelaxedTwice(Conjunction([target, local]), s, defs, request, removed);
      assert Relax(Conjunction([target, local]), all).allOf == [Relax(target, all), Relax(local, all)];
      ConjunctionSpecAccepts(Relax(Conjunction([target, local]), all), scalar, residual, v);
    } else {
      RelaxedTwice(target.(nullable := target.nullable || s.nullable), s, defs, request, removed);
      NullableSpecAccepts(Relax(target, all), target.nullable || s.nullable, scalar, residual, v);
    }
  }

  /** Without keywords of its own a schema accepts everything. */
  lemma NothingBeside(s: RawSchema, scalar: Scalar, exempt: iset<string>, v: Json, reading: Reading)
    requires s.Raw? && !HasRefSiblings(s) && SilentWhereAbsent(scalar)
    requires forall w :: reading(Nil, iset{}, w)
    ensures UnfoldedLocal(s, Others(scalar, reading), exempt, v, reading)
  {
    assert HasOthers(s, scalar, v, reading);
  }

  /** Compiling keeps the meaning of every keyword, for requests and for responses: with the references that
      are left read as the source reads them, the compiled schema, relaxed by any names, accepts exactly what
      the source accepts with these names exempt. */
  lemma {:induction false} KeepsKeywords(s: RawSchema, defs: Defs, visited: set<string>, request: bool, scalar: Scalar,
                                         residual: Residual, reading: Reading, removed: set<string>, v: Json)
    requires Keeping(defs, request, scalar, reading)
    requires LeftAgree(s, defs, visited, request, residual, reading, Names(removed))
    ensures SpecAccepts(Relax(RuntimeSchema(s, defs, visited, request), removed), scalar, residual, v)
       <==> reading(s, Names(removed), v)
    decreases Resolvable(defs) - visited, s, 2
  {
    assert reading(s, Names(removed), v)
      <==> Unfolded(s, defs, request, Others(scalar, reading), Names(removed), v, reading);
    if s.Nil? {
    } else {
      var all := RelaxedNames(s, defs, request) + removed;
      ExemptedAll(s, defs, request, removed);
      if Unfolds(s, defs, visited) {
        ResolvableRef(s.ref, defs);
        UnfoldedReference(s, defs, visited, request, scalar, residual, removed, v);
        KeepsKeywords(Resolve(s.ref, defs), defs, visited + {s.ref}, request, scalar, residual, reading, all, v);
        KeepsSiblings(s, defs, visited, request, scalar, residual, reading, all, v);
      } else {
        KeepsLocal(s, s, defs, visited, request, scalar, residual, reading, removed, v);
        LeftReference(s, defs, residual, scalar, reading, Names(all), v);
      }
    }
  }

  lemma {:induction false} KeepsSiblings(s: RawSchema, defs: Defs, visited: set<string>, request: bool, scalar: Scalar,
                                         residual: Residual, reading: Reading, all: set<string>, v: Json)
    requires Keeping(defs, request, scalar, reading)
    requires Unfolds(s, defs, visited) && RelaxedNames(s, defs, request) <= all
    requires LeftAgreeInside(s, defs, visited, request, residual, reading, Names(all))
    ensures SpecAccepts(Relax(Siblings(s, defs, visited, request), all), scalar, residual, v)
       <==> UnfoldedLocal(s, Others(scalar, reading), Names(all), v, reading)
    decreases Resolvable(defs) - visited, s, 1, 1
  {
    SiblingNames(s, defs);
    assert RelaxedNames(s.(ref := ""), defs, request) + all == all;
    KeepsLocal(s.(ref := ""), s, defs, visited, request, scalar, residual, reading, all, v);
  }

  /** A reference that is left in place, or none. */
  lemma LeftReference(s: RawSchema, defs: Defs, residual: Residual, scalar: Scalar, reading: Reading,
                      exempt: iset<string>, v: Json)
    requires s.Raw? && SilentWhereAbsent(scalar) && (forall w :: reading(Nil, iset{}, w))
    requires s.ref != "" ==> LeftReferenceAgrees(s, defs, residual, reading, exempt)
    ensures (s.nullable && v.Null?)
            || ((s.ref != "" ==> residual(s.ref, v)) && UnfoldedLocal(s, Others(scalar, reading), exempt, v, reading))
       <==> var local := UnfoldedLocal(s, Others(scalar, reading), exempt, v, reading);
            if !UsesReference(s, defs) then local
            else if HasRefSiblings(s) then reading(Resolve(s.ref, defs), exempt, v) && local
            else reading(Resolve(s.ref, defs), exempt, v) || (s.nullable && v.Null?)
  {
    if !HasRefSiblings(s) {
      NothingBeside(s, scalar, exempt, v, reading);
    }
  }

  // ----- what follows from the reading of all keywords

  /** A body that a request schema accepts with all of its keywords passes the preflight. */
  lemma PreflightAcceptsReading(s: RawSchema, defs: Defs, scalar: Scalar, reading: Reading, body: Json)
    requires Respects(reading, defs, true, scalar) && reading(s, iset{}, body)
    ensures StaticDocuments.Valid(PreflightDocument(s, defs), body)
  {
    var other := Others(scalar, reading);
    forall k: nat ensures AcceptsWithin(k, s, defs, true, other, iset{}, body) {
      AcceptsIsGreatest(k, s, defs, true, other, iset{}, body, reading);
    }
    PreflightNeverRejectsValidBody(s, defs, other, body);
  }

  /** Every reference that `s` reaches ranks below the one that leads to it, the first below `bound`. */
  ghost predicate EveryRefBelow(s: RawSchema, defs: Defs, rank: string -> nat, bound: nat)
    decreases bound, s
  {
    s.Raw? ==>
      && (UsesReference(s, defs) ==>
            rank(s.ref) < bound && EveryRefBelow(Resolve(s.ref, defs), defs, rank, rank(s.ref)))
      && (forall key :: key in s.properties ==> EveryRefBelow(s.properties[key], defs, rank, bound))
      && EveryRefBelow(s.items, defs, rank, bound)
      && (s.additional.Additional? ==> EveryRefBelow(s.additional.schema, defs, rank, bound))
      && (forall t :: t in s.anyOf || t in s.oneOf || t in s.allOf ==> EveryRefBelow(t, defs, rank, bound))
  }

  /** Where the references can be ranked, only those without a definition are left. */
  lemma {:induction false} AcyclicLeavesNone(s: RawSchema, defs: Defs, visited: set<string>, request: bool,
                                             residual: Residual, reading: Reading, exempt: iset<string>,
                                             rank: string -> nat, bound: nat)
    requires EveryRefBelow(s, defs, rank, bound)
    requires forall ref :: ref in visited ==> rank(ref) >= bound
    requires forall ref, v :: Resolve(ref, defs) == Nil ==> residual(ref, v)
    ensures LeftAgree(s, defs, visited, request, residual, reading, exempt)
    decreases bound, s
  {
    if s.Nil? {
    } else {
      var inner := Exempted(s, defs, request, exempt);
      if UsesReference(s, defs) {
        AcyclicLeavesNone(Resolve(s.ref, defs), defs, visited + {s.ref}, request, residual, reading, inner, rank,
                          rank(s.ref));
      }
      forall key | key in s.properties
        ensures LeftAgree(s.properties[key], defs, visited, request, residual, reading, iset{})
      {
        AcyclicLeavesNone(s.properties[key], defs, visited, request, residual, reading, iset{}, rank, bound);
      }
      AcyclicLeavesNone(s.items, defs, visited, request, residual, reading, iset{}, rank, bound);
      if s.additional.Additional? {
        AcyclicLeavesNone(s.additional.schema, defs, visited, request, residual, reading, iset{}, rank, bound);
      }
      forall t, e | t in s.anyOf || t in s.oneOf || t in s.allOf
        ensures LeftAgree(t, defs, visited, request, residual, reading, e)
      {
        AcyclicLeavesNone(t, defs, visited, request, residual, reading, e, rank, bound);
      }
    }
  }
}
