/** The preflight never rejects a body that the source request schema accepts. On schemas without
    uncompiled keywords it decides acceptance up to the parts of a body that meet a cut reference. */
module PreflightSoundness {
  import opened JsonValues
  import opened RawSchemas
  import opened SchemaCompiler
  import opened SchemaMeaning
  import StaticDocuments

  /** The document that a request body is validated against. */
  function PreflightDocument(s: RawSchema, defs: Defs): StaticDocuments.Doc {
    StaticDocuments.StaticDocument(StaticDocuments.Marshal(RuntimeSchema(s, defs, {}, true)))
  }

  function RelaxedNames(s: RawSchema, defs: Defs, request: bool): set<string> {
    if request then ReadOnlyNames(s, defs) else {}
  }

  lemma RelaxedTwice(out: SchemaSpec, s: RawSchema, defs: Defs, request: bool, removed: set<string>)
    ensures Relax(RelaxReadOnly(out, s, defs, request), removed)
         == Relax(out, RelaxedNames(s, defs, request) + removed)
  {
    RelaxTwice(out, RelaxedNames(s, defs, request), removed);
    assert {} + removed == removed;
  }

  lemma ExemptedNames(s: RawSchema, defs: Defs, request: bool, exempt: iset<string>, name: string)
    ensures name in Exempted(s, defs, request, exempt) <==>
            name in exempt || name in RelaxedNames(s, defs, request)
  {
    ReadOnlyNamesExact(s, defs, name);
  }

  ghost predicate Within(exempt: iset<string>, removed: set<string>) {
    forall name :: name in exempt ==> name in removed
  }

  lemma ExemptedWithin(s: RawSchema, defs: Defs, request: bool, exempt: iset<string>, removed: set<string>)
    requires Within(exempt, removed)
    ensures Within(Exempted(s, defs, request, exempt), RelaxedNames(s, defs, request) + removed)
  {
    forall name | name in Exempted(s, defs, request, exempt)
      ensures name in RelaxedNames(s, defs, request) + removed
    {
      ExemptedNames(s, defs, request, exempt, name);
    }
  }

  // ----- how an unfolded reference constrains a value

  predicate Unfolds(s: RawSchema, defs: Defs, visited: set<string>) {
    s.Raw? && s.ref != "" && s.ref !in visited && Resolve(s.ref, defs) != Nil
  }

  function Target(s: RawSchema, defs: Defs, visited: set<string>, request: bool): (out: SchemaSpec)
    requires Unfolds(s, defs, visited)
    ensures out.Spec?
  {
    RuntimeSchema(Resolve(s.ref, defs), defs, visited + {s.ref}, request)
  }

  function Siblings(s: RawSchema, defs: Defs, visited: set<string>, request: bool): (out: SchemaSpec)
    requires s.Raw?
  {
    RuntimeLocal(s.(ref := ""), s, defs, visited, request)
  }

  /** A reference with siblings compiles to a conjunction. */
  lemma SiblingReference(s: RawSchema, defs: Defs, visited: set<string>, request: bool, removed: set<string>, v: Json)
    requires Unfolds(s, defs, visited) && HasRefSiblings(s)
    ensures var all := RelaxedNames(s, defs, request) + removed;
            Preflight(Relax(RuntimeSchema(s, defs, visited, request), removed), v) <==>
            && Preflight(Relax(Target(s, defs, visited, request), all), v)
            && Preflight(Relax(Siblings(s, defs, visited, request), all), v)
  {
    var all := RelaxedNames(s, defs, request) + removed;
    var target, local := Target(s, defs, visited, request), Siblings(s, defs, visited, request);
    RelaxedTwice(Conjunction([target, local]), s, defs, request, removed);
    ConjunctionAccepts(Relax(Conjunction([target, local]), all), v);
    assert Relax(Conjunction([target, local]), all).allOf == [Relax(target, all), Relax(local, all)];
  }

  lemma ConjunctionAccepts(s: SchemaSpec, v: Json)
    requires s.Spec? && s == Conjunction(s.allOf) && |s.allOf| == 2
    ensures Preflight(s, v) <==> Preflight(s.allOf[0], v) && Preflight(s.allOf[1], v)
  {
    assert PreflightAllOf(s, v) <==> Preflight(s.allOf[0], v) && Preflight(s.allOf[1], v);
    assert HasRequired(s, v) && PreflightProperties(s, v) && PreflightItems(s, v);
  }

  /** A bare reference compiles to its target, made nullable where the reference is. */
  lemma BareReference(s: RawSchema, defs: Defs, visited: set<string>, request: bool, removed: set<string>, v: Json)
    requires Unfolds(s, defs, visited) && !HasRefSiblings(s)
    ensures var all := RelaxedNames(s, defs, request) + removed;
            Preflight(Relax(RuntimeSchema(s, defs, visited, request), removed), v) <==>
            Preflight(Relax(Target(s, defs, visited, request), all), v) || (s.nullable && v.Null?)
  {
    var all := RelaxedNames(s, defs, request) + removed;
    var target := Target(s, defs, visited, request);
    RelaxedTwice(target.(nullable := target.nullable || s.nullable), s, defs, request, removed);
    NullableAccepts(Relax(target, all), target.nullable || s.nullable, v);
  }

  lemma NullableAccepts(s: SchemaSpec, nullable: bool, v: Json)
    requires s.Spec? && (s.nullable ==> nullable)
    ensures Preflight(s.(nullable := nullable), v) <==> Preflight(s, v) || (nullable && v.Null?)
  {
    var t := s.(nullable := nullable);
    assert HasRequired(t, v) == HasRequired(s, v);
    assert PreflightProperties(t, v) == PreflightProperties(s, v);
    assert PreflightItems(t, v) == PreflightItems(s, v);
    assert PreflightAllOf(t, v) == PreflightAllOf(s, v);
  }

  // ----- soundness

  lemma {:induction false} Sound(s: RawSchema, defs: Defs, visited: set<string>, request: bool, other: Verdict,
                                 exempt: iset<string>, removed: set<string>, v: Json)
    requires Within(exempt, removed)
    requires Accepts(s, defs, request, other, exempt, v)
    ensures Preflight(Relax(RuntimeSchema(s, defs, visited, request), removed), v)
    decreases Resolvable(defs) - visited, s, 1
  {
    AcceptsIsFixpoint(s, defs, request, other, exempt, v);
    if s.Nil? {
    } else {
      var inner := Exempted(s, defs, request, exempt);
      var all := RelaxedNames(s, defs, request) + removed;
      ExemptedWithin(s, defs, request, exempt, removed);
      if s.ref != "" && s.ref !in visited && Resolve(s.ref, defs) != Nil {
        ResolvableRef(s.ref, defs);
        if Accepts(Resolve(s.ref, defs), defs, request, other, inner, v) {
          Sound(Resolve(s.ref, defs), defs, visited + {s.ref}, request, other, inner, all, v);
        }
        if HasRefSiblings(s) {
          SoundLocal(s.(ref := ""), s, defs, visited, request, other, inner, all, v);
          SiblingReference(s, defs, visited, request, removed, v);
        } else {
          BareReference(s, defs, visited, request, removed, v);
        }
      } else if s.ref != "" && Resolve(s.ref, defs) != Nil && !HasRefSiblings(s) {
        CutReferenceAcceptsAll(s, defs, visited, request, removed, v);
      } else {
        SoundLocal(s, s, defs, visited, request, other, inner, removed, v);
      }
    }
  }

  /** A reference met again on its own path compiles to a schema without constraints. */
  lemma CutReferenceAcceptsAll(s: RawSchema, defs: Defs, visited: set<string>, request: bool,
                               removed: set<string>, v: Json)
    requires s.Raw? && !HasRefSiblings(s)
    ensures Preflight(Relax(RuntimeLocal(s, s, defs, visited, request), removed), v)
  {
    var out := RuntimeLocal(s, s, defs, visited, request);
    assert out.required == [] && out.allOf == [] && out.properties == map[] && out.items == NilSpec
        && out.typ == NoType;
    var relaxed := Relax(out, removed);
    assert HasRequired(relaxed, v) && PreflightProperties(relaxed, v) && PreflightItems(relaxed, v);
    assert PreflightAllOf(relaxed, v);
  }

  lemma {:induction false} SoundLocal(s: RawSchema, whole: RawSchema, defs: Defs, visited: set<string>, request: bool,
                                      other: Verdict, exempt: iset<string>, removed: set<string>, v: Json)
    requires s.Raw? && whole.Raw? && s == whole.(ref := s.ref)
    requires Within(exempt, RelaxedNames(s, defs, request) + removed)
    requires UnfoldedLocal(whole, other, exempt, v, AcceptsReading(defs, request, other))
    ensures Preflight(Relax(RuntimeLocal(s, whole, defs, visited, request), removed), v)
    decreases Resolvable(defs) - visited, whole, 0
  {
    var all := RelaxedNames(s, defs, request) + removed;
    var relaxed := Relax(RuntimeLocal(s, whole, defs, visited, request), removed);
    if !(s.nullable && v.Null?) {
      assert HasRequired(relaxed, v);
      assert PreflightProperties(relaxed, v) by {
        if v.Obj? {
          forall key | key in relaxed.properties && key in v.fields
            ensures Preflight(relaxed.properties[key], v.fields[key])
          {
            Sound(whole.properties[key], defs, visited, request, other, iset{}, {}, v.fields[key]);
            RelaxNothing(relaxed.properties[key]);
          }
        }
      }
      assert PreflightItems(relaxed, v) by {
        if v.Arr? {
          forall i | 0 <= i < |v.items| ensures Preflight(relaxed.items, v.items[i]) {
            Sound(whole.items, defs, visited, request, other, iset{}, {}, v.items[i]);
            RelaxNothing(relaxed.items);
          }
        }
      }
      assert PreflightAllOf(relaxed, v) by {
        forall i | 0 <= i < |relaxed.allOf| ensures Preflight(relaxed.allOf[i], v) {
          Sound(whole.allOf[i], defs, visited, request, other, exempt, all, v);
          RelaxedChild(s, whole, i, defs, visited, request, removed);
        }
      }
    }
  }

  lemma RelaxedChild(s: RawSchema, whole: RawSchema, i: nat, defs: Defs, visited: set<string>, request: bool,
                     removed: set<string>)
    requires s.Raw? && whole.Raw? && s == whole.(ref := s.ref) && i < |s.allOf|
    ensures i < |Relax(RuntimeLocal(s, whole, defs, visited, request), removed).allOf|
    ensures Relax(RuntimeLocal(s, whole, defs, visited, request), removed).allOf[i]
         == Relax(RuntimeSchema(s.allOf[i], defs, visited, request), RelaxedNames(s, defs, request) + removed)
  {
    RelaxTwice(RuntimeSchema(s.allOf[i], defs, visited, request), RelaxedNames(s, defs, request), removed);
    assert {} + removed == removed;
  }

  /** The law the preflight exists for: what the source request schema accepts, whatever its other
      keywords mean and however its references loop, the compiled preflight accepts. */
  lemma PreflightNeverRejectsValidBody(s: RawSchema, defs: Defs, other: Verdict, body: Json)
    requires Accepts(s, defs, true, other, iset{}, body)
    ensures StaticDocuments.Valid(PreflightDocument(s, defs), body)
  {
    StaticDocuments.StaticDocumentMeaning(RuntimeSchema(s, defs, {}, true), body);
    Sound(s, defs, {}, true, other, iset{}, {}, body);
    RelaxNothing(RuntimeSchema(s, defs, {}, true));
  }

  // ----- exactness

  /** No reference repeats on a path of the unfolding, so nothing is cut. */
  predicate NeverCut(s: RawSchema, defs: Defs, visited: set<string>)
    decreases Resolvable(defs) - visited, s
  {
    s.Raw? ==>
      && (s.ref != "" && Resolve(s.ref, defs) != Nil ==>
            && s.ref !in visited
            && (ResolvableRef(s.ref, defs); NeverCut(Resolve(s.ref, defs), defs, visited + {s.ref})))
      && (forall key :: key in s.properties ==> NeverCut(s.properties[key], defs, visited))
      && NeverCut(s.items, defs, visited)
      && forall i :: 0 <= i < |s.allOf| ==> NeverCut(s.allOf[i], defs, visited)
  }

  /** Only keywords that the preflight compiles. */
  predicate Compiled(s: RawSchema) {
    s.Raw? ==>
      && !s.typ.UnknownType?
      && s.enum == [] && s.anyOf == [] && s.oneOf == [] && s.additional == NoAdditional
      && (forall key :: key in s.properties ==> Compiled(s.properties[key]))
      && Compiled(s.items)
      && forall i :: 0 <= i < |s.allOf| ==> Compiled(s.allOf[i])
  }

  /** The same of every schema that `s` reaches through references. */
  predicate CompiledReach(s: RawSchema, defs: Defs, visited: set<string>)
    decreases Resolvable(defs) - visited, s
  {
    && Compiled(s)
    && (s.Raw? ==>
          && (s.ref != "" && Resolve(s.ref, defs) != Nil && s.ref !in visited ==>
                (ResolvableRef(s.ref, defs); CompiledReach(Resolve(s.ref, defs), defs, visited + {s.ref})))
          && (forall key :: key in s.properties ==> CompiledReach(s.properties[key], defs, visited))
          && CompiledReach(s.items, defs, visited)
          && forall i :: 0 <= i < |s.allOf| ==> CompiledReach(s.allOf[i], defs, visited))
  }

  /** `other` says nothing about schemas that have no other keyword. */
  ghost predicate OnlyOtherKeywords(other: Verdict) {
    forall s, v :: Compiled(s) ==> other(s, v)
  }

  ghost predicate ExactConditions(s: RawSchema, defs: Defs, visited: set<string>, other: Verdict) {
    CompiledReach(s, defs, visited) && OnlyOtherKeywords(other)
  }

  /** Every part of the value that meets a cut reference is accepted by the target of that reference. What
      a `nullable` settles is not looked into. */
  ghost predicate CutsHold(s: RawSchema, defs: Defs, visited: set<string>, request: bool, other: Verdict,
                           exempt: iset<string>, v: Json)
    decreases Resolvable(defs) - visited, s, 1
  {
    s.Raw? ==>
      var inner := Exempted(s, defs, request, exempt);
      if UsesReference(s, defs) then
        var target := if s.ref in visited then Accepts(Resolve(s.ref, defs), defs, request, other, inner, v)
          else (ResolvableRef(s.ref, defs);
                CutsHold(Resolve(s.ref, defs), defs, visited + {s.ref}, request, other, inner, v));
        if HasRefSiblings(s) then target && CutsHoldInside(s, defs, visited, request, other, inner, v)
        else target || (s.nullable && v.Null?)
      else CutsHoldInside(s, defs, visited, request, other, inner, v)
  }

  ghost predicate CutsHoldInside(s: RawSchema, defs: Defs, visited: set<string>, request: bool, other: Verdict,
                                 exempt: iset<string>, v: Json)
    requires s.Raw?
    decreases Resolvable(defs) - visited, s, 0
  {
    || (s.nullable && v.Null?)
    || (&& (v.Obj? ==> forall key :: key in s.properties && key in v.fields ==>
              CutsHold(s.properties[key], defs, visited, request, other, iset{}, v.fields[key]))
        && (v.Arr? ==> forall i :: 0 <= i < |v.items| ==>
              CutsHold(s.items, defs, visited, request, other, iset{}, v.items[i]))
        && forall i :: 0 <= i < |s.allOf| ==> CutsHold(s.allOf[i], defs, visited, request, other, exempt, v))
  }

  /** What is accepted is accepted at the cuts too. */
  lemma {:induction false} AcceptedCutsHold(s: RawSchema, defs: Defs, visited: set<string>, request: bool,
                                            other: Verdict, exempt: iset<string>, v: Json)
    requires Accepts(s, defs, request, other, exempt, v)
    ensures CutsHold(s, defs, visited, request, other, exempt, v)
    decreases Resolvable(defs) - visited, s, 1
  {
    AcceptsIsFixpoint(s, defs, request, other, exempt, v);
    if s.Nil? {
    } else {
      var inner := Exempted(s, defs, request, exempt);
      if UsesReference(s, defs) && s.ref !in visited && Accepts(Resolve(s.ref, defs), defs, request, other, inner, v) {
        ResolvableRef(s.ref, defs);
        AcceptedCutsHold(Resolve(s.ref, defs), defs, visited + {s.ref}, request, other, inner, v);
      }
      if UnfoldedLocal(s, other, inner, v, AcceptsReading(defs, request, other)) {
        AcceptedCutsHoldInside(s, defs, visited, request, other, inner, v);
      }
    }
  }

  lemma {:induction false} AcceptedCutsHoldInside(s: RawSchema, defs: Defs, visited: set<string>, request: bool,
                                                  other: Verdict, exempt: iset<string>, v: Json)
    requires s.Raw? && UnfoldedLocal(s, other, exempt, v, AcceptsReading(defs, request, other))
    ensures CutsHoldInside(s, defs, visited, request, other, exempt, v)
    decreases Resolvable(defs) - visited, s, 0
  {
    if !(s.nullable && v.Null?) {
      if v.Obj? {
        forall key | key in s.properties && key in v.fields
          ensures CutsHold(s.properties[key], defs, visited, request, other, iset{}, v.fields[key])
        {
          AcceptedCutsHold(s.properties[key], defs, visited, request, other, iset{}, v.fields[key]);
        }
      }
      if v.Arr? {
        forall i | 0 <= i < |v.items|
          ensures CutsHold(s.items, defs, visited, request, other, iset{}, v.items[i])
        {
          AcceptedCutsHold(s.items, defs, visited, request, other, iset{}, v.items[i]);
        }
      }
      forall i | 0 <= i < |s.allOf| ensures CutsHold(s.allOf[i], defs, visited, request, other, exempt, v) {
        AcceptedCutsHold(s.allOf[i], defs, visited, request, other, exempt, v);
      }
    }
  }

  /** Where nothing is cut, nothing is asked. */
  lemma {:induction false} NothingCutHolds(s: RawSchema, defs: Defs, visited: set<string>, request: bool,
                                           other: Verdict, exempt: iset<string>, v: Json)
    requires NeverCut(s, defs, visited)
    ensures CutsHold(s, defs, visited, request, other, exempt, v)
    decreases Resolvable(defs) - visited, s, 1
  {
    if s.Nil? {
    } else {
      var inner := Exempted(s, defs, request, exempt);
      if UsesReference(s, defs) {
        ResolvableRef(s.ref, defs);
        NothingCutHolds(Resolve(s.ref, defs), defs, visited + {s.ref}, request, other, inner, v);
      }
      NothingCutHoldsInside(s, defs, visited, request, other, inner, v);
    }
  }

  lemma {:induction false} NothingCutHoldsInside(s: RawSchema, defs: Defs, visited: set<string>, request: bool,
                                                 other: Verdict, exempt: iset<string>, v: Json)
    requires s.Raw? && NeverCut(s, defs, visited)
    ensures CutsHoldInside(s, defs, visited, request, other, exempt, v)
    decreases Resolvable(defs) - visited, s, 0
  {
    if v.Obj? {
      forall key | key in s.properties && key in v.fields
        ensures CutsHold(s.properties[key], defs, visited, request, other, iset{}, v.fields[key])
      {
        NothingCutHolds(s.properties[key], defs, visited, request, other, iset{}, v.fields[key]);
      }
    }
    if v.Arr? {
      forall i | 0 <= i < |v.items| ensures CutsHold(s.items, defs, visited, request, other, iset{}, v.items[i]) {
        NothingCutHolds(s.items, defs, visited, request, other, iset{}, v.items[i]);
      }
    }
    forall i | 0 <= i < |s.allOf| ensures CutsHold(s.allOf[i], defs, visited, request, other, exempt, v) {
      NothingCutHolds(s.allOf[i], defs, visited, request, other, exempt, v);
    }
  }

  lemma {:induction false} Exact(k: nat, s: RawSchema, defs: Defs, visited: set<string>, request: bool, other: Verdict,
                                 exempt: iset<string>, removed: set<string>, v: Json)
    requires ExactConditions(s, defs, visited, other) && CutsHold(s, defs, visited, request, other, exempt, v)
    requires forall name :: name in removed ==> name in exempt
    requires Preflight(Relax(RuntimeSchema(s, defs, visited, request), removed), v)
    ensures AcceptsWithin(k, s, defs, request, other, exempt, v)
    decreases Resolvable(defs) - visited, s, 2
  {
    if s.Nil? {
    } else {
      var inner := Exempted(s, defs, request, exempt);
      forall name | name in RelaxedNames(s, defs, request) + removed ensures name in inner {
        ExemptedNames(s, defs, request, exempt, name);
      }
      if !UsesReference(s, defs) {
        ExactLocal(k, s, s, defs, visited, request, other, inner, removed, v);
      } else if s.ref in visited {
        if HasRefSiblings(s) {
          ExactLocal(k, s, s, defs, visited, request, other, inner, removed, v);
        }
      } else {
        ExactReference(k, s, defs, visited, request, other, exempt, removed, v);
      }
    }
  }

  lemma {:induction false} ExactReference(k: nat, s: RawSchema, defs: Defs, visited: set<string>, request: bool,
                                          other: Verdict, exempt: iset<string>, removed: set<string>, v: Json)
    requires s.Raw? && UsesReference(s, defs) && s.ref !in visited
    requires ExactConditions(s, defs, visited, other) && CutsHold(s, defs, visited, request, other, exempt, v)
    requires forall name :: name in RelaxedNames(s, defs, request) + removed ==>
               name in Exempted(s, defs, request, exempt)
    requires Preflight(Relax(RuntimeSchema(s, defs, visited, request), removed), v)
    ensures AcceptsWithin(k, s, defs, request, other, exempt, v)
    decreases Resolvable(defs) - visited, s, 1
  {
    var inner := Exempted(s, defs, request, exempt);
    var all := RelaxedNames(s, defs, request) + removed;
    ResolvableRef(s.ref, defs);
    if HasRefSiblings(s) {
      SiblingReference(s, defs, visited, request, removed, v);
      SiblingNames(s, defs);
      ExactLocal(k, s.(ref := ""), s, defs, visited, request, other, inner, all, v);
    } else {
      BareReference(s, defs, visited, request, removed, v);
    }
    if k > 0 && !(!HasRefSiblings(s) && s.nullable && v.Null?) {
      Exact(k - 1, Resolve(s.ref, defs), defs, visited + {s.ref}, request, other, inner, all, v);
    }
  }

  /** Without its reference a schema composes fewer read-only names. */
  lemma SiblingNames(s: RawSchema, defs: Defs)
    requires s.Raw?
    ensures ReadOnlyNames(s.(ref := ""), defs) <= ReadOnlyNames(s, defs)
  {
    var sibling := s.(ref := "");
    forall name | name in ReadOnlyNames(sibling, defs) ensures name in ReadOnlyNames(s, defs) {
      ReadOnlyNamesExact(sibling, defs, name);
      ReadOnlyNamesExact(s, defs, name);
      var k: nat :| NameWithin(k, sibling, defs, name);
      if k > 0 && exists i :: 0 <= i < |s.allOf| && NameWithin(k - 1, s.allOf[i], defs, name) {
        assert NameWithin(k, s, defs, name);
      } else {
        assert Resolve(sibling.ref, defs) == Nil;
        assert k > 0 ==> !NameWithin(k - 1, Nil, defs, name);
        assert NameWithin(0, s, defs, name);
      }
    }
  }

  lemma {:induction false} ExactFields(k: nat, s: RawSchema, whole: RawSchema, defs: Defs, visited: set<string>,
                                       request: bool, other: Verdict, exempt: iset<string>, removed: set<string>,
                                       v: Json)
    requires s.Raw? && whole.Raw? && s == whole.(ref := s.ref)
    requires ExactConditions(whole, defs, visited, other)
    requires CutsHoldInside(whole, defs, visited, request, other, exempt, v)
    requires forall name :: name in RelaxedNames(s, defs, request) + removed ==> name in exempt
    requires Preflight(Relax(RuntimeLocal(s, whole, defs, visited, request), removed), v)
    requires v.Obj?
    ensures forall name :: name in whole.required && name !in exempt ==> name in v.fields
    ensures forall key :: key in whole.properties && key in v.fields ==>
              AcceptsWithin(k, whole.properties[key], defs, request, other, iset{}, v.fields[key])
    decreases Resolvable(defs) - visited, whole, 0, 0
  {
    var relaxed := Relax(RuntimeLocal(s, whole, defs, visited, request), removed);
    assert HasRequired(relaxed, v) && PreflightProperties(relaxed, v);
    forall name | name in whole.required && name !in exempt ensures name in v.fields {
      assert name in relaxed.required;
    }
    forall key | key in whole.properties && key in v.fields
      ensures AcceptsWithin(k, whole.properties[key], defs, request, other, iset{}, v.fields[key])
    {
      RelaxNothing(relaxed.properties[key]);
      Exact(k, whole.properties[key], defs, visited, request, other, iset{}, {}, v.fields[key]);
    }
  }

  lemma {:induction false} ExactItems(k: nat, s: RawSchema, whole: RawSchema, defs: Defs, visited: set<string>,
                                      request: bool, other: Verdict, exempt: iset<string>, removed: set<string>,
                                      v: Json)
    requires s.Raw? && whole.Raw? && s == whole.(ref := s.ref)
    requires ExactConditions(whole, defs, visited, other)
    requires CutsHoldInside(whole, defs, visited, request, other, exempt, v)
    requires forall name :: name in RelaxedNames(s, defs, request) + removed ==> name in exempt
    requires Preflight(Relax(RuntimeLocal(s, whole, defs, visited, request), removed), v)
    requires v.Arr?
    ensures forall i :: 0 <= i < |v.items| ==> AcceptsWithin(k, whole.items, defs, request, other, iset{}, v.items[i])
    decreases Resolvable(defs) - visited, whole, 0, 0
  {
    var relaxed := Relax(RuntimeLocal(s, whole, defs, visited, request), removed);
    assert PreflightItems(relaxed, v);
    forall i | 0 <= i < |v.items| ensures AcceptsWithin(k, whole.items, defs, request, other, iset{}, v.items[i]) {
      RelaxNothing(relaxed.items);
      Exact(k, whole.items, defs, visited, request, other, iset{}, {}, v.items[i]);
    }
  }

  lemma {:induction false} ExactParts(k: nat, s: RawSchema, whole: RawSchema, defs: Defs, visited: set<string>,
                                      request: bool, other: Verdict, exempt: iset<string>, removed: set<string>,
                                      v: Json)
    requires s.Raw? && whole.Raw? && s == whole.(ref := s.ref)
    requires ExactConditions(whole, defs, visited, other)
    requires CutsHoldInside(whole, defs, visited, request, other, exempt, v)
    requires forall name :: name in RelaxedNames(s, defs, request) + removed ==> name in exempt
    requires Preflight(Relax(RuntimeLocal(s, whole, defs, visited, request), removed), v)
    requires !(whole.nullable && v.Null?)
    ensures forall i :: 0 <= i < |whole.allOf| ==> AcceptsWithin(k, whole.allOf[i], defs, request, other, exempt, v)
    decreases Resolvable(defs) - visited, whole, 0, 0
  {
    var relaxed := Relax(RuntimeLocal(s, whole, defs, visited, request), removed);
    forall i | 0 <= i < |whole.allOf| ensures AcceptsWithin(k, whole.allOf[i], defs, request, other, exempt, v) {
      RelaxedChild(s, whole, i, defs, visited, request, removed);
      assert PreflightAllOf(relaxed, v) && Preflight(relaxed.allOf[i], v);
      Exact(k, whole.allOf[i], defs, visited, request, other, exempt, RelaxedNames(s, defs, request) + removed, v);
    }
  }

  lemma {:induction false} ExactLocal(k: nat, s: RawSchema, whole: RawSchema, defs: Defs, visited: set<string>,
                                      request: bool, other: Verdict, exempt: iset<string>, removed: set<string>,
                                      v: Json)
    requires s.Raw? && whole.Raw? && s == whole.(ref := s.ref)
    requires ExactConditions(whole, defs, visited, other)
    requires CutsHoldInside(whole, defs, visited, request, other, exempt, v)
    requires forall name :: name in RelaxedNames(s, defs, request) + removed ==> name in exempt
    requires Preflight(Relax(RuntimeLocal(s, whole, defs, visited, request), removed), v)
    ensures LocalWithin(k, whole, defs, request, other, exempt, v)
    decreases Resolvable(defs) - visited, whole, 0, 1
  {
    var relaxed := Relax(RuntimeLocal(s, whole, defs, visited, request), removed);
    if !(whole.nullable && v.Null?) {
      assert CompiledTypeMatches(relaxed.typ, relaxed.format, v);
      if v.Obj? {
        ExactFields(k, s, whole, defs, visited, request, other, exempt, removed, v);
      }
      if v.Arr? {
        ExactItems(k, s, whole, defs, visited, request, other, exempt, removed, v);
      }
      ExactParts(k, s, whole, defs, visited, request, other, exempt, removed, v);
      assert other(whole, v);
    }
  }

  /** On schemas that reach only compiled keywords, however their references loop, the source schema
      accepts exactly the bodies that the preflight accepts and whose parts at cut references are accepted by
      the targets of these. */
  lemma AcceptanceIsPreflightAndCuts(s: RawSchema, defs: Defs, other: Verdict, body: Json)
    requires ExactConditions(s, defs, {}, other)
    ensures Accepts(s, defs, true, other, iset{}, body)
       <==> StaticDocuments.Valid(PreflightDocument(s, defs), body)
            && CutsHold(s, defs, {}, true, other, iset{}, body)
  {
    StaticDocuments.StaticDocumentMeaning(RuntimeSchema(s, defs, {}, true), body);
    RelaxNothing(RuntimeSchema(s, defs, {}, true));
    if Accepts(s, defs, true, other, iset{}, body) {
      PreflightNeverRejectsValidBody(s, defs, other, body);
      AcceptedCutsHold(s, defs, {}, true, other, iset{}, body);
    } else if Preflight(RuntimeSchema(s, defs, {}, true), body) && CutsHold(s, defs, {}, true, other, iset{}, body) {
      forall k: nat ensures AcceptsWithin(k, s, defs, true, other, iset{}, body) {
        Exact(k, s, defs, {}, true, other, iset{}, {}, body);
      }
    }
  }

  /** On schemas that reach no cut reference and only compiled keywords, the preflight and the source
      schema accept the same bodies, read-only properties included; what they do not reach is free. */
  lemma PreflightDecidesAcceptance(s: RawSchema, defs: Defs, other: Verdict, body: Json)
    requires ExactConditions(s, defs, {}, other) && NeverCut(s, defs, {})
    ensures StaticDocuments.Valid(PreflightDocument(s, defs), body) <==> Accepts(s, defs, true, other, iset{}, body)
  {
    NothingCutHolds(s, defs, {}, true, other, iset{}, body);
    AcceptanceIsPreflightAndCuts(s, defs, other, body);
  }

  // ----- which schemas are never cut

  /** Every reference that `s` reaches ranks below the one that leads to it, the first below `bound`. */
  ghost predicate RefsBelow(s: RawSchema, defs: Defs, rank: string -> nat, bound: nat)
    decreases bound, s
  {
    s.Raw? ==>
      && (s.ref != "" && Resolve(s.ref, defs) != Nil ==>
            rank(s.ref) < bound && RefsBelow(Resolve(s.ref, defs), defs, rank, rank(s.ref)))
      && (forall key :: key in s.properties ==> RefsBelow(s.properties[key], defs, rank, bound))
      && RefsBelow(s.items, defs, rank, bound)
      && forall i :: 0 <= i < |s.allOf| ==> RefsBelow(s.allOf[i], defs, rank, bound)
  }

  /** Where the references that a schema reaches can be ranked, no unfolding is ever cut. */
  lemma {:induction false} AcyclicNeverCuts(s: RawSchema, defs: Defs, visited: set<string>, rank: string -> nat,
                                            bound: nat)
    requires RefsBelow(s, defs, rank, bound)
    requires forall ref :: ref in visited ==> rank(ref) >= bound
    ensures NeverCut(s, defs, visited)
    decreases bound, s
  {
    if s.Nil? {
    } else {
      if s.ref != "" && Resolve(s.ref, defs) != Nil {
        AcyclicNeverCuts(Resolve(s.ref, defs), defs, visited + {s.ref}, rank, rank(s.ref));
      }
      forall key | key in s.properties ensures NeverCut(s.properties[key], defs, visited) {
        AcyclicNeverCuts(s.properties[key], defs, visited, rank, bound);
      }
      AcyclicNeverCuts(s.items, defs, visited, rank, bound);
      forall i | 0 <= i < |s.allOf| ensures NeverCut(s.allOf[i], defs, visited) {
        AcyclicNeverCuts(s.allOf[i], defs, visited, rank, bound);
      }
    }
  }

  // ----- where the preflight is strictly wider

  const EMPTY_SCHEMA := Raw("", NoType, NoFormat, false, false, [], map[], [], Nil, [], [], [], NoAdditional)
  const NODE_REF := "#/definitions/Node"
  const NODE := EMPTY_SCHEMA.(typ := ObjectType, properties := map["next" := EMPTY_SCHEMA.(ref := NODE_REF)])
  const NODE_DEFS: Defs := map["Node" := NODE]

  lemma NodeResolves()
    ensures Resolve(NODE_REF, NODE_DEFS) == NODE
  {
    assert NODE_REF == REF_PREFIX + "Node";
    assert NODE_REF[|REF_PREFIX|..] == "Node";
  }

  /** The recursive property of the compiled type is a cut reference. */
  lemma WideNode(s: RawSchema, target: SchemaSpec) returns (cut: SchemaSpec)
    requires s == EMPTY_SCHEMA.(ref := NODE_REF) && Resolve(NODE_REF, NODE_DEFS) == NODE
    requires Unfolds(s, NODE_DEFS, {}) && target == Target(s, NODE_DEFS, {}, true)
    ensures cut == RuntimeLocal(s, s, NODE_DEFS, {} + {NODE_REF}, true)
    ensures target.Spec? && target.properties.Keys == {"next"} && target.properties["next"] == cut
    ensures target.required == [] && target.allOf == [] && target.items == NilSpec && target.typ == ObjectType
  {
    assert target == RuntimeLocal(NODE, NODE, NODE_DEFS, {} + {NODE_REF}, true);
    assert NODE.properties.Keys == {"next"} && NODE.properties["next"] == s;
    cut := RuntimeLocal(s, s, NODE_DEFS, {} + {NODE_REF}, true);
    assert RuntimeSchema(s, NODE_DEFS, {} + {NODE_REF}, true) == cut;
  }

  lemma WideTarget()
    ensures var s := EMPTY_SCHEMA.(ref := NODE_REF);
            && Unfolds(s, NODE_DEFS, {})
            && Preflight(Relax(Target(s, NODE_DEFS, {}, true), RelaxedNames(s, NODE_DEFS, true) + {}),
                         Obj(map["next" := Null]))
  {
    NodeResolves();
    var s := EMPTY_SCHEMA.(ref := NODE_REF);
    var target := Target(s, NODE_DEFS, {}, true);
    var cut := WideNode(s, target);
    CutReferenceAcceptsAll(s, NODE_DEFS, {} + {NODE_REF}, true, {}, Null);
    RelaxNothing(cut);
    var relaxed := Relax(target, RelaxedNames(s, NODE_DEFS, true) + {});
    var body := Obj(map["next" := Null]);
    assert HasRequired(relaxed, body) && PreflightProperties(relaxed, body);
    assert PreflightItems(relaxed, body) && PreflightAllOf(relaxed, body);
  }

  lemma NodeRejects(other: Verdict)
    ensures var body := Obj(map["next" := Null]);
            !AcceptsWithin(2, EMPTY_SCHEMA.(ref := NODE_REF), NODE_DEFS, true, other, iset{}, body)
  {
    NodeResolves();
    var s := EMPTY_SCHEMA.(ref := NODE_REF);
    var body := Obj(map["next" := Null]);
    var inner := Exempted(s, NODE_DEFS, true, iset{});
    var inside := Exempted(NODE, NODE_DEFS, true, inner);
    assert !LocalWithin(0, NODE, NODE_DEFS, true, other, inside, Null);
    assert !AcceptsWithin(0, NODE, NODE_DEFS, true, other, inner, Null);
    assert !AcceptsWithin(1, s, NODE_DEFS, true, other, iset{}, Null);
    assert NODE.properties["next"] == s;
    assert !LocalWithin(1, NODE, NODE_DEFS, true, other, inside, body);
    assert !AcceptsWithin(1, NODE, NODE_DEFS, true, other, inner, body);
  }

  /** A cut reference widens: below the second occurrence of a recursive type anything passes. */
  lemma CyclicSchemaWidens(other: Verdict)
    ensures var s := EMPTY_SCHEMA.(ref := NODE_REF);
            var body := Obj(map["next" := Null]);
            && StaticDocuments.Valid(PreflightDocument(s, NODE_DEFS), body)
            && !Accepts(s, NODE_DEFS, true, other, iset{}, body)
  {
    var s := EMPTY_SCHEMA.(ref := NODE_REF);
    var body := Obj(map["next" := Null]);
    WideTarget();
    BareReference(s, NODE_DEFS, {}, true, {}, body);
    RelaxNothing(RuntimeSchema(s, NODE_DEFS, {}, true));
    StaticDocuments.StaticDocumentMeaning(RuntimeSchema(s, NODE_DEFS, {}, true), body);
    NodeRejects(other);
  }
}
