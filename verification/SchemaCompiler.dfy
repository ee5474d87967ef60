/** Unfolding of source schemas into self-contained runtime schemas
    (internal/codegen/normalize/schema.go). */
module SchemaCompiler {
  import opened RawSchemas

  datatype SchemaSpec =
    | NilSpec
    | Spec(
        ref: string,
        typ: SchemaType,
        format: Format,
        nullable: bool,
        enum: seq<string>,
        properties: map<string, SchemaSpec>,
        required: seq<string>,
        items: SchemaSpec,
        anyOf: seq<SchemaSpec>,
        oneOf: seq<SchemaSpec>,
        allOf: seq<SchemaSpec>,
        additional: AdditionalSpec)

  datatype AdditionalSpec = NoAdditionalSpec | AdditionalSpec(allowed: bool, schema: SchemaSpec)

  const EMPTY_SPEC := Spec("", NoType, NoFormat, false, [], map[], [], NilSpec, [], [], [], NoAdditionalSpec)

  function Conjunction(parts: seq<SchemaSpec>): SchemaSpec {
    EMPTY_SPEC.(allOf := parts)
  }

  /** The elements of `required` outside `names`, in order. */
  function Without(required: seq<string>, names: set<string>): (kept: seq<string>)
    ensures forall name :: name in kept <==> name in required && name !in names
  {
    if required == [] then []
    else (if required[0] in names then [] else [required[0]]) + Without(required[1..], names)
  }

  /** The loop of removeReadOnlyRequired: compaction into the prefix of the same storage. */
  method CompactRequired(required: array<string>, names: set<string>) returns (n: nat)
    modifies required
    ensures n <= required.Length
    ensures required[..n] == Without(old(required[..]), names)
  {
    n := 0;
    ghost var before := required[..];
    for i := 0 to required.Length
      invariant n <= i
      invariant required[..n] == Without(before[..i], names)
      invariant forall j :: i <= j < required.Length ==> required[j] == before[j]
    {
      WithoutNext(before, i, names);
      if required[i] !in names {
        required[n] := required[i];
        n := n + 1;
      }
    }
    assert before[..required.Length] == before;
  }

  lemma WithoutNext(required: seq<string>, i: nat, names: set<string>)
    requires i < |required|
    ensures Without(required[..i + 1], names)
         == Without(required[..i], names) + (if required[i] in names then [] else [required[i]])
  {
    WithoutSnoc(required[..i], required[i], names);
    assert required[..i + 1] == required[..i] + [required[i]];
  }

  lemma {:induction false} WithoutSnoc(required: seq<string>, name: string, names: set<string>)
    ensures Without(required + [name], names) == Without(required, names) + (if name in names then [] else [name])
  {
    if required == [] {
      assert [name][1..] == [];
    } else {
      assert (required + [name])[1..] == required[1..] + [name];
      WithoutSnoc(required[1..], name, names);
    }
  }

  /** removeReadOnlyRequired: relaxes a schema and, recursively, its allOf parts. */
  function Relax(s: SchemaSpec, names: set<string>): (relaxed: SchemaSpec)
    ensures relaxed.NilSpec? <==> s.NilSpec?
  {
    if s.NilSpec? then s
    else s.(
      required := Without(s.required, names),
      allOf := seq(|s.allOf|, i requires 0 <= i < |s.allOf| => Relax(s.allOf[i], names)))
  }

  function RelaxReadOnly(out: SchemaSpec, s: RawSchema, defs: Defs, request: bool): SchemaSpec {
    if request then Relax(out, ReadOnlyNames(s, defs)) else out
  }

  /** runtimeSchema. The measure is (references not yet unfolded on this path, schema), so
      unfolding terminates on every finite table, cyclic or not. */
  function RuntimeSchema(s: RawSchema, defs: Defs, visited: set<string>, request: bool): (out: SchemaSpec)
    ensures out.NilSpec? <==> s.Nil?
    decreases Resolvable(defs) - visited, s, 1
  {
    if s.Nil? then NilSpec
    else if s.ref != "" && s.ref !in visited && Resolve(s.ref, defs) != Nil then
      ResolvableRef(s.ref, defs);
      var target := RuntimeSchema(Resolve(s.ref, defs), defs, visited + {s.ref}, request);
      var base :=
        if HasRefSiblings(s) then
          Conjunction([target, RuntimeLocal(s.(ref := ""), s, defs, visited, request)])
        else
          target.(nullable := target.nullable || s.nullable);
      RelaxReadOnly(base, s, defs, request)
    else RuntimeLocal(s, s, defs, visited, request)
  }

  /** The keywords beside a reference. `s` is `whole`, or the copy of `whole` without its reference. */
  function RuntimeLocal(s: RawSchema, ghost whole: RawSchema, defs: Defs, visited: set<string>, request: bool)
      : (out: SchemaSpec)
    requires s.Raw? && whole.Raw? && s == whole.(ref := s.ref)
    ensures out.Spec?
    decreases Resolvable(defs) - visited, whole, 0
  {
    var out := Spec(
      s.ref, s.typ, s.format, s.nullable, s.enum,
      map key | key in s.properties :: RuntimeSchema(s.properties[key], defs, visited, request),
      s.required,
      RuntimeSchema(s.items, defs, visited, request),
      seq(|s.anyOf|, i requires 0 <= i < |s.anyOf| => RuntimeSchema(s.anyOf[i], defs, visited, request)),
      seq(|s.oneOf|, i requires 0 <= i < |s.oneOf| => RuntimeSchema(s.oneOf[i], defs, visited, request)),
      seq(|s.allOf|, i requires 0 <= i < |s.allOf| => RuntimeSchema(s.allOf[i], defs, visited, request)),
      match s.additional
      case NoAdditional => NoAdditionalSpec
      case Additional(allowed, schema) => AdditionalSpec(allowed, RuntimeSchema(schema, defs, visited, request)));
    RelaxReadOnly(out, s, defs, request)
  }

  // ----- what an unfolding can unfold

  /** `refs` are unfolded, in this order, on some path down from `s`: through a reference into its target,
      or through a keyword into a child. */
  ghost predicate UnfoldsAlong(s: RawSchema, defs: Defs, visited: set<string>, refs: seq<string>)
    decreases Resolvable(defs) - visited, s
  {
    refs == [] || (s.Raw? && (
      || (s.ref != "" && s.ref !in visited && Resolve(s.ref, defs) != Nil && refs[0] == s.ref
          && (ResolvableRef(s.ref, defs); UnfoldsAlong(Resolve(s.ref, defs), defs, visited + {s.ref}, refs[1..])))
      || (exists key :: key in s.properties && UnfoldsAlong(s.properties[key], defs, visited, refs))
      || UnfoldsAlong(s.items, defs, visited, refs)
      || (exists i :: 0 <= i < |s.anyOf| && UnfoldsAlong(s.anyOf[i], defs, visited, refs))
      || (exists i :: 0 <= i < |s.oneOf| && UnfoldsAlong(s.oneOf[i], defs, visited, refs))
      || (exists i :: 0 <= i < |s.allOf| && UnfoldsAlong(s.allOf[i], defs, visited, refs))
      || (s.additional.Additional? && UnfoldsAlong(s.additional.schema, defs, visited, refs))))
  }

  /** References that may still be unfolded, each once. */
  predicate OnceEach(refs: seq<string>, defs: Defs, visited: set<string>) {
    && (forall i :: 0 <= i < |refs| ==> refs[i] in Resolvable(defs) - visited)
    && (forall i, j :: 0 <= i < j < |refs| ==> refs[i] != refs[j])
    && |refs| <= |Resolvable(defs) - visited|
  }

  lemma OnceMore(ref: string, rest: seq<string>, defs: Defs, visited: set<string>)
    requires ref in Resolvable(defs) - visited && OnceEach(rest, defs, visited + {ref})
    ensures OnceEach([ref] + rest, defs, visited)
  {
    assert Resolvable(defs) - (visited + {ref}) == (Resolvable(defs) - visited) - {ref};
  }

  /** On no path is a reference unfolded twice, so a path unfolds at most as many as there are definitions. */
  lemma {:induction false} UnfoldedOnce(s: RawSchema, defs: Defs, visited: set<string>, refs: seq<string>)
    requires UnfoldsAlong(s, defs, visited, refs)
    ensures OnceEach(refs, defs, visited)
    decreases Resolvable(defs) - visited, s
  {
    if refs == [] {
    } else {
      if s.ref != "" && s.ref !in visited && Resolve(s.ref, defs) != Nil && refs[0] == s.ref
         && (ResolvableRef(s.ref, defs); UnfoldsAlong(Resolve(s.ref, defs), defs, visited + {s.ref}, refs[1..])) {
        ResolvableRef(s.ref, defs);
        UnfoldedOnce(Resolve(s.ref, defs), defs, visited + {s.ref}, refs[1..]);
        OnceMore(s.ref, refs[1..], defs, visited);
        assert [s.ref] + refs[1..] == refs;
      } else if key :| key in s.properties && UnfoldsAlong(s.properties[key], defs, visited, refs) {
        UnfoldedOnce(s.properties[key], defs, visited, refs);
      } else if UnfoldsAlong(s.items, defs, visited, refs) {
        UnfoldedOnce(s.items, defs, visited, refs);
      } else if i :| 0 <= i < |s.anyOf| && UnfoldsAlong(s.anyOf[i], defs, visited, refs) {
        UnfoldedOnce(s.anyOf[i], defs, visited, refs);
      } else if i :| 0 <= i < |s.oneOf| && UnfoldsAlong(s.oneOf[i], defs, visited, refs) {
        UnfoldedOnce(s.oneOf[i], defs, visited, refs);
      } else if i :| 0 <= i < |s.allOf| && UnfoldsAlong(s.allOf[i], defs, visited, refs) {
        UnfoldedOnce(s.allOf[i], defs, visited, refs);
      } else {
        UnfoldedOnce(s.additional.schema, defs, visited, refs);
      }
    }
  }

  // ----- relaxing twice, and relaxing by nothing

  lemma {:induction false} WithoutTwice(required: seq<string>, a: set<string>, b: set<string>)
    ensures Without(Without(required, a), b) == Without(required, a + b)
  {
    if required == [] {
    } else {
      WithoutTwice(required[1..], a, b);
      var rest := Without(required[1..], a);
      if required[0] !in a {
        assert ([required[0]] + rest)[1..] == rest;
      } else {
        assert [] + rest == rest;
      }
    }
  }

  lemma {:induction false} RelaxTwice(s: SchemaSpec, a: set<string>, b: set<string>)
    ensures Relax(Relax(s, a), b) == Relax(s, a + b)
  {
    if !s.Spec? {
    } else {
      WithoutTwice(s.required, a, b);
      forall i | 0 <= i < |s.allOf| ensures Relax(Relax(s.allOf[i], a), b) == Relax(s.allOf[i], a + b) {
        RelaxTwice(s.allOf[i], a, b);
      }
      assert Relax(Relax(s, a), b).allOf == Relax(s, a + b).allOf;
    }
  }

  lemma {:induction false} RelaxNothing(s: SchemaSpec)
    ensures Relax(s, {}) == s
  {
    if !s.Spec? {
    } else {
      WithoutNothing(s.required);
      forall i | 0 <= i < |s.allOf| ensures Relax(s.allOf[i], {}) == s.allOf[i] {
        RelaxNothing(s.allOf[i]);
      }
      assert Relax(s, {}).allOf == s.allOf;
    }
  }

  lemma {:induction false} WithoutNothing(required: seq<string>)
    ensures Without(required, {}) == required
  {
    if required == [] {
    } else {
      WithoutNothing(required[1..]);
      assert required == [required[0]] + required[1..];
    }
  }
}
