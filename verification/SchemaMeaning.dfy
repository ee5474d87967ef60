/** What a source request schema accepts, and what a compiled schema accepts in the preflight.

    References are read as a greatest fixpoint: a value is accepted when no finite number of
    unfoldings refutes it. A reference beside other keywords is a conjunction, `nullable` belongs
    to the keywords beside it, and a required name that is read-only somewhere in the enclosing
    reference and allOf composition does not bind a request. Keywords the preflight does not
    compile (other formats, enumerations, anyOf, oneOf, additionalProperties, unknown types) are an
    arbitrary predicate `other`. A string of a 64-bit integer format may also be sent as a number. */
module SchemaMeaning {
  import opened JsonValues
  import opened RawSchemas
  import opened SchemaCompiler

  type Verdict = (RawSchema, Json) -> bool

  predicate KnownType(typ: SchemaType) {
    typ != NoType && !typ.UnknownType?
  }

  predicate TypeMatches(typ: SchemaType, v: Json) {
    match typ
    case ObjectType => v.Obj?
    case ArrayType => v.Arr?
    case StringType => v.Str?
    case IntegerType => v.Num? && v.r.Floor as real == v.r
    case NumberType => v.Num?
    case BooleanType => v.Bool?
    case NullType => v.Null?
    case _ => false
  }

  /** Formats under which a string schema also takes an integer. */
  predicate IntegerFormat(format: Format) {
    format.Int64Format? || format.Uint64Format?
  }

  // ----- source schemas

  /** The values of the type that a source schema names: 64-bit integers travel as strings or as numbers. */
  predicate TakesType(s: RawSchema, v: Json)
    requires s.Raw?
  {
    var integral := v.Num? && v.r.Floor as real == v.r;
    match s.typ
    case NoType => true
    case UnknownType(_) => true
    case ObjectType => v.Obj?
    case ArrayType => v.Arr?
    case StringType => v.Str? || (integral && (s.format == Int64Format || s.format == Uint64Format))
    case IntegerType => integral
    case NumberType => v.Num?
    case BooleanType => v.Bool?
    case NullType => v.Null?
  }

  ghost function Exempted(s: RawSchema, defs: Defs, request: bool, exempt: iset<string>): iset<string> {
    if request then exempt + (iset name | IsReadOnlyName(s, defs, name)) else exempt
  }

  ghost predicate UsesReference(s: RawSchema, defs: Defs)
    requires s.Raw?
  {
    s.ref != "" && Resolve(s.ref, defs) != Nil
  }

  /** No refutation of `v` by `s` within `k` reference unfoldings. */
  ghost predicate AcceptsWithin(k: nat, s: RawSchema, defs: Defs, request: bool, other: Verdict,
                                exempt: iset<string>, v: Json)
    decreases k, s, 1
  {
    s.Raw? ==>
      var inner := Exempted(s, defs, request, exempt);
      if UsesReference(s, defs) then
        var target := k > 0 ==> AcceptsWithin(k - 1, Resolve(s.ref, defs), defs, request, other, inner, v);
        if HasRefSiblings(s) then target && LocalWithin(k, s, defs, request, other, inner, v)
        else target || (s.nullable && v.Null?)
      else LocalWithin(k, s, defs, request, other, inner, v)
  }

  ghost predicate LocalWithin(k: nat, s: RawSchema, defs: Defs, request: bool, other: Verdict,
                              exempt: iset<string>, v: Json)
    requires s.Raw?
    decreases k, s, 0
  {
    || (s.nullable && v.Null?)
    || (&& OwnKeywords(s, other, exempt, v)
        && (v.Obj? ==> forall key :: key in s.properties && key in v.fields ==>
              AcceptsWithin(k, s.properties[key], defs, request, other, iset{}, v.fields[key]))
        && (v.Arr? ==> forall i :: 0 <= i < |v.items| ==>
              AcceptsWithin(k, s.items, defs, request, other, iset{}, v.items[i]))
        && forall i :: 0 <= i < |s.allOf| ==> AcceptsWithin(k, s.allOf[i], defs, request, other, exempt, v))
  }

  ghost predicate OwnKeywords(s: RawSchema, other: Verdict, exempt: iset<string>, v: Json)
    requires s.Raw?
  {
    && TakesType(s, v)
    && (v.Obj? ==> forall name :: name in s.required && name !in exempt ==> name in v.fields)
    && other(s, v)
  }

  ghost predicate Accepts(s: RawSchema, defs: Defs, request: bool, other: Verdict, exempt: iset<string>, v: Json) {
    forall k: nat :: AcceptsWithin(k, s, defs, request, other, exempt, v)
  }

  ghost predicate AcceptsLocal(s: RawSchema, defs: Defs, request: bool, other: Verdict, exempt: iset<string>, v: Json)
    requires s.Raw?
  {
    forall k: nat :: LocalWithin(k, s, defs, request, other, exempt, v)
  }

  // ----- the greatest-fixpoint reading

  type Reading = (RawSchema, iset<string>, Json) -> bool

  /** One unfolding of the meaning of `s`, with `reading` for the schemas it mentions. */
  ghost predicate Unfolded(s: RawSchema, defs: Defs, request: bool, other: Verdict, exempt: iset<string>,
                           v: Json, reading: Reading) {
    s.Raw? ==>
      var inner := Exempted(s, defs, request, exempt);
      if UsesReference(s, defs) then
        var target := reading(Resolve(s.ref, defs), inner, v);
        if HasRefSiblings(s) then target && UnfoldedLocal(s, other, inner, v, reading)
        else target || (s.nullable && v.Null?)
      else UnfoldedLocal(s, other, inner, v, reading)
  }

  ghost predicate UnfoldedLocal(s: RawSchema, other: Verdict, exempt: iset<string>, v: Json, reading: Reading)
    requires s.Raw?
  {
    || (s.nullable && v.Null?)
    || (&& OwnKeywords(s, other, exempt, v)
        && (v.Obj? ==> forall key :: key in s.properties && key in v.fields ==>
              reading(s.properties[key], iset{}, v.fields[key]))
        && (v.Arr? ==> forall i :: 0 <= i < |v.items| ==> reading(s.items, iset{}, v.items[i]))
        && forall i :: 0 <= i < |s.allOf| ==> reading(s.allOf[i], exempt, v))
  }

  ghost function AcceptsReading(defs: Defs, request: bool, other: Verdict): Reading {
    (s, exempt, v) => Accepts(s, defs, request, other, exempt, v)
  }

  /** `Accepts` is a fixpoint of the unfolding... */
  lemma AcceptsIsFixpoint(s: RawSchema, defs: Defs, request: bool, other: Verdict, exempt: iset<string>, v: Json)
    ensures Accepts(s, defs, request, other, exempt, v) <==>
            Unfolded(s, defs, request, other, exempt, v, AcceptsReading(defs, request, other))
  {
    if s.Raw? {
      var inner := Exempted(s, defs, request, exempt);
      LocalIsFixpoint(s, defs, request, other, inner, v);
      if UsesReference(s, defs) {
        var target := Resolve(s.ref, defs);
        if Accepts(s, defs, request, other, exempt, v) {
          forall k: nat ensures HasRefSiblings(s) || !(s.nullable && v.Null?) ==>
              AcceptsWithin(k, target, defs, request, other, inner, v) {
            assert AcceptsWithin(k + 1, s, defs, request, other, exempt, v);
          }
          forall k: nat ensures HasRefSiblings(s) ==> LocalWithin(k, s, defs, request, other, inner, v) {
            assert AcceptsWithin(k, s, defs, request, other, exempt, v);
          }
        }
        if Unfolded(s, defs, request, other, exempt, v, AcceptsReading(defs, request, other)) {
          forall k: nat ensures AcceptsWithin(k, s, defs, request, other, exempt, v) {
            assert HasRefSiblings(s) ==> LocalWithin(k, s, defs, request, other, inner, v);
          }
        }
      } else {
        if Accepts(s, defs, request, other, exempt, v) {
          forall k: nat ensures LocalWithin(k, s, defs, request, other, inner, v) {
            assert AcceptsWithin(k, s, defs, request, other, exempt, v);
          }
        }
        if AcceptsLocal(s, defs, request, other, inner, v) {
          forall k: nat ensures AcceptsWithin(k, s, defs, request, other, exempt, v) {
            assert LocalWithin(k, s, defs, request, other, inner, v);
          }
        }
      }
    }
  }

  lemma LocalIsFixpoint(s: RawSchema, defs: Defs, request: bool, other: Verdict, exempt: iset<string>, v: Json)
    requires s.Raw?
    ensures AcceptsLocal(s, defs, request, other, exempt, v) <==>
            UnfoldedLocal(s, other, exempt, v, AcceptsReading(defs, request, other))
  {
    var reading := AcceptsReading(defs, request, other);
    if UnfoldedLocal(s, other, exempt, v, reading) {
      forall k: nat ensures LocalWithin(k, s, defs, request, other, exempt, v) {}
    } else if !OwnKeywords(s, other, exempt, v) {
      assert !LocalWithin(0, s, defs, request, other, exempt, v);
    } else if v.Obj? && exists key :: key in s.properties && key in v.fields
                                      && !reading(s.properties[key], iset{}, v.fields[key]) {
      var key :| key in s.properties && key in v.fields && !reading(s.properties[key], iset{}, v.fields[key]);
      var k: nat :| !AcceptsWithin(k, s.properties[key], defs, request, other, iset{}, v.fields[key]);
      assert !LocalWithin(k, s, defs, request, other, exempt, v);
    } else if v.Arr? && exists i :: 0 <= i < |v.items| && !reading(s.items, iset{}, v.items[i]) {
      var i :| 0 <= i < |v.items| && !reading(s.items, iset{}, v.items[i]);
      var k: nat :| !AcceptsWithin(k, s.items, defs, request, other, iset{}, v.items[i]);
      assert !LocalWithin(k, s, defs, request, other, exempt, v);
    } else {
      var i :| 0 <= i < |s.allOf| && !reading(s.allOf[i], exempt, v);
      var k: nat :| !AcceptsWithin(k, s.allOf[i], defs, request, other, exempt, v);
      assert !LocalWithin(k, s, defs, request, other, exempt, v);
    }
  }

  /** ...and contains every relation that respects the keywords. */
  lemma {:induction false} AcceptsIsGreatest(k: nat, s: RawSchema, defs: Defs, request: bool, other: Verdict,
                                             exempt: iset<string>, v: Json, reading: Reading)
    requires forall t, e, w :: reading(t, e, w) ==> Unfolded(t, defs, request, other, e, w, reading)
    requires reading(s, exempt, v)
    ensures AcceptsWithin(k, s, defs, request, other, exempt, v)
    decreases k, s, 1
  {
    assert Unfolded(s, defs, request, other, exempt, v, reading);
    if s.Nil? {
    } else {
      var inner := Exempted(s, defs, request, exempt);
      if UsesReference(s, defs) && k > 0 && reading(Resolve(s.ref, defs), inner, v) {
        AcceptsIsGreatest(k - 1, Resolve(s.ref, defs), defs, request, other, inner, v, reading);
      }
      if UnfoldedLocal(s, other, inner, v, reading) {
        LocalIsGreatest(k, s, defs, request, other, inner, v, reading);
      }
    }
  }

  lemma {:induction false} LocalIsGreatest(k: nat, s: RawSchema, defs: Defs, request: bool, other: Verdict,
                                           exempt: iset<string>, v: Json, reading: Reading)
    requires forall t, e, w :: reading(t, e, w) ==> Unfolded(t, defs, request, other, e, w, reading)
    requires s.Raw? && UnfoldedLocal(s, other, exempt, v, reading)
    ensures LocalWithin(k, s, defs, request, other, exempt, v)
    decreases k, s, 0
  {
    if !(s.nullable && v.Null?) {
      if v.Obj? {
        forall key | key in s.properties && key in v.fields
          ensures AcceptsWithin(k, s.properties[key], defs, request, other, iset{}, v.fields[key])
        {
          AcceptsIsGreatest(k, s.properties[key], defs, request, other, iset{}, v.fields[key], reading);
        }
      }
      if v.Arr? {
        forall i | 0 <= i < |v.items| ensures AcceptsWithin(k, s.items, defs, request, other, iset{}, v.items[i]) {
          AcceptsIsGreatest(k, s.items, defs, request, other, iset{}, v.items[i], reading);
        }
      }
      forall i | 0 <= i < |s.allOf| ensures AcceptsWithin(k, s.allOf[i], defs, request, other, exempt, v) {
        AcceptsIsGreatest(k, s.allOf[i], defs, request, other, exempt, v, reading);
      }
    }
  }

  // ----- compiled schemas, as far as the preflight looks at them

  predicate CompiledTypeMatches(typ: SchemaType, format: Format, v: Json) {
    if !KnownType(typ) then true
    else TypeMatches(typ, v) || (typ == StringType && IntegerFormat(format) && TypeMatches(IntegerType, v))
  }

  ghost predicate Preflight(s: SchemaSpec, v: Json)
    decreases s, 1
  {
    s.Spec? ==>
      || (s.nullable && v.Null?)
      || (&& CompiledTypeMatches(s.typ, s.format, v)
          && HasRequired(s, v)
          && PreflightProperties(s, v)
          && PreflightItems(s, v)
          && PreflightAllOf(s, v))
  }

  predicate HasRequired(s: SchemaSpec, v: Json)
    requires s.Spec?
  {
    v.Obj? ==> forall name :: name in s.required ==> name in v.fields
  }

  ghost predicate PreflightProperties(s: SchemaSpec, v: Json)
    requires s.Spec?
    decreases s, 0
  {
    v.Obj? ==> forall key :: key in s.properties && key in v.fields ==> Preflight(s.properties[key], v.fields[key])
  }

  ghost predicate PreflightItems(s: SchemaSpec, v: Json)
    requires s.Spec?
    decreases s, 0
  {
    v.Arr? ==> forall i :: 0 <= i < |v.items| ==> Preflight(s.items, v.items[i])
  }

  ghost predicate PreflightAllOf(s: SchemaSpec, v: Json)
    requires s.Spec?
    decreases s, 0
  {
    forall i :: 0 <= i < |s.allOf| ==> Preflight(s.allOf[i], v)
  }
}
