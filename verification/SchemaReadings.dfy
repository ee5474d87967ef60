/** Readings of source schemas with all of their keywords: where every reference cycle enters a part of the
    value there is exactly one. */
module SchemaReadings {
  import opened JsonValues
  import opened RawSchemas
  import opened SchemaMeaning
  import opened SchemaKeywords

  /** The references that `s` follows without entering a part of the value rank below `bound`, and each below
      the one that leads to it. */
  ghost predicate GuardedBelow(s: RawSchema, defs: Defs, rank: string -> nat, bound: nat)
    decreases bound, s
  {
    s.Raw? ==>
      && (UsesReference(s, defs) ==>
            rank(s.ref) < bound && GuardedBelow(Resolve(s.ref, defs), defs, rank, rank(s.ref)))
      && (forall i :: 0 <= i < |s.anyOf| ==> GuardedBelow(s.anyOf[i], defs, rank, bound))
      && (forall i :: 0 <= i < |s.oneOf| ==> GuardedBelow(s.oneOf[i], defs, rank, bound))
      && (forall i :: 0 <= i < |s.allOf| ==> GuardedBelow(s.allOf[i], defs, rank, bound))
  }

  /** No definition leads back to itself on the same value. Recursion through properties, items and
      additionalProperties is free. */
  ghost predicate Guarded(defs: Defs, rank: string -> nat, top: nat) {
    forall ref :: Resolve(ref, defs) != Nil ==>
      rank(ref) < top && GuardedBelow(Resolve(ref, defs), defs, rank, rank(ref))
  }

  datatype Setting = Setting(defs: Defs, request: bool, scalar: Scalar, rank: string -> nat, top: nat)

  /** The reading by recursion: into the value, else along falling ranks, else into the schema. */
  ghost predicate AcceptsAll(s: RawSchema, c: Setting, bound: nat, exempt: iset<string>, v: Json)
    decreases v, bound, s, 1
  {
    Unfolded(s, c.defs, c.request, Others(c.scalar, Inside(s, c, bound, v)), exempt, v, Inside(s, c, bound, v))
  }

  ghost function Inside(s: RawSchema, c: Setting, bound: nat, v: Json): Reading
    decreases v, bound, s, 0
  {
    (t, e, w) =>
      if v decreases to w then AcceptsAll(t, c, c.top, e, w)
      else if w == v && s.Raw? && UsesReference(s, c.defs) && t == Resolve(s.ref, c.defs) && c.rank(s.ref) < bound
      then AcceptsAll(t, c, c.rank(s.ref), e, v)
      else if w == v && (s decreases to t) then AcceptsAll(t, c, bound, e, v)
      else true
  }

  ghost function Whole(c: Setting): Reading {
    (s, exempt, v) => AcceptsAll(s, c, c.top, exempt, v)
  }

  /** The meaning of `s` on `v` asks for `t` on `w`. */
  ghost predicate AsksFor(s: RawSchema, defs: Defs, v: Json, t: RawSchema, w: Json) {
    || (v decreases to w)
    || (w == v && s.Raw? && (t in s.anyOf || t in s.oneOf || t in s.allOf))
    || (w == v && s.Raw? && UsesReference(s, defs) && t == Resolve(s.ref, defs))
  }

  ghost predicate AgreeBelow(s: RawSchema, defs: Defs, v: Json, a: Reading, b: Reading) {
    forall t, e, w :: AsksFor(s, defs, v, t, w) ==> (a(t, e, w) <==> b(t, e, w))
  }

  lemma SameUnfolding(s: RawSchema, defs: Defs, request: bool, scalar: Scalar, exempt: iset<string>, v: Json,
                      a: Reading, b: Reading)
    requires AgreeBelow(s, defs, v, a, b)
    ensures Unfolded(s, defs, request, Others(scalar, a), exempt, v, a)
       <==> Unfolded(s, defs, request, Others(scalar, b), exempt, v, b)
  {
    if s.Raw? {
      if UsesReference(s, defs) {
        assert AsksFor(s, defs, v, Resolve(s.ref, defs), v);
      }
      var inner := Exempted(s, defs, request, exempt);
      SameLocal(s, defs, scalar, inner, v, a, b);
    }
  }

  lemma SameLocal(s: RawSchema, defs: Defs, scalar: Scalar, exempt: iset<string>, v: Json, a: Reading, b: Reading)
    requires s.Raw? && AgreeBelow(s, defs, v, a, b)
    ensures UnfoldedLocal(s, Others(scalar, a), exempt, v, a) <==> UnfoldedLocal(s, Others(scalar, b), exempt, v, b)
  {
    SameParts(s, defs, v, a, b);
    assert HasOthers(s, scalar, v, a) <==> HasOthers(s, scalar, v, b);
    forall i | 0 <= i < |s.allOf| ensures a(s.allOf[i], exempt, v) <==> b(s.allOf[i], exempt, v) {
      assert AsksFor(s, defs, v, s.allOf[i], v);
    }
  }

  lemma SameParts(s: RawSchema, defs: Defs, v: Json, a: Reading, b: Reading)
    requires s.Raw? && AgreeBelow(s, defs, v, a, b)
    ensures Read(s.anyOf, v, a) == Read(s.anyOf, v, b) && Read(s.oneOf, v, a) == Read(s.oneOf, v, b)
    ensures v.Obj? ==> forall t, key :: key in v.fields ==>
              a(t, iset{}, v.fields[key]) == b(t, iset{}, v.fields[key])
    ensures v.Arr? ==> forall i :: 0 <= i < |v.items| ==>
              a(s.items, iset{}, v.items[i]) == b(s.items, iset{}, v.items[i])
  {
    forall i | 0 <= i < |s.anyOf| ensures a(s.anyOf[i], iset{}, v) == b(s.anyOf[i], iset{}, v) {
      assert AsksFor(s, defs, v, s.anyOf[i], v);
    }
    forall i | 0 <= i < |s.oneOf| ensures a(s.oneOf[i], iset{}, v) == b(s.oneOf[i], iset{}, v) {
      assert AsksFor(s, defs, v, s.oneOf[i], v);
    }
    if v.Obj? {
      forall t, key | key in v.fields ensures a(t, iset{}, v.fields[key]) == b(t, iset{}, v.fields[key]) {
        assert AsksFor(s, defs, v, t, v.fields[key]);
      }
    }
    if v.Arr? {
      forall i | 0 <= i < |v.items| ensures a(s.items, iset{}, v.items[i]) == b(s.items, iset{}, v.items[i]) {
        assert AsksFor(s, defs, v, s.items, v.items[i]);
      }
    }
  }

  lemma PartBelow(s: RawSchema, t: RawSchema, defs: Defs, rank: string -> nat, bound: nat)
    requires s.Raw? && (t in s.anyOf || t in s.oneOf || t in s.allOf) && GuardedBelow(s, defs, rank, bound)
    ensures GuardedBelow(t, defs, rank, bound) && (s decreases to t)
  {
  }

  lemma {:induction false} BoundIrrelevant(s: RawSchema, c: Setting, low: nat, a: nat, b: nat, exempt: iset<string>,
                                           v: Json)
    requires GuardedBelow(s, c.defs, c.rank, low) && low <= a && low <= b
    ensures AcceptsAll(s, c, a, exempt, v) <==> AcceptsAll(s, c, b, exempt, v)
    decreases s
  {
    var inA, inB := Inside(s, c, a, v), Inside(s, c, b, v);
    forall t, e, w | AsksFor(s, c.defs, v, t, w) ensures inA(t, e, w) <==> inB(t, e, w) {
      if !(v decreases to w) && !(UsesReference(s, c.defs) && t == Resolve(s.ref, c.defs)) {
        PartBelow(s, t, c.defs, c.rank, low);
        BoundIrrelevant(t, c, low, a, b, e, v);
      }
    }
    SameUnfolding(s, c.defs, c.request, c.scalar, exempt, v, inA, inB);
  }

  /** With guarded definitions every schema is guarded. */
  lemma {:induction false} AllGuarded(s: RawSchema, defs: Defs, rank: string -> nat, top: nat)
    requires Guarded(defs, rank, top)
    ensures GuardedBelow(s, defs, rank, top)
  {
    if s.Nil? {
    } else {
      forall t | t in s.anyOf || t in s.oneOf || t in s.allOf ensures GuardedBelow(t, defs, rank, top) {
        AllGuarded(t, defs, rank, top);
      }
    }
  }

  /** Guarded definitions have a reading... */
  lemma GuardedHasReading(c: Setting)
    requires Guarded(c.defs, c.rank, c.top)
    ensures Respects(Whole(c), c.defs, c.request, c.scalar)
  {
    forall s, exempt, v
      ensures Whole(c)(s, exempt, v)
         <==> Unfolded(s, c.defs, c.request, Others(c.scalar, Whole(c)), exempt, v, Whole(c))
    {
      WholeUnfolds(s, c, exempt, v);
    }
  }

  lemma WholeUnfolds(s: RawSchema, c: Setting, exempt: iset<string>, v: Json)
    requires Guarded(c.defs, c.rank, c.top)
    ensures AcceptsAll(s, c, c.top, exempt, v)
       <==> Unfolded(s, c.defs, c.request, Others(c.scalar, Whole(c)), exempt, v, Whole(c))
  {
    var inside := Inside(s, c, c.top, v);
    forall t, e, w | AsksFor(s, c.defs, v, t, w) ensures inside(t, e, w) <==> Whole(c)(t, e, w) {
      if w == v && s.Raw? && UsesReference(s, c.defs) && t == Resolve(s.ref, c.defs) {
        BoundIrrelevant(t, c, c.rank(s.ref), c.rank(s.ref), c.top, e, v);
      } else if w == v {
        assert s decreases to t;
      }
    }
    SameUnfolding(s, c.defs, c.request, c.scalar, exempt, v, inside, Whole(c));
  }

  /** ...and only one. */
  lemma {:induction false} GuardedHasOneReading(s: RawSchema, c: Setting, bound: nat, exempt: iset<string>, v: Json,
                                                reading: Reading)
    requires Guarded(c.defs, c.rank, c.top) && GuardedBelow(s, c.defs, c.rank, bound)
    requires Respects(reading, c.defs, c.request, c.scalar)
    ensures reading(s, exempt, v) <==> AcceptsAll(s, c, bound, exempt, v)
    decreases v, bound, s
  {
    var inside := Inside(s, c, bound, v);
    forall t, e, w | AsksFor(s, c.defs, v, t, w) ensures reading(t, e, w) <==> inside(t, e, w) {
      if v decreases to w {
        AllGuarded(t, c.defs, c.rank, c.top);
        GuardedHasOneReading(t, c, c.top, e, w, reading);
      } else if UsesReference(s, c.defs) && t == Resolve(s.ref, c.defs) {
        GuardedHasOneReading(t, c, c.rank(s.ref), e, v, reading);
      } else {
        PartBelow(s, t, c.defs, c.rank, bound);
        GuardedHasOneReading(t, c, bound, e, v, reading);
      }
    }
    SameUnfolding(s, c.defs, c.request, c.scalar, exempt, v, reading, inside);
  }
}
