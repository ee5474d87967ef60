/** What the set of references on the path does: it cuts exactly the infinite unfoldings. */
module MultipartLaws {
  import opened Wrappers
  import opened Occurrences
  import opened RawSchemas
  import opened MultipartFields

  // ----- what merging two sets of fields means

  /** Every name once, in the order in which it first occurs. */
  lemma {:induction false} FirstOccurrencesInOrder(names: seq<string>) returns (at: seq<nat>)
    ensures Picks(names, FirstOccurrences(names), at)
    ensures forall i :: FirstAt(names, i) ==> i in at
  {
    if names == [] {
      at := [];
    } else {
      var n := |names| - 1;
      var init := names[..n];
      at := FirstOccurrencesInOrder(init);
      FirstInPrefix(names, n);
      PicksSnoc(names, n, FirstOccurrences(init), at);
      if names[n] !in init {
        at := at + [n];
      }
    }
  }

  /** Merging: what the base declares wins, and what either requires is required once, in the order of
      first occurrence. */
  lemma MergedMeans(base: ObjectFields, extra: ObjectFields) returns (at: seq<nat>)
    ensures var merged := Merged(base, extra);
            && (forall name :: name in merged.properties <==> name in base.properties || name in extra.properties)
            && (forall name :: name in merged.properties ==>
                  merged.properties[name] == if name in base.properties then base.properties[name]
                                             else extra.properties[name])
            && (forall name :: name in merged.required <==> name in base.required || name in extra.required)
            && NoRepeats(merged.required) && Picks(base.required + extra.required, merged.required, at)
  {
    var names := base.required + extra.required;
    at := FirstOccurrencesInOrder(names);
    PicksOnce(names, FirstOccurrences(names), at);
  }

  // ----- the path does not change the answer

  /** An answer found with more references on the path is found with fewer. */
  lemma {:induction false} PathIrrelevant(s: RawSchema, defs: Defs, path: set<string>, more: set<string>)
    requires path <= more && Fields(s, defs, more).Some?
    ensures Fields(s, defs, path) == Fields(s, defs, more)
    decreases Resolvable(defs) - more, s, 1, 0
  {
    if s.ref != "" {
      ResolvableRef(s.ref, defs);
      PathIrrelevant(Resolve(s.ref, defs), defs, path + {s.ref}, more + {s.ref});
      if HasSiblings(s) {
        PathIrrelevant(Local(s), defs, path + {s.ref}, more + {s.ref});
      }
    } else if s.allOf != [] {
      PathIrrelevantAll(AllOfBase(s), s, 0, defs, path, more);
    } else {
    }
  }

  lemma {:induction false} PathIrrelevantAll(base: ObjectFields, s: RawSchema, i: nat, defs: Defs,
                                             path: set<string>, more: set<string>)
    requires s.Raw? && i <= |s.allOf| && path <= more && FieldsOfAll(base, s, i, defs, more).Some?
    ensures FieldsOfAll(base, s, i, defs, path) == FieldsOfAll(base, s, i, defs, more)
    decreases Resolvable(defs) - more, s, 0, |s.allOf| - i
  {
    if i == |s.allOf| {
    } else {
      PathIrrelevant(s.allOf[i], defs, path, more);
      PathIrrelevantAll(Merged(base, Fields(s.allOf[i], defs, more).value), s, i + 1, defs, path, more);
    }
  }

  // ----- plain unfolding, with a bound instead of a path

  /** Unfolds at most `k` references below one another; `None` also when that is not enough. */
  function Unfold(k: nat, s: RawSchema, defs: Defs): Option<ObjectFields>
    decreases k, s, 1, 0
  {
    if s.Nil? then None
    else if s.ref != "" then
      if k == 0 then None
      else
        match Unfold(k - 1, Resolve(s.ref, defs), defs)
        case None => None
        case Some(base) =>
          if !HasSiblings(s) then Some(base)
          else
            match Unfold(k - 1, Local(s), defs)
            case Some(extra) => Some(Merged(base, extra))
            case None => None
    else if s.oneOf != [] || s.anyOf != [] then None
    else if s.allOf != [] then
      if s.typ != NoType && s.typ != ObjectType then None else UnfoldAll(k, AllOfBase(s), s, 0, defs)
    else if DeclaresObject(s) then Some(Copied(s))
    else None
  }

  function UnfoldAll(k: nat, base: ObjectFields, s: RawSchema, i: nat, defs: Defs): Option<ObjectFields>
    requires s.Raw? && i <= |s.allOf|
    decreases k, s, 0, |s.allOf| - i
  {
    if i == |s.allOf| then Some(base)
    else
      match Unfold(k, s.allOf[i], defs)
      case Some(extra) => UnfoldAll(k, Merged(base, extra), s, i + 1, defs)
      case None => None
  }

  /** A larger bound gives the same answer. */
  lemma {:induction false} UnfoldMore(k: nat, l: nat, s: RawSchema, defs: Defs)
    requires k <= l && Unfold(k, s, defs).Some?
    ensures Unfold(l, s, defs) == Unfold(k, s, defs)
    decreases k, s, 1, 0
  {
    if s.ref != "" {
      var target, local := Resolve(s.ref, defs), Local(s);
      UnfoldMore(k - 1, l - 1, target, defs);
      if HasSiblings(s) {
        UnfoldMore(k - 1, l - 1, local, defs);
      }
    } else if s.allOf != [] {
      UnfoldMoreAll(k, l, AllOfBase(s), s, 0, defs);
    } else {
    }
  }

  lemma {:induction false} UnfoldMoreAll(k: nat, l: nat, base: ObjectFields, s: RawSchema, i: nat, defs: Defs)
    requires s.Raw? && i <= |s.allOf| && k <= l && UnfoldAll(k, base, s, i, defs).Some?
    ensures UnfoldAll(l, base, s, i, defs) == UnfoldAll(k, base, s, i, defs)
    decreases k, s, 0, |s.allOf| - i
  {
    if i == |s.allOf| {
    } else {
      UnfoldMore(k, l, s.allOf[i], defs);
      UnfoldMoreAll(k, l, Merged(base, Unfold(k, s.allOf[i], defs).value), s, i + 1, defs);
    }
  }

  lemma {:induction false} UnfoldAllEach(k: nat, base: ObjectFields, s: RawSchema, i: nat, defs: Defs)
    requires s.Raw? && i <= |s.allOf| && UnfoldAll(k, base, s, i, defs).Some?
    ensures forall j :: i <= j < |s.allOf| ==> Unfold(k, s.allOf[j], defs).Some?
    decreases |s.allOf| - i
  {
    if i == |s.allOf| {
    } else {
      UnfoldAllEach(k, Merged(base, Unfold(k, s.allOf[i], defs).value), s, i + 1, defs);
    }
  }

  // ----- the references that an unfolding meets

  /** Unfolding `s` within `k` comes to the reference `ref`. */
  predicate Meets(k: nat, s: RawSchema, defs: Defs, ref: string)
    decreases k, s
  {
    if s.Nil? then false
    else if s.ref != "" then
      s.ref == ref || (k > 0 && (Meets(k - 1, Resolve(s.ref, defs), defs, ref)
                                 || (HasSiblings(s) && Meets(k - 1, Local(s), defs, ref))))
    else exists i :: 0 <= i < |s.allOf| && Meets(k, s.allOf[i], defs, ref)
  }

  /** No reference comes up again in the unfolding of what stands beside it. */
  predicate Clean(k: nat, s: RawSchema, defs: Defs)
    decreases k, s
  {
    if s.Nil? then true
    else if s.ref != "" then
      k > 0 ==> Clean(k - 1, Resolve(s.ref, defs), defs)
                && (HasSiblings(s) ==> Clean(k - 1, Local(s), defs) && !Meets(k - 1, Local(s), defs, s.ref))
    else forall i :: 0 <= i < |s.allOf| ==> Clean(k, s.allOf[i], defs)
  }

  predicate MeetsNone(k: nat, s: RawSchema, defs: Defs, path: set<string>) {
    forall ref :: ref in path ==> !Meets(k, s, defs, ref)
  }

  /** A larger bound meets the same references. */
  lemma {:induction false} MeetsMore(k: nat, l: nat, s: RawSchema, defs: Defs, ref: string)
    requires k <= l && Unfold(k, s, defs).Some?
    ensures Meets(l, s, defs, ref) == Meets(k, s, defs, ref)
    decreases k, s
  {
    if s.ref != "" {
      MeetsMore(k - 1, l - 1, Resolve(s.ref, defs), defs, ref);
      if HasSiblings(s) {
        MeetsMore(k - 1, l - 1, Local(s), defs, ref);
      }
    } else if s.allOf != [] {
      UnfoldAllEach(k, AllOfBase(s), s, 0, defs);
      forall i | 0 <= i < |s.allOf| ensures Meets(l, s.allOf[i], defs, ref) == Meets(k, s.allOf[i], defs, ref) {
        MeetsMore(k, l, s.allOf[i], defs, ref);
      }
    } else {
    }
  }

  lemma {:induction false} CleanMore(k: nat, l: nat, s: RawSchema, defs: Defs)
    requires k <= l && Unfold(k, s, defs).Some?
    ensures Clean(l, s, defs) == Clean(k, s, defs)
    decreases k, s, 1
  {
    if s.ref != "" {
      var target, local := Resolve(s.ref, defs), Local(s);
      CleanMore(k - 1, l - 1, target, defs);
      if HasSiblings(s) {
        CleanMore(k - 1, l - 1, local, defs);
        MeetsMore(k - 1, l - 1, local, defs, s.ref);
      }
    } else if s.allOf != [] {
      CleanMoreAll(k, l, s, defs);
    } else {
    }
  }

  lemma {:induction false} CleanMoreAll(k: nat, l: nat, s: RawSchema, defs: Defs)
    requires s.Raw? && k <= l && UnfoldAll(k, AllOfBase(s), s, 0, defs).Some?
    ensures forall i :: 0 <= i < |s.allOf| ==> Clean(l, s.allOf[i], defs) == Clean(k, s.allOf[i], defs)
    decreases k, s, 0
  {
    UnfoldAllEach(k, AllOfBase(s), s, 0, defs);
    forall i | 0 <= i < |s.allOf| ensures Clean(l, s.allOf[i], defs) == Clean(k, s.allOf[i], defs) {
      CleanMore(k, l, s.allOf[i], defs);
    }
  }

  /** The target of a reference that is met unfolds within less. */
  lemma {:induction false} MetUnfolds(k: nat, s: RawSchema, defs: Defs, ref: string) returns (j: nat)
    requires Unfold(k, s, defs).Some? && Meets(k, s, defs, ref)
    ensures j < k && Unfold(j, Resolve(ref, defs), defs).Some?
    decreases k, s
  {
    if s.ref == "" {
      UnfoldAllEach(k, AllOfBase(s), s, 0, defs);
      var i :| 0 <= i < |s.allOf| && Meets(k, s.allOf[i], defs, ref);
      j := MetUnfolds(k, s.allOf[i], defs, ref);
    } else if s.ref == ref {
      j := k - 1;
    } else if Meets(k - 1, Resolve(s.ref, defs), defs, ref) {
      j := MetUnfolds(k - 1, Resolve(s.ref, defs), defs, ref);
    } else {
      j := MetUnfolds(k - 1, Local(s), defs, ref);
    }
  }

  /** The least bound that is enough. */
  lemma LeastBound(k: nat, s: RawSchema, defs: Defs) returns (m: nat)
    requires Unfold(k, s, defs).Some?
    ensures m <= k && Unfold(m, s, defs) == Unfold(k, s, defs)
    ensures forall j: nat :: j < m ==> Unfold(j, s, defs).None?
  {
    m := k;
    while exists j: nat :: j < m && Unfold(j, s, defs).Some?
      invariant m <= k && Unfold(m, s, defs) == Unfold(k, s, defs)
      decreases m
    {
      var j: nat :| j < m && Unfold(j, s, defs).Some?;
      UnfoldMore(j, m, s, defs);
      m := j;
    }
  }

  /** A finite unfolding of a reference's target does not meet the reference. */
  lemma TargetMeetsNotItself(k: nat, ref: string, defs: Defs)
    requires Unfold(k, Resolve(ref, defs), defs).Some?
    ensures !Meets(k, Resolve(ref, defs), defs, ref)
  {
    var m := LeastBound(k, Resolve(ref, defs), defs);
    MeetsMore(m, k, Resolve(ref, defs), defs, ref);
    if Meets(m, Resolve(ref, defs), defs, ref) {
      var j := MetUnfolds(m, Resolve(ref, defs), defs, ref);
    }
  }

  // ----- what is found is a clean unfolding

  /** A clean unfolding that meets nothing on the path. */
  predicate CleanWithin(k: nat, s: RawSchema, defs: Defs, path: set<string>) {
    Clean(k, s, defs) && MeetsNone(k, s, defs, path)
  }

  /** The same for the members of allOf from `i` on. */
  predicate RestWithin(k: nat, s: RawSchema, i: nat, defs: Defs, path: set<string>)
    requires s.Raw?
  {
    forall j :: i <= j < |s.allOf| ==> CleanWithin(k, s.allOf[j], defs, path)
  }

  lemma AllWithin(k: nat, s: RawSchema, defs: Defs, path: set<string>)
    requires s.Raw? && s.ref == "" && RestWithin(k, s, 0, defs, path)
    ensures CleanWithin(k, s, defs, path)
  {
  }

  lemma WithinMore(k: nat, l: nat, s: RawSchema, defs: Defs, path: set<string>)
    requires k <= l && Unfold(k, s, defs).Some? && CleanWithin(k, s, defs, path)
    ensures Unfold(l, s, defs) == Unfold(k, s, defs) && CleanWithin(l, s, defs, path)
  {
    UnfoldMore(k, l, s, defs);
    CleanMore(k, l, s, defs);
    forall ref | ref in path ensures !Meets(l, s, defs, ref) {
      MeetsMore(k, l, s, defs, ref);
    }
  }

  lemma {:induction false} FoundUnfolds(s: RawSchema, defs: Defs, path: set<string>) returns (k: nat)
    requires Fields(s, defs, path).Some?
    ensures Unfold(k, s, defs) == Fields(s, defs, path) && CleanWithin(k, s, defs, path)
    decreases Resolvable(defs) - path, s, 1, 1
  {
    if s.ref != "" {
      k := ReferenceUnfolds(s, defs, path);
    } else if s.allOf != [] {
      k := FoundUnfoldsAll(AllOfBase(s), s, 0, defs, path);
      AllWithin(k, s, defs, path);
    } else {
      k := 0;
    }
  }

  lemma {:induction false} ReferenceUnfolds(s: RawSchema, defs: Defs, path: set<string>) returns (k: nat)
    requires Fields(s, defs, path).Some? && s.ref != ""
    ensures Unfold(k, s, defs) == Fields(s, defs, path) && CleanWithin(k, s, defs, path)
    decreases Resolvable(defs) - path, s, 1, 0
  {
    ResolvableRef(s.ref, defs);
    var target, more := Resolve(s.ref, defs), path + {s.ref};
    var a := FoundUnfolds(target, defs, more);
    if HasSiblings(s) {
      var b := FoundUnfolds(Local(s), defs, more);
      WithinMore(a, a + b, target, defs, more);
      WithinMore(b, a + b, Local(s), defs, more);
      k := a + b + 1;
    } else {
      k := a + 1;
    }
    ReferenceWithin(k, s, defs, path);
  }

  /** A reference off the path meets what its target and the rest beside it meet. */
  lemma ReferenceWithin(k: nat, s: RawSchema, defs: Defs, path: set<string>)
    requires k > 0 && s.Raw? && s.ref != "" && s.ref !in path
    requires CleanWithin(k - 1, Resolve(s.ref, defs), defs, path + {s.ref})
    requires HasSiblings(s) ==> CleanWithin(k - 1, Local(s), defs, path + {s.ref})
    ensures CleanWithin(k, s, defs, path)
  {
  }

  lemma {:induction false} FoundUnfoldsAll(base: ObjectFields, s: RawSchema, i: nat, defs: Defs, path: set<string>)
    returns (k: nat)
    requires s.Raw? && i <= |s.allOf| && FieldsOfAll(base, s, i, defs, path).Some?
    ensures UnfoldAll(k, base, s, i, defs) == FieldsOfAll(base, s, i, defs, path)
    ensures RestWithin(k, s, i, defs, path)
    decreases Resolvable(defs) - path, s, 0, |s.allOf| - i
  {
    if i == |s.allOf| {
      k := 0;
    } else {
      var child := s.allOf[i];
      var a := FoundUnfolds(child, defs, path);
      var next := Merged(base, Fields(child, defs, path).value);
      var b := FoundUnfoldsAll(next, s, i + 1, defs, path);
      k := a + b;
      WithinMore(a, k, child, defs, path);
      EachWithinMore(b, k, next, s, i + 1, defs, path);
      RestStep(k, s, i, defs, path);
    }
  }

  lemma RestStep(k: nat, s: RawSchema, i: nat, defs: Defs, path: set<string>)
    requires s.Raw? && i < |s.allOf| && CleanWithin(k, s.allOf[i], defs, path) && RestWithin(k, s, i + 1, defs, path)
    ensures RestWithin(k, s, i, defs, path)
  {
  }

  lemma EachWithinMore(k: nat, l: nat, base: ObjectFields, s: RawSchema, i: nat, defs: Defs, path: set<string>)
    requires s.Raw? && i <= |s.allOf| && k <= l && UnfoldAll(k, base, s, i, defs).Some?
    requires RestWithin(k, s, i, defs, path)
    ensures UnfoldAll(l, base, s, i, defs) == UnfoldAll(k, base, s, i, defs)
    ensures RestWithin(l, s, i, defs, path)
  {
    UnfoldMoreAll(k, l, base, s, i, defs);
    UnfoldAllEach(k, base, s, i, defs);
    forall j | i <= j < |s.allOf| ensures CleanWithin(l, s.allOf[j], defs, path) {
      WithinMore(k, l, s.allOf[j], defs, path);
    }
  }

  // ----- every clean unfolding is found

  lemma {:induction false} UnfoldingFound(k: nat, s: RawSchema, defs: Defs, path: set<string>)
    requires Unfold(k, s, defs).Some? && CleanWithin(k, s, defs, path)
    ensures Fields(s, defs, path) == Unfold(k, s, defs)
    decreases k, s, 1, 1
  {
    if s.ref != "" {
      ReferenceFound(k, s, defs, path);
    } else if s.allOf != [] {
      UnfoldingFoundAll(k, AllOfBase(s), s, 0, defs, path);
    }
  }

  lemma {:induction false} ReferenceFound(k: nat, s: RawSchema, defs: Defs, path: set<string>)
    requires Unfold(k, s, defs).Some? && CleanWithin(k, s, defs, path) && s.ref != ""
    ensures Fields(s, defs, path) == Unfold(k, s, defs)
    decreases k, s, 1, 0
  {
    assert Meets(k, s, defs, s.ref);
    ResolvableRef(s.ref, defs);
    TargetMeetsNotItself(k - 1, s.ref, defs);
    UnfoldingFound(k - 1, Resolve(s.ref, defs), defs, path + {s.ref});
    if HasSiblings(s) {
      UnfoldingFound(k - 1, Local(s), defs, path + {s.ref});
    }
  }

  lemma {:induction false} UnfoldingFoundAll(k: nat, base: ObjectFields, s: RawSchema, i: nat, defs: Defs,
                                             path: set<string>)
    requires s.Raw? && i <= |s.allOf| && UnfoldAll(k, base, s, i, defs).Some?
    requires RestWithin(k, s, 0, defs, path)
    ensures FieldsOfAll(base, s, i, defs, path) == UnfoldAll(k, base, s, i, defs)
    decreases k, s, 0, |s.allOf| - i
  {
    if i == |s.allOf| {
    } else {
      UnfoldingFound(k, s.allOf[i], defs, path);
      UnfoldingFoundAll(k, Merged(base, Unfold(k, s.allOf[i], defs).value), s, i + 1, defs, path);
    }
  }

  /** Fields are found exactly when the references unfold finitely and none comes up again in the
      unfolding of what stands beside it, and they are those of the unfolding. */
  lemma FoundIffUnfolds(s: RawSchema, defs: Defs, fields: ObjectFields)
    ensures Fields(s, defs, {}) == Some(fields)
       <==> exists k: nat :: Unfold(k, s, defs) == Some(fields) && Clean(k, s, defs)
  {
    if Fields(s, defs, {}) == Some(fields) {
      var k := FoundUnfolds(s, defs, {});
    }
    if k: nat :| Unfold(k, s, defs) == Some(fields) && Clean(k, s, defs) {
      UnfoldingFound(k, s, defs, {});
    }
  }

  /** On a schema that unfolds, the path loses the fields exactly when a reference comes up again beside
      itself. */
  lemma LostIffBesideItself(k: nat, s: RawSchema, defs: Defs)
    requires Unfold(k, s, defs).Some?
    ensures Fields(s, defs, {}) == if Clean(k, s, defs) then Unfold(k, s, defs) else None
  {
    if Clean(k, s, defs) {
      UnfoldingFound(k, s, defs, {});
    } else if Fields(s, defs, {}).Some? {
      var j := FoundUnfolds(s, defs, {});
      CleanMore(j, j + k, s, defs);
      CleanMore(k, j + k, s, defs);
    }
  }

  /** A reference beside itself is taken for a cycle, although it unfolds. */
  lemma SiblingTakenForCycle()
    ensures var plain := Raw("", ObjectType, NoFormat, false, false, [], map[], [], Nil, [], [], [], NoAdditional);
            var defs: Defs := map["a" := plain];
            var ref := Raw("#/definitions/a", NoType, NoFormat, false, false, [], map[], [], Nil, [], [], [],
                           NoAdditional);
            var s := ref.(allOf := [ref]);
            Fields(s, defs, {}) == None && Unfold(2, s, defs).Some?
  {
    var plain := Raw("", ObjectType, NoFormat, false, false, [], map[], [], Nil, [], [], [], NoAdditional);
    var defs: Defs := map["a" := plain];
    var ref := Raw("#/definitions/a", NoType, NoFormat, false, false, [], map[], [], Nil, [], [], [], NoAdditional);
    var s := ref.(allOf := [ref]);
    assert REF_PREFIX + "a" == "#/definitions/a";
    assert ref.ref[|REF_PREFIX|..] == "a";
    assert Resolve(ref.ref, defs) == plain;
    assert Fields(ref, defs, {} + {s.ref}) == None;
    assert FieldsOfAll(AllOfBase(Local(s)), Local(s), 0, defs, {} + {s.ref}) == None;
    assert Fields(Local(s), defs, {} + {s.ref}) == None;
    assert Unfold(1, ref, defs).Some?;
    assert UnfoldAll(1, Merged(AllOfBase(Local(s)), Unfold(1, ref, defs).value), Local(s), 1, defs).Some?;
    assert UnfoldAll(1, AllOfBase(Local(s)), Local(s), 0, defs).Some?;
    assert Unfold(1, Local(s), defs).Some?;
  }
}
