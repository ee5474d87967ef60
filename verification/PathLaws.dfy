/** Laws of the path store, for every document and every pair of paths. */
module PathLaws {
  import opened Wrappers
  import opened JsonValues
  import opened Text
  import opened Documents

  // ----- when two paths meet

  predicate SameStep(a: Segment, b: Segment) {
    a.key == b.key && (a.idx == b.idx || (a.idx < 0 && b.idx < 0))
  }

  /** One path's location lies inside the other's: a shared prefix exhausts one of them, or one
      ends at the whole array that the other indexes. */
  predicate Overlaps(p: seq<Segment>, q: seq<Segment>) {
    || p == [] || q == []
    || (SameStep(p[0], q[0]) && Overlaps(p[1..], q[1..]))
    || (p[0].key == q[0].key && p[0].idx < 0 <= q[0].idx && |p| == 1)
    || (p[0].key == q[0].key && q[0].idx < 0 <= p[0].idx && |q| == 1)
  }

  lemma {:induction false} OverlapsSymmetric(p: seq<Segment>, q: seq<Segment>)
    ensures Overlaps(p, q) == Overlaps(q, p)
  {
    if p == [] || q == [] {
    } else {
      OverlapsSymmetric(p[1..], q[1..]);
    }
  }

  /** `q` addresses a slot that a set at `p` would create as array padding. */
  predicate Padded(v: Json, p: seq<Segment>, q: seq<Segment>)
    decreases |p|
  {
    p != [] && q != [] && p[0].key == q[0].key && ObjectAt(v).Some? && Slot(ObjectAt(v).value, p[0]).Some? && (
      if SameStep(p[0], q[0]) then Padded(Slot(ObjectAt(v).value, p[0]).value, p[1..], q[1..])
      else |q| == 1 && 0 <= q[0].idx < p[0].idx && Lookup(v, q[0]).None?)
  }

  // ----- one step

  lemma PutLookup(m: Fields, seg: Segment, v: Json)
    requires Slot(m, seg).Some?
    ensures Lookup(Obj(Put(m, seg, v)), seg) == Some(v)
    ensures Slot(Put(m, seg, v), seg) == Some(v)
  {
  }

  lemma SameStepSlot(m: Fields, s: Segment, t: Segment)
    requires SameStep(s, t)
    ensures Slot(m, s) == Slot(m, t)
    ensures Slot(m, s).Some? ==> forall v :: Put(m, s, v) == Put(m, t, v)
    ensures forall v :: Lookup(v, s) == Lookup(v, t)
  {
  }

  lemma LookupIsSlot(m: Fields, seg: Segment)
    ensures Lookup(Obj(m), seg).Some? && Slot(m, seg).Some? ==> Lookup(Obj(m), seg) == Slot(m, seg)
    ensures Lookup(Obj(m), seg).None? && Slot(m, seg).Some? ==> Slot(m, seg).value == Null
  {
  }

  predicate DistinctSteps(s: Segment, t: Segment) {
    s.key != t.key || (s.idx >= 0 && t.idx >= 0 && s.idx != t.idx)
  }

  lemma PutApart(m: Fields, s: Segment, v: Json, t: Segment)
    requires DistinctSteps(s, t) && Slot(m, s).Some?
    ensures Slot(Put(m, s, v), t) == Slot(m, t)
    ensures Lookup(Obj(Put(m, s, v)), t) ==
      if s.key == t.key && t.idx < s.idx && Lookup(Obj(m), t).None? then Some(Null) else Lookup(Obj(m), t)
  {
    if s.key == t.key {
      PutElementApart(m, s, v, t);
    }
  }

  lemma PutElementApart(m: Fields, s: Segment, v: Json, t: Segment)
    requires s.key == t.key && s.idx >= 0 && t.idx >= 0 && s.idx != t.idx && Slot(m, s).Some?
    ensures Slot(Put(m, s, v), t) == Slot(m, t)
    ensures Lookup(Obj(Put(m, s, v)), t) ==
      if t.idx < s.idx && Lookup(Obj(m), t).None? then Some(Null) else Lookup(Obj(m), t)
  {
    var items := ArrayAt(FieldOf(m, s.key)).value;
    assert Put(m, s, v)[s.key] == Arr(WithElement(items, s.idx, v));
  }

  lemma PutTwice(m: Fields, s: Segment, v: Json, w: Json)
    requires Slot(m, s).Some?
    ensures Slot(Put(m, s, v), s).Some? && Put(Put(m, s, v), s, w) == Put(m, s, w)
  {
    if s.idx >= 0 {
      var items := ArrayAt(FieldOf(m, s.key)).value;
      assert WithElement(WithElement(items, s.idx, v), s.idx, w) == WithElement(items, s.idx, w);
    }
  }

  lemma ElementsCommute(items: seq<Json>, i: nat, v: Json, j: nat, w: Json)
    requires i != j
    ensures WithElement(WithElement(items, i, v), j, w) == WithElement(WithElement(items, j, w), i, v)
  {
    var a := WithElement(WithElement(items, i, v), j, w);
    var b := WithElement(WithElement(items, j, w), i, v);
    assert |a| == |b|;
    assert forall k :: 0 <= k < |a| && k != i && k != j ==> a[k] == (if k < |items| then items[k] else Null) == b[k];
  }

  lemma PutCommutes(m: Fields, s: Segment, v: Json, t: Segment, w: Json)
    requires DistinctSteps(s, t) && Slot(m, s).Some? && Slot(m, t).Some?
    ensures Slot(Put(m, s, v), t).Some? && Slot(Put(m, t, w), s).Some?
    ensures Put(Put(m, s, v), t, w) == Put(Put(m, t, w), s, v)
  {
    if s.key == t.key {
      PutCommutesAtKey(m, s, v, t, w);
    } else {
      PutOtherKey(m, s, v, t, w);
      PutOtherKey(m, t, w, s, v);
      UpdatesCommute(m, s.key, Put(m, s, v)[s.key], t.key, Put(m, t, w)[t.key]);
    }
  }

  lemma PutCommutesAtKey(m: Fields, s: Segment, v: Json, t: Segment, w: Json)
    requires DistinctSteps(s, t) && s.key == t.key && Slot(m, s).Some? && Slot(m, t).Some?
    ensures Slot(Put(m, s, v), t).Some? && Slot(Put(m, t, w), s).Some?
    ensures Put(Put(m, s, v), t, w) == Put(Put(m, t, w), s, v)
  {
    var items := ArrayAt(FieldOf(m, s.key)).value;
    PutElementTwice(m, s, v, t, w);
    PutElementTwice(m, t, w, s, v);
    assert WithElement(WithElement(items, s.idx, v), t.idx, w)
        == WithElement(WithElement(items, t.idx, w), s.idx, v) by {
      ElementsCommute(items, s.idx, v, t.idx, w);
    }
  }

  lemma UpdatesCommute(m: Fields, j: string, v: Json, k: string, w: Json)
    requires j != k
    ensures m[j := v][k := w] == m[k := w][j := v]
  {
  }

  lemma PutElementTwice(m: Fields, s: Segment, v: Json, t: Segment, w: Json)
    requires s.key == t.key && s.idx >= 0 && t.idx >= 0 && Slot(m, s).Some?
    ensures Slot(Put(m, s, v), t).Some?
    ensures Put(Put(m, s, v), t, w) ==
      m[s.key := Arr(WithElement(WithElement(ArrayAt(FieldOf(m, s.key)).value, s.idx, v), t.idx, w))]
  {
  }

  lemma PutOtherKey(m: Fields, s: Segment, v: Json, t: Segment, w: Json)
    requires s.key != t.key && Slot(m, s).Some? && Slot(m, t).Some?
    ensures Slot(Put(m, s, v), t).Some?
    ensures Put(Put(m, s, v), t, w) == m[s.key := Put(m, s, v)[s.key]][t.key := Put(m, t, w)[t.key]]
  {
  }

  /** The value a set stores at the first step of its path. */
  function Stored(m: Fields, p: seq<Segment>, v: Json): Option<Json>
    requires p != []
  {
    match Slot(m, p[0])
    case Some(slot) => SetValue(slot, p[1..], v)
    case None => None
  }

  lemma SetStep(m: Fields, p: seq<Segment>, v: Json)
    requires p != []
    ensures SetValue(Obj(m), p, v) ==
      match Stored(m, p, v)
      case Some(value) => Some(Obj(Put(m, p[0], value)))
      case None => None
  {
    assert ObjectAt(Obj(m)) == Some(m);
  }

  // ----- read back, last write wins

  lemma {:induction false} ReadBackValue(was: Json, segs: seq<Segment>, v: Json)
    requires SetValue(was, segs, v).Some?
    ensures Get(SetValue(was, segs, v).value, segs) == Some(v)
    decreases |segs|
  {
    if segs == [] {
    } else {
      var m := ObjectAt(was).value;
      var inner := SetValue(Slot(m, segs[0]).value, segs[1..], v).value;
      ReadBackValue(Slot(m, segs[0]).value, segs[1..], v);
      PutLookup(m, segs[0], inner);
    }
  }

  /** A successful set is read back by get, at every non-empty path and only there: get at the
      empty path returns the whole document, while set at the empty path writes the key "". */
  lemma ReadBack(m: Fields, path: string, v: Json)
    requires Set(m, ParsePath(path), v).Some?
    ensures GetPath(Obj(Set(m, ParsePath(path), v).value), path) == Some(v) <==> path != ""
  {
    if path == "" {
      assert Split("", ".") == [""];
      assert ParsePath("") == [Segment("", -1)];
      var after := Set(m, ParsePath(path), v).value;
      assert after[""] == v;
      assert after == m["" := v];
      assert v != Obj(after) by {
        SmallerThanHolder(after, "");
      }
    } else {
      ReadBackValue(Obj(m), ParsePath(path), v);
    }
  }

  /** A value is never the object that holds it. */
  lemma SmallerThanHolder(m: Fields, key: string)
    requires key in m
    ensures m[key] != Obj(m)
  {
  }

  lemma {:induction false} SetTwiceValue(was: Json, segs: seq<Segment>, v: Json, w: Json)
    requires SetValue(was, segs, v).Some?
    ensures SetValue(SetValue(was, segs, v).value, segs, w) == SetValue(was, segs, w)
    decreases |segs|
  {
    if segs == [] {
    } else {
      var m := ObjectAt(was).value;
      var slot := Slot(m, segs[0]).value;
      var inner := Stored(m, segs, v).value;
      SetStep(m, segs, v);
      SetStep(m, segs, w);
      assert SetValue(was, segs, v) == SetValue(Obj(m), segs, v) && SetValue(was, segs, w) == SetValue(Obj(m), segs, w);
      SetTwiceValue(slot, segs[1..], v, w);
      PutLookup(m, segs[0], inner);
      SetStep(Put(m, segs[0], inner), segs, w);
      if Stored(m, segs, w).Some? {
        PutTwice(m, segs[0], inner, Stored(m, segs, w).value);
      }
    }
  }

  /** A second set at the same path wins; it succeeds exactly when it would have at first. */
  lemma LastWriteWins(m: Fields, path: string, v: Json, w: Json)
    requires Set(m, ParsePath(path), v).Some?
    ensures Set(Set(m, ParsePath(path), v).value, ParsePath(path), w) == Set(m, ParsePath(path), w)
  {
    var segs := ParsePath(path);
    SetTwiceValue(Obj(m), segs, v, w);
    assert SetValue(Obj(m), segs, v) == Some(Obj(Set(m, segs, v).value));
  }

  // ----- what a set leaves alone

  lemma {:induction false} FrameValue(was: Json, p: seq<Segment>, v: Json, q: seq<Segment>)
    requires !Overlaps(p, q) && SetValue(was, p, v).Some?
    ensures Get(SetValue(was, p, v).value, q) == if Padded(was, p, q) then Some(Null) else Get(was, q)
    decreases |p|
  {
    var m := ObjectAt(was).value;
    var slot := Slot(m, p[0]).value;
    var inner := SetValue(slot, p[1..], v).value;
    var after := Put(m, p[0], inner);
    assert SetValue(was, p, v).value == Obj(after);
    assert Get(was, q) == Get(Obj(m), q);
    if SameStep(p[0], q[0]) {
      SameStepSlot(m, p[0], q[0]);
      PutLookup(m, p[0], inner);
      LookupIsSlot(m, q[0]);
      FrameValue(slot, p[1..], v, q[1..]);
    } else if DistinctSteps(p[0], q[0]) {
      PutApart(m, p[0], inner, q[0]);
      if Padded(was, p, q) {
        assert q[1..] == [];
      }
    } else {
      FieldAgainstElement(m, p, v, q);
    }
  }

  /** A field step and an element step at one key exclude each other. */
  lemma FieldAgainstElement(m: Fields, p: seq<Segment>, v: Json, q: seq<Segment>)
    requires !Overlaps(p, q) && !SameStep(p[0], q[0]) && p[0].key == q[0].key
    requires (p[0].idx < 0) != (q[0].idx < 0)
    requires Set(m, p, v).Some?
    ensures Get(Obj(Set(m, p, v).value), q) == Get(Obj(m), q) == None
  {
  }

  /** A set at a path changes no other path: a path that does not overlap it reads as before,
      except that new array padding reads as null. */
  lemma SetFrame(m: Fields, path: string, v: Json, other: string)
    requires Set(m, ParsePath(path), v).Some?
    requires other != "" && !Overlaps(ParsePath(path), ParsePath(other))
    ensures GetPath(Obj(Set(m, ParsePath(path), v).value), other)
         == if Padded(Obj(m), ParsePath(path), ParsePath(other)) then Some(Null) else GetPath(Obj(m), other)
  {
    FrameValue(Obj(m), ParsePath(path), v, ParsePath(other));
  }

  /** A slot that padding fills did not exist before. */
  lemma {:induction false} PaddedWasAbsent(v: Json, p: seq<Segment>, q: seq<Segment>)
    requires Padded(v, p, q)
    ensures Get(v, q) == None
    decreases |p|
  {
    if !SameStep(p[0], q[0]) {
    } else {
      var m := ObjectAt(v).value;
      SameStepSlot(m, p[0], q[0]);
      LookupIsSlot(m, q[0]);
      PaddedWasAbsent(Slot(m, p[0]).value, p[1..], q[1..]);
      assert Lookup(v, q[0]) == Lookup(Obj(m), q[0]);
    }
  }

  // ----- when a set stands in the way of another

  /** A set succeeds or conflicts whatever the value. */
  lemma {:induction false} SetsAlike(was: Json, segs: seq<Segment>, v: Json, w: Json)
    requires SetValue(was, segs, v).Some?
    ensures SetValue(was, segs, w).Some?
    decreases |segs|
  {
    if segs == [] {
    } else {
      var m := ObjectAt(was).value;
      SetStep(m, segs, v);
      SetStep(m, segs, w);
      SetsAlike(Slot(m, segs[0]).value, segs[1..], v, w);
    }
  }

  /** After a shared prefix, one path goes on into an object and the other into an array. */
  predicate Clashes(p: seq<Segment>, q: seq<Segment>) {
    p != [] && q != [] && p[0].key == q[0].key &&
    if SameStep(p[0], q[0]) then Clashes(p[1..], q[1..]) else (p[0].idx < 0) != (q[0].idx < 0)
  }

  lemma {:induction false} NoSelfClash(p: seq<Segment>)
    ensures !Clashes(p, p)
  {
    if p == [] {
    } else {
      NoSelfClash(p[1..]);
    }
  }

  /** Where a value is at one path, nothing is and nothing can be set at a path that clashes with it. */
  lemma {:induction false} ClashBlocks(was: Json, p: seq<Segment>, q: seq<Segment>, w: Json)
    requires Clashes(p, q) && !Overlaps(p, q) && Get(was, p).Some?
    ensures Get(was, q) == None && SetValue(was, q, w) == None
    decreases |p|
  {
    var m := ObjectAt(was).value;
    if SameStep(p[0], q[0]) {
      SameStepSlot(m, p[0], q[0]);
      LookupIsSlot(m, p[0]);
      SetStep(m, q, w);
      ClashBlocks(Lookup(was, p[0]).value, p[1..], q[1..], w);
    } else {
      ClashHere(m, p, q, w);
    }
  }

  lemma ClashHere(m: Fields, p: seq<Segment>, q: seq<Segment>, w: Json)
    requires p != [] && q != [] && !Overlaps(p, q) && p[0].key == q[0].key && (p[0].idx < 0) != (q[0].idx < 0)
    requires Get(Obj(m), p).Some?
    ensures Get(Obj(m), q) == None && SetValue(Obj(m), q, w) == None
  {
    SetStep(m, q, w);
    var held := m[p[0].key];
    if p[0].idx < 0 {
      assert |p| > 1 && held.Obj?;
    } else {
      assert |q| > 1 && held.Arr?;
    }
  }

  /** A set leaves every path settable that neither overlaps its own nor clashes with it. */
  lemma {:induction false} SettableKept(was: Json, p: seq<Segment>, v: Json, q: seq<Segment>, w: Json)
    requires !Overlaps(p, q) && !Clashes(p, q) && SetValue(was, p, v).Some? && SetValue(was, q, w).Some?
    ensures SetValue(SetValue(was, p, v).value, q, w).Some?
    decreases |p|
  {
    var m := ObjectAt(was).value;
    var slot := Slot(m, p[0]).value;
    var inner := SetValue(slot, p[1..], v).value;
    assert SetValue(was, p, v).value == Obj(Put(m, p[0], inner));
    SetStep(m, q, w);
    SetStep(Put(m, p[0], inner), q, w);
    if SameStep(p[0], q[0]) {
      SameStepSlot(m, p[0], q[0]);
      SameStepSlot(Put(m, p[0], inner), p[0], q[0]);
      PutLookup(m, p[0], inner);
      SettableKept(slot, p[1..], v, q[1..], w);
    } else {
      PutApart(m, p[0], inner, q[0]);
    }
  }

  // ----- sets at paths that do not overlap commute

  /** Both writes in order, with a conflict in either as `None`. */
  function SetBoth(was: Json, p: seq<Segment>, v: Json, q: seq<Segment>, w: Json): Option<Json> {
    match SetValue(was, p, v)
    case Some(after) => SetValue(after, q, w)
    case None => None
  }

  lemma {:induction false} SetsCommuteValue(was: Json, p: seq<Segment>, v: Json, q: seq<Segment>, w: Json)
    requires !Overlaps(p, q)
    ensures SetBoth(was, p, v, q, w) == SetBoth(was, q, w, p, v)
    decreases |p|, 1
  {
    if ObjectAt(was).Some? {
      var m := ObjectAt(was).value;
      assert SetValue(was, p, v) == SetValue(Obj(m), p, v) && SetValue(was, q, w) == SetValue(Obj(m), q, w);
      if SameStep(p[0], q[0]) {
        SameStepCommute(m, p, v, q, w);
      } else {
        OtherStepCommute(m, p, v, q, w);
      }
    }
  }

  lemma OtherStepCommute(m: Fields, p: seq<Segment>, v: Json, q: seq<Segment>, w: Json)
    requires !Overlaps(p, q) && !SameStep(p[0], q[0])
    ensures SetBoth(Obj(m), p, v, q, w) == SetBoth(Obj(m), q, w, p, v)
  {
    if DistinctSteps(p[0], q[0]) {
      ApartBoth(m, p, v, q, w);
      ApartBoth(m, q, w, p, v);
      if Stored(m, p, v).Some? && Stored(m, q, w).Some? {
        PutCommutes(m, p[0], Stored(m, p, v).value, q[0], Stored(m, q, w).value);
      }
    } else {
      MixedConflict(m, p, v, q, w);
      OverlapsSymmetric(p, q);
      MixedConflict(m, q, w, p, v);
    }
  }

  lemma {:induction false} SameStepCommute(m: Fields, p: seq<Segment>, v: Json, q: seq<Segment>, w: Json)
    requires !Overlaps(p, q) && SameStep(p[0], q[0])
    ensures SetBoth(Obj(m), p, v, q, w) == SetBoth(Obj(m), q, w, p, v)
    decreases |p|, 0
  {
    SameStepSlot(m, p[0], q[0]);
    SetStep(m, p, v);
    SetStep(m, q, w);
    if Slot(m, p[0]).Some? {
      SetsCommuteValue(Slot(m, p[0]).value, p[1..], v, q[1..], w);
      SameStepBoth(m, p, v, q, w);
      SameStepBoth(m, q, w, p, v);
    }
  }

  lemma SameStepBoth(m: Fields, p: seq<Segment>, v: Json, q: seq<Segment>, w: Json)
    requires p != [] && q != [] && SameStep(p[0], q[0]) && Slot(m, p[0]).Some?
    ensures SetBoth(Obj(m), p, v, q, w) ==
      match SetBoth(Slot(m, p[0]).value, p[1..], v, q[1..], w)
      case Some(both) => Some(Obj(Put(m, p[0], both)))
      case None => None
  {
    SetStep(m, p, v);
    if Stored(m, p, v).Some? {
      var first := Stored(m, p, v).value;
      var after := Put(m, p[0], first);
      PutLookup(m, p[0], first);
      SameStepSlot(after, p[0], q[0]);
      SetStep(after, q, w);
      if SetValue(first, q[1..], w).Some? {
        PutTwice(m, p[0], first, SetValue(first, q[1..], w).value);
      }
    }
  }

  lemma ApartBoth(m: Fields, p: seq<Segment>, v: Json, q: seq<Segment>, w: Json)
    requires p != [] && q != [] && DistinctSteps(p[0], q[0])
    ensures Stored(m, p, v).Some? && Stored(m, q, w).Some? ==>
      && Slot(Put(m, p[0], Stored(m, p, v).value), q[0]).Some?
      && SetBoth(Obj(m), p, v, q, w) ==
           Some(Obj(Put(Put(m, p[0], Stored(m, p, v).value), q[0], Stored(m, q, w).value)))
    ensures !(Stored(m, p, v).Some? && Stored(m, q, w).Some?) ==> SetBoth(Obj(m), p, v, q, w) == None
  {
    SetStep(m, p, v);
    if Stored(m, p, v).Some? {
      var after := Put(m, p[0], Stored(m, p, v).value);
      PutApart(m, p[0], Stored(m, p, v).value, q[0]);
      SetStep(after, q, w);
      assert Stored(after, q, w) == Stored(m, q, w);
    }
  }

  /** An object below a key and an array at the same key conflict in either order. */
  lemma MixedConflict(m: Fields, p: seq<Segment>, v: Json, q: seq<Segment>, w: Json)
    requires !Overlaps(p, q) && !SameStep(p[0], q[0]) && p[0].key == q[0].key
    requires (p[0].idx < 0) != (q[0].idx < 0)
    ensures SetBoth(Obj(m), p, v, q, w) == None
  {
    SetStep(m, p, v);
    if Stored(m, p, v).Some? {
      var inner := Stored(m, p, v).value;
      var after := Put(m, p[0], inner);
      SetStep(after, q, w);
      if p[0].idx < 0 {
        assert p[1..] != [] && inner.Obj? && FieldOf(after, q[0].key) == inner;
        assert Slot(after, q[0]) == None;
      } else {
        assert q[1..] != [] && FieldOf(after, q[0].key).Arr?;
        assert Slot(after, q[0]).value.Arr?;
      }
    }
  }

  // ----- any order of independent assignments

  predicate Independent(a: Assignment, b: Assignment) {
    !Overlaps(ParsePath(a.path), ParsePath(b.path))
  }

  predicate PairwiseIndependent(xs: seq<Assignment>) {
    forall i, j :: 0 <= i < j < |xs| ==> Independent(xs[i], xs[j])
  }

  lemma {:induction false} MoveToFront(m: Fields, before: seq<Assignment>, x: Assignment, after: seq<Assignment>)
    requires forall y :: y in before ==> Independent(y, x)
    ensures SetAll(m, before + [x] + after) == SetAll(m, [x] + before + after)
    decreases |before|
  {
    if before == [] {
      assert before + [x] + after == [x] + before + after;
    } else {
      var y, rest := before[0], before[1..];
      assert (before + [x] + after)[1..] == rest + [x] + after;
      assert y in before && Independent(y, x);
      var py, px := ParsePath(y.path), ParsePath(x.path);
      if Set(m, py, y.value).Some? {
        MoveToFront(Set(m, py, y.value).value, rest, x, after);
      }
      SetsCommuteValue(Obj(m), py, y.value, px, x.value);
      TwoAssignments(m, y, x, rest + after);
      TwoAssignments(m, x, y, rest + after);
      assert [y, x] + (rest + after) == [y] + ([x] + rest + after);
      assert [x, y] + (rest + after) == [x] + before + after;
      assert ([y] + ([x] + rest + after))[1..] == [x] + rest + after;
    }
  }

  lemma TwoAssignments(m: Fields, x: Assignment, y: Assignment, rest: seq<Assignment>)
    ensures SetAll(m, [x, y] + rest) ==
      match SetBoth(Obj(m), ParsePath(x.path), x.value, ParsePath(y.path), y.value)
      case Some(both) => if both.Obj? then SetAll(both.fields, rest) else None
      case None => None
  {
    var all := [x, y] + rest;
    assert all[1..] == [y] + rest && all[1..][1..] == rest;
    if Set(m, ParsePath(x.path), x.value).Some? {
      var after := Set(m, ParsePath(x.path), x.value).value;
      assert SetAll(after, [y] + rest) ==
        match Set(after, ParsePath(y.path), y.value)
        case Some(both) => SetAll(both, rest)
        case None => None;
    }
  }

  lemma TailPermutation(xs: seq<Assignment>, before: seq<Assignment>, x: Assignment, after: seq<Assignment>)
    requires xs != [] && xs[0] == x && multiset(xs) == multiset(before + [x] + after)
    ensures multiset(before + after) == multiset(xs[1..])
  {
    assert multiset(before + [x] + after) == multiset(before) + multiset{x} + multiset(after);
    assert multiset(before + after) == multiset(before) + multiset(after);
    assert xs == [x] + xs[1..];
    assert multiset(xs) == multiset{x} + multiset(xs[1..]);
    var one, all := multiset{x}, multiset(before + [x] + after);
    forall e ensures multiset(before + after)[e] == multiset(xs[1..])[e] {
      assert multiset(xs)[e] == one[e] + multiset(xs[1..])[e];
      assert all[e] == multiset(before)[e] + one[e] + multiset(after)[e];
      assert multiset(before + after)[e] == multiset(before)[e] + multiset(after)[e];
    }
  }

  lemma IndependentOfFirst(xs: seq<Assignment>, y: Assignment)
    requires PairwiseIndependent(xs) && xs != [] && y in xs[1..]
    ensures Independent(y, xs[0])
  {
    var j :| 0 <= j < |xs[1..]| && xs[1..][j] == y;
    assert xs[j + 1] == y && Independent(xs[0], xs[j + 1]);
    OverlapsSymmetric(ParsePath(xs[0].path), ParsePath(y.path));
  }

  lemma IndependentTail(xs: seq<Assignment>)
    requires PairwiseIndependent(xs) && xs != []
    ensures PairwiseIndependent(xs[1..])
  {
    forall i, j | 0 <= i < j < |xs[1..]| ensures Independent(xs[1..][i], xs[1..][j]) {
      assert Independent(xs[i + 1], xs[j + 1]);
    }
  }

  /** Takes the first assignment of `xs` out of the permuted list `ys`. */
  lemma ExtractFirst(xs: seq<Assignment>, ys: seq<Assignment>) returns (before: seq<Assignment>, after: seq<Assignment>)
    requires xs != [] && multiset(xs) == multiset(ys) && PairwiseIndependent(xs)
    ensures ys == before + [xs[0]] + after
    ensures multiset(before + after) == multiset(xs[1..])
    ensures forall y :: y in before ==> Independent(y, xs[0])
  {
    var x := xs[0];
    assert x in multiset(xs) && x in ys;
    var i :| 0 <= i < |ys| && ys[i] == x;
    before, after := ys[..i], ys[i + 1..];
    assert ys == before + [x] + after;
    TailPermutation(xs, before, x, after);
    forall y | y in before ensures Independent(y, x) {
      assert y in before + after && y in multiset(before + after);
      assert y in multiset(xs[1..]) && y in xs[1..];
      IndependentOfFirst(xs, y);
    }
  }

  /** buildEnvelopeBody ranges over a Go map: with paths that do not overlap, every order of its
      assignments builds the same body, or fails. */
  lemma {:induction false} OrderIrrelevant(m: Fields, xs: seq<Assignment>, ys: seq<Assignment>)
    requires PairwiseIndependent(xs) && multiset(xs) == multiset(ys)
    ensures SetAll(m, xs) == SetAll(m, ys)
    decreases |xs|
  {
    if xs == [] {
      assert |multiset(ys)| == 0;
    } else {
      var x := xs[0];
      var before, after := ExtractFirst(xs, ys);
      MoveToFront(m, before, x, after);
      SetAllFirst(m, x, before + after);
      SetAllFirst(m, x, xs[1..]);
      assert xs == [x] + xs[1..];
      assert [x] + before + after == [x] + (before + after);
      IndependentTail(xs);
      if Set(m, ParsePath(x.path), x.value).Some? {
        OrderIrrelevant(Set(m, ParsePath(x.path), x.value).value, xs[1..], before + after);
      }
    }
  }

  lemma SetAllFirst(m: Fields, x: Assignment, rest: seq<Assignment>)
    ensures SetAll(m, [x] + rest) ==
      match Set(m, ParsePath(x.path), x.value)
      case Some(after) => SetAll(after, rest)
      case None => None
  {
    assert ([x] + rest)[1..] == rest;
  }
}
