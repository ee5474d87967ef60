/** Source schemas, reference resolution and the read-only closure
    (internal/codegen/rawir/types.go, internal/codegen/normalize/schema.go). */
module RawSchemas {
  /** The `type` keyword; an absent or empty one is `NoType`, an unknown one keeps its name. */
  datatype SchemaType =
    | NoType | ObjectType | ArrayType | StringType | IntegerType | NumberType | BooleanType | NullType
    | UnknownType(name: string)

  /** The `format` keyword; the preflight tells the 64-bit integer formats from all others. */
  datatype Format = NoFormat | Int64Format | Uint64Format | OtherFormat(name: string)

  /** A nil schema pointer is `Nil`. */
  datatype RawSchema =
    | Nil
    | Raw(
        ref: string,
        typ: SchemaType,
        format: Format,
        nullable: bool,
        readOnly: bool,
        enum: seq<string>,
        properties: map<string, RawSchema>,
        required: seq<string>,
        items: RawSchema,
        anyOf: seq<RawSchema>,
        oneOf: seq<RawSchema>,
        allOf: seq<RawSchema>,
        additional: RawAdditional)

  datatype RawAdditional = NoAdditional | Additional(allowed: bool, schema: RawSchema)

  type Defs = map<string, RawSchema>

  const REF_PREFIX := "#/definitions/"

  /** The schema a reference names, or `Nil` when it names none. */
  function Resolve(ref: string, defs: Defs): RawSchema {
    if REF_PREFIX <= ref && ref[|REF_PREFIX|..] in defs then defs[ref[|REF_PREFIX|..]] else Nil
  }

  /** The references that can be unfolded: the bound on every unfolding below. */
  function Resolvable(defs: Defs): set<string> {
    set key | key in defs :: REF_PREFIX + key
  }

  lemma ResolvableRef(ref: string, defs: Defs)
    requires Resolve(ref, defs) != Nil
    ensures ref in Resolvable(defs)
  {
    var key := ref[|REF_PREFIX|..];
    assert ref == REF_PREFIX + key;
    assert key in defs;
  }

  predicate HasRefSiblings(s: RawSchema)
    requires s.Raw?
  {
    || s.typ != NoType
    || s.format != NoFormat
    || s.enum != []
    || s.properties != map[]
    || s.required != []
    || s.items != Nil
    || s.anyOf != []
    || s.oneOf != []
    || s.allOf != []
    || s.additional != NoAdditional
  }

  // ----- what "read-only" means: reachability through references and allOf

  /** Some schema within `k` reference or allOf steps of `s` is marked read-only. */
  ghost predicate ReadOnlyWithin(k: nat, s: RawSchema, defs: Defs)
    decreases k
  {
    s.Raw? && (
      || s.readOnly
      || (k > 0 && ReadOnlyWithin(k - 1, Resolve(s.ref, defs), defs))
      || (k > 0 && exists i :: 0 <= i < |s.allOf| && ReadOnlyWithin(k - 1, s.allOf[i], defs)))
  }

  ghost predicate IsReadOnly(s: RawSchema, defs: Defs) {
    exists k: nat :: ReadOnlyWithin(k, s, defs)
  }

  /** Some schema within `k` steps of `s` declares `name` as a read-only property. */
  ghost predicate NameWithin(k: nat, s: RawSchema, defs: Defs, name: string)
    decreases k
  {
    s.Raw? && (
      || (name in s.properties && IsReadOnly(s.properties[name], defs))
      || (k > 0 && NameWithin(k - 1, Resolve(s.ref, defs), defs, name))
      || (k > 0 && exists i :: 0 <= i < |s.allOf| && NameWithin(k - 1, s.allOf[i], defs, name)))
  }

  ghost predicate IsReadOnlyName(s: RawSchema, defs: Defs, name: string) {
    exists k: nat :: NameWithin(k, s, defs, name)
  }

  // ----- schemaReadOnly: depth-first search with a shared visited set

  datatype Found = Found(yes: bool, visited: set<string>)

  function SchemaReadOnly(s: RawSchema, defs: Defs, visited: set<string>): (f: Found)
    ensures visited <= f.visited
    decreases Resolvable(defs) - visited, s, 1, 0
  {
    if s.Nil? then Found(false, visited)
    else if s.readOnly then Found(true, visited)
    else if s.ref != "" && s.ref !in visited then
      var target := Resolve(s.ref, defs);
      if target.Nil? then ReadOnlyInAllOf(s, 0, defs, visited + {s.ref})
      else
        ResolvableRef(s.ref, defs);
        var f := SchemaReadOnly(target, defs, visited + {s.ref});
        if f.yes then f else ReadOnlyInAllOf(s, 0, defs, f.visited)
    else ReadOnlyInAllOf(s, 0, defs, visited)
  }

  function ReadOnlyInAllOf(s: RawSchema, i: nat, defs: Defs, visited: set<string>): (f: Found)
    requires s.Raw? && i <= |s.allOf|
    ensures visited <= f.visited
    decreases Resolvable(defs) - visited, s, 0, |s.allOf| - i
  {
    if i == |s.allOf| then Found(false, visited)
    else
      var f := SchemaReadOnly(s.allOf[i], defs, visited);
      if f.yes then f else ReadOnlyInAllOf(s, i + 1, defs, f.visited)
  }

  /** `s` and its allOf children are writable and their references were visited. */
  ghost predicate WritableUpTo(s: RawSchema, visited: set<string>) {
    s.Raw? ==>
      && !s.readOnly
      && (s.ref == "" || s.ref in visited)
      && forall i :: 0 <= i < |s.allOf| ==> WritableUpTo(s.allOf[i], visited)
  }

  ghost predicate WritableTargets(from: set<string>, to: set<string>, defs: Defs) {
    forall ref :: ref in to && ref !in from ==> WritableUpTo(Resolve(ref, defs), to)
  }

  lemma {:induction false} WritableMonotone(s: RawSchema, visited: set<string>, more: set<string>)
    requires WritableUpTo(s, visited) && visited <= more
    ensures WritableUpTo(s, more)
  {
    if s.Nil? {
    } else {
      forall i | 0 <= i < |s.allOf| ensures WritableUpTo(s.allOf[i], more) {
        WritableMonotone(s.allOf[i], visited, more);
      }
    }
  }

  lemma WritableTargetsGrow(from: set<string>, mid: set<string>, to: set<string>, defs: Defs)
    requires from <= mid <= to
    requires WritableTargets(from, mid, defs) && WritableTargets(mid, to, defs)
    ensures WritableTargets(from, to, defs)
  {
    forall ref | ref in to && ref !in from ensures WritableUpTo(Resolve(ref, defs), to) {
      if ref in mid {
        WritableMonotone(Resolve(ref, defs), mid, to);
      }
    }
  }

  lemma {:induction false} SearchSound(s: RawSchema, defs: Defs, visited: set<string>)
    ensures var f := SchemaReadOnly(s, defs, visited);
            if f.yes then IsReadOnly(s, defs)
            else WritableUpTo(s, f.visited) && WritableTargets(visited, f.visited, defs)
    decreases Resolvable(defs) - visited, s, 1, 0
  {
    if s.Raw? && s.readOnly {
      assert ReadOnlyWithin(0, s, defs);
    } else if s.Raw? && s.ref != "" && s.ref !in visited {
      var target := Resolve(s.ref, defs);
      if target.Nil? {
        SearchSoundAllOf(s, 0, defs, visited + {s.ref});
        var f := ReadOnlyInAllOf(s, 0, defs, visited + {s.ref});
        if !f.yes {
          WritableTargetsGrow(visited, visited + {s.ref}, f.visited, defs);
        }
      } else {
        ResolvableRef(s.ref, defs);
        SearchSound(target, defs, visited + {s.ref});
        var f := SchemaReadOnly(target, defs, visited + {s.ref});
        if f.yes {
          var k: nat :| ReadOnlyWithin(k, target, defs);
          assert ReadOnlyWithin(k + 1, s, defs);
        } else {
          SearchSoundAllOf(s, 0, defs, f.visited);
          var g := ReadOnlyInAllOf(s, 0, defs, f.visited);
          if !g.yes {
            assert WritableTargets(visited, f.visited, defs);
            WritableTargetsGrow(visited, f.visited, g.visited, defs);
          }
        }
      }
    } else if s.Raw? {
      SearchSoundAllOf(s, 0, defs, visited);
    } else {
    }
  }

  lemma {:induction false} SearchSoundAllOf(s: RawSchema, i: nat, defs: Defs, visited: set<string>)
    requires s.Raw? && i <= |s.allOf|
    ensures var f := ReadOnlyInAllOf(s, i, defs, visited);
            if f.yes then IsReadOnly(s, defs)
            else
              && WritableTargets(visited, f.visited, defs)
              && forall j :: i <= j < |s.allOf| ==> WritableUpTo(s.allOf[j], f.visited)
    decreases Resolvable(defs) - visited, s, 0, |s.allOf| - i
  {
    if i == |s.allOf| {
    } else {
      SearchSound(s.allOf[i], defs, visited);
      var f := SchemaReadOnly(s.allOf[i], defs, visited);
      if f.yes {
        var k: nat :| ReadOnlyWithin(k, s.allOf[i], defs);
        assert ReadOnlyWithin(k + 1, s, defs);
      } else {
        SearchSoundAllOf(s, i + 1, defs, f.visited);
        var g := ReadOnlyInAllOf(s, i + 1, defs, f.visited);
        if !g.yes {
          WritableTargetsGrow(visited, f.visited, g.visited, defs);
          WritableMonotone(s.allOf[i], f.visited, g.visited);
        }
      }
    }
  }

  lemma {:induction false} NothingReadOnly(k: nat, s: RawSchema, defs: Defs, visited: set<string>)
    requires WritableUpTo(s, visited) && WritableTargets({}, visited, defs)
    ensures !ReadOnlyWithin(k, s, defs)
    decreases k
  {
    if k == 0 || s.Nil? {
    } else {
      if s.ref != "" {
        NothingReadOnly(k - 1, Resolve(s.ref, defs), defs, visited);
      }
      forall i | 0 <= i < |s.allOf| ensures !ReadOnlyWithin(k - 1, s.allOf[i], defs) {
        NothingReadOnly(k - 1, s.allOf[i], defs, visited);
      }
    }
  }

  /** The search with a shared visited set decides reachability exactly, cycles included. */
  lemma SchemaReadOnlyExact(s: RawSchema, defs: Defs)
    ensures SchemaReadOnly(s, defs, {}).yes <==> IsReadOnly(s, defs)
  {
    SearchSound(s, defs, {});
    var f := SchemaReadOnly(s, defs, {});
    if !f.yes {
      forall k: nat ensures !ReadOnlyWithin(k, s, defs) {
        NothingReadOnly(k, s, defs, f.visited);
      }
    }
  }

  // ----- collectReadOnlyProperties: the same search, gathering names

  datatype Collected = Collected(visited: set<string>, names: set<string>)

  function OwnReadOnly(s: RawSchema, defs: Defs): set<string>
    requires s.Raw?
  {
    set name | name in s.properties && SchemaReadOnly(s.properties[name], defs, {}).yes
  }

  function CollectReadOnly(s: RawSchema, defs: Defs, acc: Collected): (c: Collected)
    ensures acc.visited <= c.visited && acc.names <= c.names
    decreases Resolvable(defs) - acc.visited, s, 1, 0
  {
    if s.Nil? then acc
    else
      var followed :=
        if s.ref != "" && s.ref !in acc.visited then
          var target := Resolve(s.ref, defs);
          var entered := Collected(acc.visited + {s.ref}, acc.names);
          if target.Nil? then entered
          else
            ResolvableRef(s.ref, defs);
            CollectReadOnly(target, defs, entered)
        else acc;
      CollectInAllOf(s, 0, defs, Collected(followed.visited, followed.names + OwnReadOnly(s, defs)))
  }

  function CollectInAllOf(s: RawSchema, i: nat, defs: Defs, acc: Collected): (c: Collected)
    requires s.Raw? && i <= |s.allOf|
    ensures acc.visited <= c.visited && acc.names <= c.names
    decreases Resolvable(defs) - acc.visited, s, 0, |s.allOf| - i
  {
    if i == |s.allOf| then acc
    else CollectInAllOf(s, i + 1, defs, CollectReadOnly(s.allOf[i], defs, acc))
  }

  /** The names whose requirement does not bind a request body described by `s`. */
  function ReadOnlyNames(s: RawSchema, defs: Defs): set<string> {
    CollectReadOnly(s, defs, Collected({}, {})).names
  }

  ghost predicate Covered(s: RawSchema, defs: Defs, c: Collected) {
    s.Raw? ==>
      && (s.ref == "" || s.ref in c.visited)
      && OwnReadOnly(s, defs) <= c.names
      && forall i :: 0 <= i < |s.allOf| ==> Covered(s.allOf[i], defs, c)
  }

  ghost predicate CoveredTargets(from: Collected, to: Collected, defs: Defs) {
    forall ref :: ref in to.visited && ref !in from.visited ==> Covered(Resolve(ref, defs), defs, to)
  }

  ghost predicate Grows(a: Collected, b: Collected) {
    a.visited <= b.visited && a.names <= b.names
  }

  lemma {:induction false} CoveredMonotone(s: RawSchema, defs: Defs, c: Collected, more: Collected)
    requires Covered(s, defs, c) && Grows(c, more)
    ensures Covered(s, defs, more)
  {
    if s.Nil? {
    } else {
      forall i | 0 <= i < |s.allOf| ensures Covered(s.allOf[i], defs, more) {
        CoveredMonotone(s.allOf[i], defs, c, more);
      }
    }
  }

  lemma CoveredTargetsGrow(from: Collected, mid: Collected, to: Collected, defs: Defs)
    requires Grows(from, mid) && Grows(mid, to)
    requires CoveredTargets(from, mid, defs) && CoveredTargets(mid, to, defs)
    ensures CoveredTargets(from, to, defs)
  {
    forall ref | ref in to.visited && ref !in from.visited ensures Covered(Resolve(ref, defs), defs, to) {
      if ref in mid.visited {
        CoveredMonotone(Resolve(ref, defs), defs, mid, to);
      }
    }
  }

  lemma {:induction false} CollectCovers(s: RawSchema, defs: Defs, acc: Collected)
    ensures var c := CollectReadOnly(s, defs, acc);
            && Covered(s, defs, c)
            && CoveredTargets(acc, c, defs)
            && forall name :: name in c.names && name !in acc.names ==> IsReadOnlyName(s, defs, name)
    decreases Resolvable(defs) - acc.visited, s, 1, 0
  {
    if s.Nil? {
    } else {
      var c := CollectReadOnly(s, defs, acc);
      var followed := acc;
      if s.ref != "" && s.ref !in acc.visited {
        var target := Resolve(s.ref, defs);
        followed := Collected(acc.visited + {s.ref}, acc.names);
        if target.Raw? {
          ResolvableRef(s.ref, defs);
          CollectCovers(target, defs, followed);
          var entered := followed;
          followed := CollectReadOnly(target, defs, entered);
          assert CoveredTargets(acc, followed, defs);
        }
      }
      var own := Collected(followed.visited, followed.names + OwnReadOnly(s, defs));
      assert c == CollectInAllOf(s, 0, defs, own);
      CoveredTargetsStep(acc, followed, own, defs);
      CollectCoversAllOf(s, 0, defs, own);
      CoveredTargetsGrow(acc, own, c, defs);
      forall name | name in c.names && name !in acc.names ensures IsReadOnlyName(s, defs, name) {
        CollectedNameReachable(s, defs, acc, followed, name);
      }
    }
  }

  lemma CoveredTargetsStep(acc: Collected, followed: Collected, own: Collected, defs: Defs)
    requires Grows(acc, followed) && Grows(followed, own) && own.visited == followed.visited
    requires CoveredTargets(acc, followed, defs)
    ensures CoveredTargets(acc, own, defs)
  {
    assert CoveredTargets(followed, own, defs);
    CoveredTargetsGrow(acc, followed, own, defs);
  }

  /** Splits the origin of a collected name: followed reference, own property or allOf child. */
  lemma CollectedNameReachable(s: RawSchema, defs: Defs, acc: Collected, followed: Collected, name: string)
    requires s.Raw? && name !in acc.names
    requires
      var own := Collected(followed.visited, followed.names + OwnReadOnly(s, defs));
      && name in CollectInAllOf(s, 0, defs, own).names
      && (name !in own.names ==> IsReadOnlyName(s, defs, name))
    requires name in followed.names ==> IsReadOnlyName(Resolve(s.ref, defs), defs, name)
    ensures IsReadOnlyName(s, defs, name)
  {
    if name in followed.names {
      var k: nat :| NameWithin(k, Resolve(s.ref, defs), defs, name);
      assert NameWithin(k + 1, s, defs, name);
    } else if name in OwnReadOnly(s, defs) {
      SchemaReadOnlyExact(s.properties[name], defs);
      assert NameWithin(0, s, defs, name);
    }
  }

  lemma {:induction false} CollectCoversAllOf(s: RawSchema, i: nat, defs: Defs, acc: Collected)
    requires s.Raw? && i <= |s.allOf|
    ensures var c := CollectInAllOf(s, i, defs, acc);
            && CoveredTargets(acc, c, defs)
            && (forall j :: i <= j < |s.allOf| ==> Covered(s.allOf[j], defs, c))
            && forall name :: name in c.names && name !in acc.names ==> IsReadOnlyName(s, defs, name)
    decreases Resolvable(defs) - acc.visited, s, 0, |s.allOf| - i
  {
    if i == |s.allOf| {
    } else {
      CollectCovers(s.allOf[i], defs, acc);
      var mid := CollectReadOnly(s.allOf[i], defs, acc);
      CollectCoversAllOf(s, i + 1, defs, mid);
      var c := CollectInAllOf(s, i + 1, defs, mid);
      CoveredTargetsGrow(acc, mid, c, defs);
      CoveredMonotone(s.allOf[i], defs, mid, c);
      forall name | name in c.names && name !in acc.names ensures IsReadOnlyName(s, defs, name) {
        if name in mid.names {
          var k: nat :| NameWithin(k, s.allOf[i], defs, name);
          assert NameWithin(k + 1, s, defs, name);
        }
      }
    }
  }

  lemma {:induction false} NamesComplete(k: nat, s: RawSchema, defs: Defs, c: Collected, name: string)
    requires Covered(s, defs, c) && CoveredTargets(Collected({}, {}), c, defs)
    requires NameWithin(k, s, defs, name)
    ensures name in c.names
    decreases k
  {
    if name in s.properties && IsReadOnly(s.properties[name], defs) {
      SchemaReadOnlyExact(s.properties[name], defs);
      assert name in OwnReadOnly(s, defs);
    } else if NameWithin(k - 1, Resolve(s.ref, defs), defs, name) {
      NamesComplete(k - 1, Resolve(s.ref, defs), defs, c, name);
    } else {
      var i :| 0 <= i < |s.allOf| && NameWithin(k - 1, s.allOf[i], defs, name);
      NamesComplete(k - 1, s.allOf[i], defs, c, name);
    }
  }

  /** The collected names are exactly the read-only properties reachable from `s`. */
  lemma ReadOnlyNamesExact(s: RawSchema, defs: Defs, name: string)
    ensures name in ReadOnlyNames(s, defs) <==> IsReadOnlyName(s, defs, name)
  {
    var start := Collected({}, {});
    CollectCovers(s, defs, start);
    if IsReadOnlyName(s, defs, name) {
      var k: nat :| NameWithin(k, s, defs, name);
      NamesComplete(k, s, defs, CollectReadOnly(s, defs, start), name);
    }
  }
}
