/** The JSON path store (pkg/runtime/body.go): get and set at a dotted path with array indices. */
module Documents {
  import opened Wrappers
  import opened JsonValues
  import opened Text
  import opened Decimal

  /** A negative index addresses an object field, any other an element of the array at `key`. */
  datatype Segment = Segment(key: string, idx: int)

  type Fields = map<string, Json>

  // ----- paths

  function ParseSegment(part: string): Segment {
    var open := Index(part, "[");
    if open >= 0 && HasSuffix(part, "]") && open + 1 <= |part| - 1 then
      match Atoi(part[open + 1..|part| - 1])
      case Some(idx) => Segment(part[..open], idx)
      case None => Segment(part, -1)
    else Segment(part, -1)
  }

  function ParsePath(path: string): (segs: seq<Segment>)
    ensures segs != []
  {
    var parts := Split(path, ".");
    seq(|parts|, i requires 0 <= i < |parts| => ParseSegment(parts[i]))
  }

  // ----- get

  /** One step of getNestedSegs. */
  function Lookup(v: Json, seg: Segment): Option<Json> {
    if !v.Obj? || seg.key !in v.fields then None
    else
      var next := v.fields[seg.key];
      if seg.idx < 0 then Some(next)
      else if next.Arr? && seg.idx < |next.items| then Some(next.items[seg.idx])
      else None
  }

  function Get(v: Json, segs: seq<Segment>): Option<Json> {
    if segs == [] then Some(v)
    else
      match Lookup(v, segs[0])
      case Some(next) => Get(next, segs[1..])
      case None => None
  }

  function GetPath(v: Json, path: string): Option<Json> {
    if path == "" then Some(v) else Get(v, ParsePath(path))
  }

  // ----- set

  /** Go's m[key], nil when absent. */
  function FieldOf(m: Fields, key: string): Json {
    if key in m then m[key] else Null
  }

  function Pad(items: seq<Json>, n: nat): (padded: seq<Json>)
    ensures |padded| == if |items| < n then n else |items|
    ensures items <= padded
    ensures forall i :: |items| <= i < |padded| ==> padded[i] == Null
  {
    if |items| < n then items + seq(n - |items|, _ => Null) else items
  }

  /** The object to descend into, `None` on a conflict. */
  function ObjectAt(v: Json): Option<Fields> {
    match v
    case Obj(fields) => Some(fields)
    case Null => Some(map[])
    case _ => None
  }

  function ArrayAt(v: Json): Option<seq<Json>> {
    match v
    case Arr(items) => Some(items)
    case Null => Some([])
    case _ => None
  }

  /** What a set finds at `seg`, after padding; `None` when the key does not hold an array. */
  function Slot(m: Fields, seg: Segment): Option<Json> {
    if seg.idx < 0 then Some(FieldOf(m, seg.key))
    else
      match ArrayAt(FieldOf(m, seg.key))
      case Some(items) => Some(Pad(items, seg.idx + 1)[seg.idx])
      case None => None
  }

  function WithElement(items: seq<Json>, idx: nat, v: Json): seq<Json> {
    Pad(items, idx + 1)[idx := v]
  }

  function Put(m: Fields, seg: Segment, v: Json): Fields
    requires Slot(m, seg).Some?
  {
    if seg.idx < 0 then m[seg.key := v]
    else m[seg.key := Arr(WithElement(ArrayAt(FieldOf(m, seg.key)).value, seg.idx, v))]
  }

  /** setNestedSegs as a function: the new object, or `None` on a conflict. */
  function Set(m: Fields, segs: seq<Segment>, v: Json): Option<Fields>
    decreases |segs|, 0
  {
    if segs == [] then Some(m)
    else if Slot(m, segs[0]).None? then None
    else
      match SetValue(Slot(m, segs[0]).value, segs[1..], v)
      case Some(value) => Some(Put(m, segs[0], value))
      case None => None
  }

  /** The value that replaces `was` when the rest of the path is `segs`. */
  function SetValue(was: Json, segs: seq<Segment>, v: Json): Option<Json>
    decreases |segs|, 1
  {
    if segs == [] then Some(v)
    else
      match ObjectAt(was)
      case None => None
      case Some(fields) =>
        match Set(fields, segs, v)
        case Some(after) => Some(Obj(after))
        case None => None
  }

  /** A set inside a fresh object cannot conflict. */
  lemma {:induction false} SetFresh(segs: seq<Segment>, v: Json)
    ensures Set(map[], segs, v).Some?
    decreases |segs|
  {
    if |segs| <= 1 {
    } else {
      SetFresh(segs[1..], v);
    }
  }

  /** setNestedSegs with its effects in the order of the source: `after` is what the object holds
      when the call returns, also when it fails. */
  method SetNestedSegs(m: Fields, segs: seq<Segment>, v: Json) returns (after: Fields, ok: bool)
    ensures ok <==> Set(m, segs, v).Some?
    ensures after == if ok then Set(m, segs, v).value else m
    decreases |segs|, 1
  {
    if segs == [] {
      return m, true;
    }
    if segs[0].idx < 0 {
      after, ok := SetField(m, segs, v);
    } else {
      after, ok := SetElement(m, segs, v);
    }
  }

  method SetField(m: Fields, segs: seq<Segment>, v: Json) returns (after: Fields, ok: bool)
    requires segs != [] && segs[0].idx < 0
    ensures ok <==> Set(m, segs, v).Some?
    ensures after == if ok then Set(m, segs, v).value else m
    decreases |segs|, 0
  {
    var key, rest := segs[0].key, segs[1..];
    after, ok := m, true;
    if rest == [] {
      after := after[key := v];
      return;
    }
    var child: Fields;
    match FieldOf(m, key) {
      case Obj(next) =>
        child, ok := SetNestedSegs(next, rest, v);
      case Null =>
        after := after[key := Obj(map[])];
        SetFresh(rest, v);
        child, ok := SetNestedSegs(map[], rest, v);
      case _ =>
        return after, false;
    }
    after := after[key := Obj(child)];
    assert !ok ==> after == m;
  }

  method PadArray(items: seq<Json>, idx: nat) returns (arr: seq<Json>)
    ensures arr == Pad(items, idx + 1)
  {
    arr := items;
    while |arr| <= idx
      invariant items <= arr && |arr| <= |Pad(items, idx + 1)|
      invariant forall i :: |items| <= i < |arr| ==> arr[i] == Null
      decreases idx - |arr|
    {
      arr := arr + [Null];
    }
  }

  lemma SetAtElement(m: Fields, segs: seq<Segment>, v: Json, arr: seq<Json>)
    requires segs != [] && segs[0].idx >= 0 && ArrayAt(FieldOf(m, segs[0].key)).Some?
    requires arr == Pad(ArrayAt(FieldOf(m, segs[0].key)).value, segs[0].idx + 1)
    ensures Set(m, segs, v) ==
      var stored := SetValue(arr[segs[0].idx], segs[1..], v);
      if stored.Some? then Some(m[segs[0].key := Arr(arr[segs[0].idx := stored.value])]) else None
  {
  }

  method SetElement(m: Fields, segs: seq<Segment>, v: Json) returns (after: Fields, ok: bool)
    requires segs != [] && segs[0].idx >= 0
    ensures ok <==> Set(m, segs, v).Some?
    ensures after == if ok then Set(m, segs, v).value else m
    decreases |segs|, 0
  {
    var key, idx, rest := segs[0].key, segs[0].idx, segs[1..];
    if ArrayAt(FieldOf(m, key)).None? {
      return m, false;
    }
    var arr := PadArray(ArrayAt(FieldOf(m, key)).value, idx);
    SetAtElement(m, segs, v, arr);
    if rest == [] {
      arr := arr[idx := v];
    } else {
      if ObjectAt(arr[idx]).None? {
        return m, false;
      }
      var child;
      child, ok := SetNestedSegs(ObjectAt(arr[idx]).value, rest, v);
      if !ok {
        return m, false;
      }
      arr := arr[idx := Obj(child)];
    }
    return m[key := Arr(arr)], true;
  }

  /** A document that is written in place. */
  class Document {
    var root: Fields

    constructor (root: Fields)
      ensures this.root == root
    {
      this.root := root;
    }

    /** setNestedPath: all or nothing. */
    method SetPath(path: string, v: Json) returns (ok: bool)
      modifies this
      ensures ok <==> Set(old(root), ParsePath(path), v).Some?
      ensures root == if ok then Set(old(root), ParsePath(path), v).value else old(root)
    {
      root, ok := SetNestedSegs(root, ParsePath(path), v);
    }

    /** The assignment loops of mergeJSONBodySets and buildEnvelopeBody: they stop at the first
        conflict, keeping what was written before it. */
    method SetAllPaths(assignments: seq<Assignment>) returns (ok: bool)
      modifies this
      ensures ok <==> SetAll(old(root), assignments).Some?
      ensures ok ==> root == SetAll(old(root), assignments).value
    {
      ghost var start := root;
      ok := true;
      for i := 0 to |assignments|
        invariant ok
        invariant SetAll(start, assignments) == SetAll(root, assignments[i..])
      {
        assert assignments[i..][1..] == assignments[i + 1..];
        ok := SetPath(assignments[i].path, assignments[i].value);
        if !ok {
          return;
        }
      }
    }
  }

  datatype Assignment = Assignment(path: string, value: Json)

  function SetAll(m: Fields, assignments: seq<Assignment>): Option<Fields>
    decreases |assignments|
  {
    if assignments == [] then Some(m)
    else
      match Set(m, ParsePath(assignments[0].path), assignments[0].value)
      case Some(after) => SetAll(after, assignments[1..])
      case None => None
  }
}
