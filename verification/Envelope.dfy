/** Paths as text, and the request envelope assembled from path assignments (pkg/runtime/body.go). */
module Envelope {
  import opened Wrappers
  import opened JsonValues
  import opened Text
  import opened Decimal
  import opened Documents
  import opened PathLaws

  // ----- every structured path has a text that parses back to it

  predicate Printable(seg: Segment) {
    '.' !in seg.key && '[' !in seg.key && -1 <= seg.idx <= MAX_INT64
  }

  function PrintSegment(seg: Segment): string {
    if seg.idx < 0 then seg.key else seg.key + "[" + Itoa(seg.idx) + "]"
  }

  function PrintSegments(segs: seq<Segment>): (parts: seq<string>)
    ensures |parts| == |segs|
    ensures forall i :: 0 <= i < |segs| ==> parts[i] == PrintSegment(segs[i])
  {
    seq(|segs|, i requires 0 <= i < |segs| => PrintSegment(segs[i]))
  }

  function PrintPath(segs: seq<Segment>): string {
    Join(PrintSegments(segs), ".")
  }

  lemma ParsePrintedSegment(seg: Segment)
    requires Printable(seg)
    ensures ParseSegment(PrintSegment(seg)) == seg
    ensures '.' !in PrintSegment(seg)
  {
    SeparableChar(seg.key, '[');
    if seg.idx >= 0 {
      var part, digits := PrintSegment(seg), Itoa(seg.idx);
      assert part == seg.key + "[" + (digits + "]");
      SeparablePrefix(seg.key, "[", digits + "]");
      var open := Index(part, "[");
      assert open == |seg.key|;
      assert part[open + 1..|part| - 1] == digits;
      assert part[|part| - 1..] == "]";
      ValueItoa(seg.idx);
      AtoiUnsigned(digits);
      assert part[..open] == seg.key;
      forall i | 0 <= i < |digits| ensures digits[i] != '.' {}
    }
  }

  lemma ParsePrintedPath(segs: seq<Segment>)
    requires segs != [] && forall seg :: seg in segs ==> Printable(seg)
    ensures ParsePath(PrintPath(segs)) == segs
  {
    var parts := PrintSegments(segs);
    forall part | part in parts ensures '.' !in part {
      var i :| 0 <= i < |parts| && parts[i] == part;
      assert segs[i] in segs;
      ParsePrintedSegment(segs[i]);
    }
    SplitJoinChar(parts, '.');
    forall i | 0 <= i < |segs| ensures ParseSegment(parts[i]) == segs[i] {
      assert segs[i] in segs;
      ParsePrintedSegment(segs[i]);
    }
  }

  // ----- buildEnvelopeBody

  function JoinBodyPath(prefix: string, path: string): string {
    if prefix == "" then path else prefix + "." + path
  }

  function Prefixed(prefix: string, values: seq<Assignment>): (under: seq<Assignment>)
    ensures |under| == |values|
  {
    seq(|values|, i requires 0 <= i < |values| => Assignment(JoinBodyPath(prefix, values[i].path), values[i].value))
  }

  function FileAssignment(mergePath: string, file: Option<Json>): seq<Assignment> {
    match file
    case Some(value) => [Assignment(mergePath, value)]
    case None => []
  }

  /** The body, `None` when the file has nowhere to go or some assignment conflicts. `vars` lists a
      Go map in the order of one iteration over it; `sets` are the --set and --set-str flags. */
  function EnvelopeBody(template: Fields, mergePath: string, vars: seq<Assignment>, sets: seq<Assignment>,
                        file: Option<Json>): Option<Fields> {
    if file.Some? && mergePath == "" then None
    else SetAll(template, FileAssignment(mergePath, file) + Prefixed(mergePath, vars) + Prefixed(mergePath, sets))
  }

  method BuildEnvelopeBody(template: Fields, mergePath: string, vars: seq<Assignment>, sets: seq<Assignment>,
                           file: Option<Json>) returns (body: Option<Fields>)
    ensures body == EnvelopeBody(template, mergePath, vars, sets, file)
  {
    if file.Some? && mergePath == "" {
      return None;
    }
    var envelope := new Document(template);
    var first, second, third := FileAssignment(mergePath, file), Prefixed(mergePath, vars), Prefixed(mergePath, sets);
    SetAllAppend(template, first + second, third);
    SetAllAppend(template, first, second);
    var ok := envelope.SetAllPaths(first);
    if !ok {
      return None;
    }
    ok := envelope.SetAllPaths(second);
    if !ok {
      return None;
    }
    ok := envelope.SetAllPaths(third);
    return if ok then Some(envelope.root) else None;
  }

  lemma {:induction false} SetAllAppend(m: Fields, xs: seq<Assignment>, ys: seq<Assignment>)
    ensures SetAll(m, xs + ys) ==
      match SetAll(m, xs)
      case Some(after) => SetAll(after, ys)
      case None => None
    decreases |xs|
  {
    if xs == [] {
      assert xs + ys == ys;
    } else {
      assert (xs + ys)[1..] == xs[1..] + ys;
      if Set(m, ParsePath(xs[0].path), xs[0].value).Some? {
        SetAllAppend(Set(m, ParsePath(xs[0].path), xs[0].value).value, xs[1..], ys);
      }
    }
  }

  /** The envelope does not depend on the iteration order of the variable map when no two of its
      variables overlap. */
  lemma EnvelopeOrderIrrelevant(template: Fields, mergePath: string, vars: seq<Assignment>, permuted: seq<Assignment>,
                                sets: seq<Assignment>, file: Option<Json>)
    requires multiset(vars) == multiset(permuted)
    requires PairwiseIndependent(Prefixed(mergePath, vars))
    ensures EnvelopeBody(template, mergePath, vars, sets, file)
         == EnvelopeBody(template, mergePath, permuted, sets, file)
  {
    var first, third := FileAssignment(mergePath, file), Prefixed(mergePath, sets);
    forall xs: seq<Assignment> ensures SetAll(template, first + xs + third) ==
        match SetAll(template, first)
        case Some(after) => SetAll(after, xs + third)
        case None => None
    {
      assert first + xs + third == first + (xs + third);
      SetAllAppend(template, first, xs + third);
    }
    PrefixedPermutation(mergePath, vars, permuted);
    if SetAll(template, first).Some? {
      var m := SetAll(template, first).value;
      OrderIrrelevant(m, Prefixed(mergePath, vars), Prefixed(mergePath, permuted));
      SetAllAppend(m, Prefixed(mergePath, vars), third);
      SetAllAppend(m, Prefixed(mergePath, permuted), third);
    }
  }

  lemma {:induction false} PrefixedPermutation(prefix: string, xs: seq<Assignment>, ys: seq<Assignment>)
    requires multiset(xs) == multiset(ys)
    ensures multiset(Prefixed(prefix, xs)) == multiset(Prefixed(prefix, ys))
    decreases |xs|
  {
    if xs == [] {
      assert |multiset(ys)| == 0;
    } else {
      var x := xs[0];
      assert x in multiset(xs) && x in ys;
      var i :| 0 <= i < |ys| && ys[i] == x;
      var before, after := ys[..i], ys[i + 1..];
      assert ys == before + [x] + after;
      TailPermutation(xs, before, x, after);
      PrefixedPermutation(prefix, xs[1..], before + after);
      assert xs == [] + [x] + xs[1..] && [] + xs[1..] == xs[1..];
      PrefixedAround(prefix, [], x, xs[1..]);
      PrefixedAround(prefix, before, x, after);
    }
  }

  lemma PrefixedAround(prefix: string, before: seq<Assignment>, x: Assignment, after: seq<Assignment>)
    ensures multiset(Prefixed(prefix, before + [x] + after))
         == multiset(Prefixed(prefix, before + after)) + multiset(Prefixed(prefix, [x]))
  {
    var a, p, b := Prefixed(prefix, before), Prefixed(prefix, [x]), Prefixed(prefix, after);
    assert Prefixed(prefix, before + [x] + after) == a + p + b;
    assert Prefixed(prefix, before + after) == a + b;
  }
}
