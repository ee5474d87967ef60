/** The string functions of Go's standard library that the modelled code calls.

    A `char` is a byte where only ASCII characters matter or single bytes are looked at: searching,
    splitting, percent-encoding, event streams. Where white space is trimmed it is a character of the
    decoded text, because Go decodes UTF-8 there. */
module Text {
  predicate OccursAt(s: string, sub: string, i: int) {
    0 <= i && i + |sub| <= |s| && s[i..i + |sub|] == sub
  }

  /** The first occurrence of `sub` at or after `from`, or -1. */
  function IndexFrom(s: string, sub: string, from: nat): (i: int)
    ensures i == -1 || (from <= i && OccursAt(s, sub, i))
    ensures forall j :: from <= j && OccursAt(s, sub, j) ==> 0 <= i <= j
    decreases |s| - from
  {
    if OccursAt(s, sub, from) then from
    else if from >= |s| then -1
    else IndexFrom(s, sub, from + 1)
  }

  /** strings.Index. */
  function Index(s: string, sub: string): (i: int)
    ensures i == -1 || OccursAt(s, sub, i)
    ensures forall j :: OccursAt(s, sub, j) ==> 0 <= i <= j
  {
    IndexFrom(s, sub, 0)
  }

  predicate Contains(s: string, sub: string) {
    Index(s, sub) >= 0
  }

  /** The first occurrence is the only index with that property. */
  lemma IndexUnique(s: string, sub: string, i: nat)
    requires OccursAt(s, sub, i)
    requires forall j :: 0 <= j < i ==> !OccursAt(s, sub, j)
    ensures Index(s, sub) == i
  {
  }

  datatype CutResult = CutResult(before: string, after: string, found: bool)

  /** strings.Cut. */
  function Cut(s: string, sep: string): CutResult {
    var i := Index(s, sep);
    if i < 0 then CutResult(s, "", false) else CutResult(s[..i], s[i + |sep|..], true)
  }

  /** Cutting takes the text apart at the first separator. */
  lemma CutParts(s: string, sep: string)
    requires sep != ""
    ensures !Contains(Cut(s, sep).before, sep)
    ensures Cut(s, sep).found ==> s == Cut(s, sep).before + sep + Cut(s, sep).after
    ensures !Cut(s, sep).found ==> s == Cut(s, sep).before
  {
    var i := Index(s, sep);
    var before := Cut(s, sep).before;
    forall j | OccursAt(before, sep, j) ensures OccursAt(s, sep, j) && j + |sep| <= |before| {
      assert s[j..j + |sep|] == before[j..j + |sep|];
    }
  }

  lemma CharOccurs(s: string, i: nat)
    requires i < |s|
    ensures Contains(s, [s[i]])
  {
    assert s[i..i + 1] == [s[i]];
    assert OccursAt(s, [s[i]], i);
  }

  /** strings.Split for a non-empty separator. */
  function Split(s: string, sep: string): (parts: seq<string>)
    requires sep != ""
    ensures parts != []
    decreases |s|
  {
    var i := Index(s, sep);
    if i < 0 then [s] else [s[..i]] + Split(s[i + |sep|..], sep)
  }

  /** strings.Join. */
  function Join(parts: seq<string>, sep: string): string {
    if parts == [] then ""
    else if |parts| == 1 then parts[0]
    else parts[0] + sep + Join(parts[1..], sep)
  }

  lemma {:induction false} JoinSplit(s: string, sep: string)
    requires sep != ""
    ensures Join(Split(s, sep), sep) == s
    decreases |s|
  {
    var i := Index(s, sep);
    if i < 0 {
    } else {
      var rest := s[i + |sep|..];
      JoinSplit(rest, sep);
      var parts := Split(s, sep);
      assert parts[1..] == Split(rest, sep);
      assert s == s[..i] + s[i..i + |sep|] + rest;
    }
  }

  /** `part` followed by `sep` is cut right after `part`. */
  predicate Separable(part: string, sep: string) {
    Index(part + sep, sep) == |part|
  }

  lemma SeparablePrefix(part: string, sep: string, rest: string)
    requires Separable(part, sep)
    ensures Index(part + sep + rest, sep) == |part|
  {
    var s := part + sep + rest;
    assert OccursAt(s, sep, |part|);
    forall j | 0 <= j < |part| ensures !OccursAt(s, sep, j) {
      assert s[j..j + |sep|] == (part + sep)[j..j + |sep|];
      assert !OccursAt(part + sep, sep, j);
    }
    IndexUnique(s, sep, |part|);
  }

  /** Splitting undoes joining when no separator occurs early. */
  lemma {:induction false} SplitJoin(parts: seq<string>, sep: string)
    requires sep != "" && parts != []
    requires forall i :: 0 <= i < |parts| - 1 ==> Separable(parts[i], sep)
    requires !Contains(parts[|parts| - 1], sep)
    ensures Split(Join(parts, sep), sep) == parts
  {
    if |parts| <= 1 {
    } else {
      var rest := Join(parts[1..], sep);
      SplitFirst(parts[0], sep, rest);
      assert Join(parts, sep) == parts[0] + sep + rest;
      SplitJoin(parts[1..], sep);
      assert parts == [parts[0]] + parts[1..];
    }
  }

  lemma SplitFirst(part: string, sep: string, rest: string)
    requires sep != "" && Separable(part, sep)
    ensures Split(part + sep + rest, sep) == [part] + Split(rest, sep)
  {
    SeparablePrefix(part, sep, rest);
    var s := part + sep + rest;
    assert s[..|part|] == part && s[|part| + |sep|..] == rest;
  }

  /** For a one-character separator it is enough that the parts do not contain it. */
  lemma SeparableChar(part: string, c: char)
    requires c !in part
    ensures Separable(part, [c]) && !Contains(part, [c])
  {
    var s := part + [c];
    assert OccursAt(s, [c], |part|);
    forall j | 0 <= j < |part| ensures !OccursAt(s, [c], j) && !OccursAt(part, [c], j) {
      assert s[j..j + 1][0] == part[j] && part[j..j + 1][0] == part[j];
    }
    IndexUnique(s, [c], |part|);
  }

  /** A text without the first character of `sub` does not contain it. */
  lemma AbsentChar(s: string, c: char, sub: string)
    requires sub != "" && sub[0] == c && c !in s
    ensures Index(s, sub) == -1
  {
    forall i | 0 <= i && i + |sub| <= |s| ensures !OccursAt(s, sub, i) {
      assert s[i..i + |sub|][0] == s[i];
    }
  }

  lemma SplitJoinChar(parts: seq<string>, c: char)
    requires parts != [] && forall part :: part in parts ==> c !in part
    ensures Split(Join(parts, [c]), [c]) == parts
  {
    forall part | part in parts ensures Separable(part, [c]) && !Contains(part, [c]) {
      SeparableChar(part, c);
    }
    SplitJoin(parts, [c]);
  }

  lemma CutChar(before: string, c: char, after: string)
    requires c !in before
    ensures Cut(before + [c] + after, [c]) == CutResult(before, after, true)
  {
    SeparableChar(before, c);
    SeparablePrefix(before, [c], after);
    var s := before + [c] + after;
    assert s[..|before|] == before && s[|before| + 1..] == after;
  }

  // ----- trimming

  /** unicode.IsSpace, on characters: a byte 0x85 or 0xA0 inside a UTF-8 sequence is not one. */
  predicate IsSpace(c: char) {
    c in {'\t', '\n', '\U{0B}', '\U{0C}', '\r', ' ', '\U{85}', '\U{A0}', '\U{1680}', '\U{2028}', '\U{2029}',
          '\U{202F}', '\U{205F}', '\U{3000}'}
    || '\U{2000}' <= c <= '\U{200A}'
  }

  const CAPITALS := "ABCDEFGHIJKLMNOPQRSTUVWXYZ"
  const LETTERS := "abcdefghijklmnopqrstuvwxyz"
  const DIGITS := "0123456789"

  lemma CapitalAt(k: nat)
    requires k < 26
    ensures CAPITALS[k] as int == 65 + k
  {
  }

  lemma LetterAt(k: nat)
    requires k < 26
    ensures LETTERS[k] as int == 97 + k
  {
  }

  lemma DigitAt(k: nat)
    requires k < 10
    ensures DIGITS[k] as int == 48 + k
  {
  }

  /** The first index at or after `i` whose character is kept. */
  function LeftEdge(s: string, cut: char -> bool, i: nat): (edge: nat)
    requires i <= |s|
    ensures i <= edge <= |s|
    decreases |s| - i
  {
    if i < |s| && cut(s[i]) then LeftEdge(s, cut, i + 1) else i
  }

  /** One past the last index in `from..until` whose character is kept. */
  function RightEdge(s: string, cut: char -> bool, from: nat, until: nat): (edge: nat)
    requires from <= until <= |s|
    ensures from <= edge <= until
    decreases until
  {
    if from < until && cut(s[until - 1]) then RightEdge(s, cut, from, until - 1) else until
  }

  function Trim(s: string, cut: char -> bool): (t: string)
    ensures |t| <= |s|
  {
    var from := LeftEdge(s, cut, 0);
    s[from..RightEdge(s, cut, from, |s|)]
  }

  /** strings.TrimSpace. */
  function TrimSpace(s: string): string {
    Trim(s, IsSpace)
  }

  /** TrimSpace keeps a slice; everything before it is space, and so is everything after it. */
  lemma TrimSpaceBounds(s: string) returns (from: nat, until: nat)
    ensures from <= until <= |s| && TrimSpace(s) == s[from..until]
    ensures forall i :: 0 <= i < from || until <= i < |s| ==> IsSpace(s[i])
  {
    from := LeftEdge(s, IsSpace, 0);
    until := RightEdge(s, IsSpace, from, |s|);
    LeftEdgeCuts(s, IsSpace, 0);
    RightEdgeCuts(s, IsSpace, from, |s|);
  }

  lemma TrimSpaceNoop(s: string)
    requires s != [] && !IsSpace(s[0]) && !IsSpace(s[|s| - 1])
    ensures TrimSpace(s) == s
  {
    assert s[0..|s|] == s;
  }

  /** A text without outer blanks, found between blanks. */
  lemma TrimmedBetween(lead: string, text: string, trail: string)
    requires (forall i :: 0 <= i < |lead| ==> IsSpace(lead[i])) && (forall i :: 0 <= i < |trail| ==> IsSpace(trail[i]))
    requires text != "" && !IsSpace(text[0]) && !IsSpace(text[|text| - 1])
    ensures TrimSpace(lead + text + trail) == text
  {
    var s, start, end := lead + text + trail, |lead|, |lead| + |text|;
    var from, until := TrimSpaceBounds(s);
    TrimSpaceStops(s);
    Between(lead, text, trail, start);
    Between(lead, text, trail, end - 1);
    Between(lead, text, trail, from);
    Between(lead, text, trail, until - 1);
    assert TrimSpace(s)[0] == s[from] && TrimSpace(s)[until - from - 1] == s[until - 1];
    assert s[start..end] == text;
  }

  lemma Between(lead: string, text: string, trail: string, i: int)
    requires 0 <= i < |lead + text + trail|
    ensures i < |lead| ==> (lead + text + trail)[i] == lead[i]
    ensures |lead| <= i < |lead| + |text| ==> (lead + text + trail)[i] == text[i - |lead|]
    ensures i >= |lead| + |text| ==> (lead + text + trail)[i] == trail[i - |lead| - |text|]
  {
  }

  lemma {:induction false} LeftEdgeCuts(s: string, cut: char -> bool, i: nat)
    requires i <= |s|
    ensures forall j :: i <= j < LeftEdge(s, cut, i) ==> cut(s[j])
    decreases |s| - i
  {
    if i == |s| || !cut(s[i]) {
    } else {
      LeftEdgeCuts(s, cut, i + 1);
    }
  }

  lemma {:induction false} RightEdgeCuts(s: string, cut: char -> bool, from: nat, until: nat)
    requires from <= until <= |s|
    ensures forall j :: RightEdge(s, cut, from, until) <= j < until ==> cut(s[j])
    decreases until
  {
    if from == until || !cut(s[until - 1]) {
    } else {
      RightEdgeCuts(s, cut, from, until - 1);
    }
  }

  lemma {:induction false} LeftEdgeStops(s: string, cut: char -> bool, i: nat)
    requires i <= |s|
    ensures LeftEdge(s, cut, i) == |s| || !cut(s[LeftEdge(s, cut, i)])
    decreases |s| - i
  {
    if i == |s| || !cut(s[i]) {
    } else {
      LeftEdgeStops(s, cut, i + 1);
    }
  }

  lemma {:induction false} RightEdgeStops(s: string, cut: char -> bool, from: nat, until: nat)
    requires from <= until <= |s|
    ensures RightEdge(s, cut, from, until) == from || !cut(s[RightEdge(s, cut, from, until) - 1])
    decreases until
  {
    if from == until || !cut(s[until - 1]) {
    } else {
      RightEdgeStops(s, cut, from, until - 1);
    }
  }

  /** A trimmed text has nothing left to trim; a text without blank ends stays. */
  lemma TrimSpaceStops(s: string)
    ensures TrimSpace(s) == "" || (!IsSpace(TrimSpace(s)[0]) && !IsSpace(TrimSpace(s)[|TrimSpace(s)| - 1]))
    ensures TrimSpace(s) == s <==> s == "" || (!IsSpace(s[0]) && !IsSpace(s[|s| - 1]))
  {
    LeftEdgeStops(s, IsSpace, 0);
    RightEdgeStops(s, IsSpace, LeftEdge(s, IsSpace, 0), |s|);
    if s != "" && !IsSpace(s[0]) && !IsSpace(s[|s| - 1]) {
      TrimSpaceNoop(s);
    }
  }

  lemma BlankIsEmpty(s: string)
    ensures TrimSpace(s) == "" <==> forall i :: 0 <= i < |s| ==> IsSpace(s[i])
  {
    var from, until := TrimSpaceBounds(s);
    TrimSpaceStops(s);
    if TrimSpace(s) != "" {
      assert TrimSpace(s)[0] == s[from];
    }
  }

  function TrimPrefix(s: string, prefix: string): string {
    if prefix <= s then s[|prefix|..] else s
  }

  predicate HasSuffix(s: string, suffix: string) {
    |suffix| <= |s| && s[|s| - |suffix|..] == suffix
  }

  /** Go's order on strings: byte by byte. */
  predicate LessEq(a: string, b: string) {
    a == "" || (b != "" && (a[0] < b[0] || (a[0] == b[0] && LessEq(a[1..], b[1..]))))
  }

  lemma {:induction false} LessEqOrder(a: string, b: string, c: string)
    ensures LessEq(a, b) || LessEq(b, a)
    ensures LessEq(a, b) && LessEq(b, c) ==> LessEq(a, c)
    ensures LessEq(a, b) && LessEq(b, a) ==> a == b
  {
    if a == "" || b == "" {
    } else {
      LessEqOrder(a[1..], b[1..], if c != "" then c[1..] else c);
      if a[0] == b[0] && a[1..] == b[1..] {
        assert a == [a[0]] + a[1..] && b == [b[0]] + b[1..];
      }
    }
  }
}
