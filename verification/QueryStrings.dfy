/** Query parameters as pairs, and the query string (pkg/runtime/operation.go). */
module QueryStrings {
  import opened Text
  import opened Decimal
  import opened Urls

  datatype Style = NoStyle | Form | SpaceDelimited | PipeDelimited

  datatype QueryParam = QueryParam(name: string, style: Style, explode: bool, allowReserved: bool)

  /** The values a query parameter can carry; any other value adds no pair. */
  datatype QueryValue = Strings(values: seq<string>) | Integer(n: int) | Boolean(b: bool) | Word(s: string) | OtherValue

  /** `raw` is already escaped. */
  datatype QueryPair = QueryPair(key: string, raw: string)

  predicate AllBytes(values: seq<string>) {
    forall i :: 0 <= i < |values| ==> Bytes(values[i])
  }

  function Delimiter(style: Style): string {
    match style
    case Form => ","
    case SpaceDelimited => "%20"
    case PipeDelimited => "%7C"
    case NoStyle => ""
  }

  function EscapeValue(p: QueryParam, value: string): string
    requires Bytes(value)
  {
    if p.allowReserved then ReplaceReserved(QueryEscape(value)) else QueryEscape(value)
  }

  function EscapeAll(p: QueryParam, values: seq<string>): (raws: seq<string>)
    requires AllBytes(values)
    ensures |raws| == |values|
  {
    seq(|values|, i requires 0 <= i < |values| => EscapeValue(p, values[i]))
  }

  function PairsOf(name: string, raws: seq<string>): (pairs: seq<QueryPair>)
    ensures |pairs| == |raws|
  {
    seq(|raws|, i requires 0 <= i < |raws| => QueryPair(name, raws[i]))
  }

  /** Whether an array becomes one pair. */
  predicate Joined(p: QueryParam) {
    p.style != NoStyle && !p.explode
  }

  function ArrayRaws(p: QueryParam, values: seq<string>): seq<string>
    requires AllBytes(values)
  {
    if values == [] then []
    else if !Joined(p) then EscapeAll(p, values)
    else [Join(EscapeAll(p, values), Delimiter(p.style))]
  }

  function BoolText(b: bool): string {
    if b then "true" else "false"
  }

  predicate Encodable(v: QueryValue) {
    match v
    case Strings(values) => AllBytes(values)
    case Word(s) => Bytes(s)
    case _ => true
  }

  /** What a value says, as texts. */
  function Texts(v: QueryValue): seq<string> {
    match v
    case Strings(values) => values
    case Integer(n) => [FormatInt(n)]
    case Boolean(b) => [if b then "true" else "false"]
    case Word(s) => [s]
    case OtherValue => []
  }

  lemma DigitsAreBytes(n: int)
    ensures Bytes(FormatInt(n))
  {
    ItoaBytes(if n < 0 then -n else n);
  }

  lemma {:induction false} ItoaBytes(n: nat)
    ensures Bytes(Itoa(n))
  {
    if n < 10 {
    } else {
      ItoaBytes(n / 10);
    }
  }

  /** queryParamPairs, without the names. */
  function Raws(p: QueryParam, v: QueryValue): seq<string>
    requires Encodable(v)
  {
    match v
    case Strings(values) => ArrayRaws(p, values)
    case Integer(n) => DigitsAreBytes(n); [EscapeValue(p, FormatInt(n))]
    case Boolean(b) => [EscapeValue(p, BoolText(b))]
    case Word(s) => [EscapeValue(p, s)]
    case OtherValue => []
  }

  function QueryParamPairs(p: QueryParam, v: QueryValue): seq<QueryPair>
    requires Encodable(v)
  {
    PairsOf(p.name, Raws(p, v))
  }

  // ----- order

  predicate SortedByKey(pairs: seq<QueryPair>) {
    forall i, j :: 0 <= i < j < |pairs| ==> LessEq(pairs[i].key, pairs[j].key)
  }

  /** The raws of one key, in order. */
  function RawsOf(pairs: seq<QueryPair>, key: string): seq<string> {
    if pairs == [] then []
    else (if pairs[0].key == key then [pairs[0].raw] else []) + RawsOf(pairs[1..], key)
  }

  function Insert(p: QueryPair, pairs: seq<QueryPair>): (all: seq<QueryPair>)
    ensures |all| == |pairs| + 1
  {
    if pairs == [] || LessEq(p.key, pairs[0].key) then [p] + pairs else [pairs[0]] + Insert(p, pairs[1..])
  }

  /** A stable sort by key. */
  function StableSort(pairs: seq<QueryPair>): (sorted: seq<QueryPair>)
    ensures |sorted| == |pairs|
  {
    if pairs == [] then [] else Insert(pairs[0], StableSort(pairs[1..]))
  }

  lemma {:induction false} InsertLaws(p: QueryPair, pairs: seq<QueryPair>, key: string)
    requires SortedByKey(pairs)
    ensures SortedByKey(Insert(p, pairs))
    ensures forall x :: x in Insert(p, pairs) <==> x == p || x in pairs
    ensures RawsOf(Insert(p, pairs), key) == (if p.key == key then [p.raw] else []) + RawsOf(pairs, key)
    decreases |pairs|
  {
    if pairs == [] || LessEq(p.key, pairs[0].key) {
      InsertFirst(p, pairs);
    } else {
      var rest := pairs[1..];
      assert forall i :: 0 <= i < |rest| ==> rest[i] == pairs[i + 1];
      InsertLaws(p, rest, key);
      InsertLater(p, pairs[0], rest);
    }
    InsertRaws(p, pairs, key);
  }

  /** Inserting behind the equal keys puts a pair in its place among them. */
  lemma {:induction false} InsertRaws(p: QueryPair, pairs: seq<QueryPair>, key: string)
    ensures RawsOf(Insert(p, pairs), key) == (if p.key == key then [p.raw] else []) + RawsOf(pairs, key)
    decreases |pairs|
  {
    if pairs == [] || LessEq(p.key, pairs[0].key) {
      assert ([p] + pairs)[1..] == pairs;
    } else {
      var rest := pairs[1..];
      InsertRaws(p, rest, key);
      assert ([pairs[0]] + Insert(p, rest))[1..] == Insert(p, rest);
      LessEqOrder(p.key, p.key, p.key);
    }
  }

  lemma InsertFirst(p: QueryPair, pairs: seq<QueryPair>)
    requires SortedByKey(pairs) && (pairs == [] || LessEq(p.key, pairs[0].key))
    ensures SortedByKey([p] + pairs)
  {
    forall i | 0 <= i < |pairs| ensures LessEq(p.key, pairs[i].key) {
      if i > 0 {
        assert LessEq(pairs[0].key, pairs[i].key);
        LessEqOrder(p.key, pairs[0].key, pairs[i].key);
      }
    }
  }

  lemma InsertLater(p: QueryPair, first: QueryPair, rest: seq<QueryPair>)
    requires SortedByKey([first] + rest) && !LessEq(p.key, first.key) && SortedByKey(Insert(p, rest))
    requires forall x :: x in Insert(p, rest) <==> x == p || x in rest
    ensures SortedByKey([first] + Insert(p, rest))
  {
    var all := Insert(p, rest);
    LessEqOrder(p.key, first.key, p.key);
    forall i | 0 <= i < |all| ensures LessEq(first.key, all[i].key) {
      assert all[i] in all;
      if all[i] != p {
        var j :| 0 <= j < |rest| && rest[j] == all[i];
        var before := [first] + rest;
        assert before[0] == first && before[j + 1] == all[i];
        assert LessEq(before[0].key, before[j + 1].key);
      }
    }
  }

  /** Sorting keeps each key's pairs in their order. */
  lemma {:induction false} SortLaws(pairs: seq<QueryPair>, key: string)
    ensures SortedByKey(StableSort(pairs)) && RawsOf(StableSort(pairs), key) == RawsOf(pairs, key)
  {
    if pairs == [] {
    } else {
      SortLaws(pairs[1..], key);
      InsertLaws(pairs[0], StableSort(pairs[1..]), key);
    }
  }

  // ----- the string

  function PairText(p: QueryPair): string
    requires Bytes(p.key)
  {
    QueryEscape(p.key) + "=" + p.raw
  }

  predicate KeysAreBytes(pairs: seq<QueryPair>) {
    forall i :: 0 <= i < |pairs| ==> Bytes(pairs[i].key)
  }

  function PairTexts(pairs: seq<QueryPair>): (texts: seq<string>)
    requires KeysAreBytes(pairs)
    ensures |texts| == |pairs|
    ensures forall i :: 0 <= i < |pairs| ==> texts[i] == PairText(pairs[i])
  {
    seq(|pairs|, i requires 0 <= i < |pairs| => PairText(pairs[i]))
  }

  lemma {:induction false} SortKeepsBytes(pairs: seq<QueryPair>)
    requires KeysAreBytes(pairs)
    ensures KeysAreBytes(StableSort(pairs))
  {
    if pairs == [] {
    } else {
      SortKeepsBytes(pairs[1..]);
      SortLaws(pairs[1..], "");
      var rest := StableSort(pairs[1..]);
      InsertLaws(pairs[0], rest, "");
      var all := StableSort(pairs);
      forall i | 0 <= i < |all| ensures Bytes(all[i].key) {
        assert all[i] in all;
      }
    }
  }

  function QueryString(pairs: seq<QueryPair>): string
    requires KeysAreBytes(pairs)
  {
    SortKeepsBytes(pairs);
    Join(PairTexts(StableSort(pairs)), "&")
  }

  lemma {:induction false} JoinSnoc(parts: seq<string>, last: string, sep: string)
    requires parts != []
    ensures Join(parts + [last], sep) == Join(parts, sep) + sep + last
    decreases |parts|
  {
    var all := parts + [last];
    if |parts| == 1 {
      assert all[1..] == [last];
    } else {
      assert all[1..] == parts[1..] + [last];
      JoinSnoc(parts[1..], last, sep);
      assert parts[0] + sep + (Join(parts[1..], sep) + sep + last) == Join(parts, sep) + sep + last;
    }
  }

  /** encodeQueryPairs: sorts the slice it is given in place, then writes. */
  method EncodeQueryPairs(pairs: array<QueryPair>) returns (b: string)
    requires KeysAreBytes(pairs[..])
    modifies pairs
    ensures pairs[..] == StableSort(old(pairs[..]))
    ensures b == QueryString(old(pairs[..]))
  {
    var sorted := StableSort(pairs[..]);
    SortKeepsBytes(pairs[..]);
    forall i | 0 <= i < pairs.Length {
      pairs[i] := sorted[i];
    }
    assert pairs[..] == sorted;
    b := "";
    for i := 0 to pairs.Length
      invariant pairs[..] == sorted
      invariant b == Join(PairTexts(sorted)[..i], "&")
    {
      ghost var done := PairTexts(sorted)[..i];
      assert PairTexts(sorted)[..i + 1] == done + [PairText(sorted[i])];
      if i > 0 {
        JoinSnoc(done, PairText(sorted[i]), "&");
        b := b + "&";
      }
      b := b + (QueryEscape(pairs[i].key) + "=" + pairs[i].raw);
    }
    assert PairTexts(sorted)[..pairs.Length] == PairTexts(sorted);
  }
}
