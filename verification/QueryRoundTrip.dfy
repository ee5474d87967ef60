/** Reading a query string back: which values survive, for every style. */
module QueryRoundTrip {
  import opened Wrappers
  import opened Text
  import opened Decimal
  import opened Urls
  import opened QueryStrings

  // ----- reading

  /** The raws of one name: split on "&", cut at "=", unescape the key. */
  function RawsNamed(parts: seq<string>, name: string): seq<string> {
    if parts == [] then []
    else
      var pair := Cut(parts[0], "=");
      (if QueryUnescape(pair.before) == Some(name) then [pair.after] else []) + RawsNamed(parts[1..], name)
  }

  /** `None` is a URL without a query. */
  function RawsIn(query: Option<string>, name: string): seq<string> {
    match query
    case Some(text) => RawsNamed(Split(text, "&"), name)
    case None => []
  }

  function UnescapeAll(raws: seq<string>): Option<seq<string>> {
    if raws == [] then Some([])
    else
      match (QueryUnescape(raws[0]), UnescapeAll(raws[1..]))
      case (Some(first), Some(rest)) => Some([first] + rest)
      case _ => None
  }

  /** An array with a style that is not exploded is split on the delimiter of the style before unescaping. */
  function Read(p: QueryParam, list: bool, raws: seq<string>): Option<seq<string>> {
    if !list || p.explode || raws == [] then UnescapeAll(raws)
    else
      match p.style
      case NoStyle => UnescapeAll(raws)
      case Form => UnescapeAll(Split(raws[0], ","))
      case SpaceDelimited => UnescapeAll(Split(raws[0], "%20"))
      case PipeDelimited => UnescapeAll(Split(raws[0], "%7C"))
  }

  // ----- escaped arrays

  function Escaped(keep: bool, values: seq<string>): (raws: seq<string>)
    requires AllBytes(values)
    ensures |raws| == |values| && forall i :: 0 <= i < |values| ==> raws[i] == Escape(keep, values[i])
  {
    seq(|values|, i requires 0 <= i < |values| => Escape(keep, values[i]))
  }

  lemma EscapeAllIsEscaped(p: QueryParam, values: seq<string>)
    requires AllBytes(values)
    ensures EscapeAll(p, values) == Escaped(p.allowReserved, values)
  {
    forall i | 0 <= i < |values| ensures EscapeAll(p, values)[i] == Escape(p.allowReserved, values[i]) {
      ReplaceIsKeep(values[i]);
    }
  }

  lemma {:induction false} UnescapeEscaped(keep: bool, values: seq<string>)
    requires AllBytes(values)
    ensures UnescapeAll(Escaped(keep, values)) == Some(values)
  {
    if values == [] {
    } else {
      UnescapeEscape(keep, values[0]);
      assert Escaped(keep, values)[1..] == Escaped(keep, values[1..]);
      UnescapeEscaped(keep, values[1..]);
      assert values == [values[0]] + values[1..];
    }
  }

  /** A triplet that no value escapes to never occurs in escaped text, nor across its end. */
  lemma TripletSeparable(keep: bool, v: string, c: char)
    requires Bytes(v) && c as int < 256 && (c !in v || EscapeByte(keep, c) != Triplet(c))
    ensures Separable(Escape(keep, v), Triplet(c)) && !Contains(Escape(keep, v), Triplet(c))
  {
    var e, d := Escape(keep, v), Triplet(c);
    assert OccursAt(e + d, d, |e|);
    forall j | 0 <= j < |e| ensures !OccursAt(e + d, d, j) && !OccursAt(e, d, j) {
      assert e + "" == e;
      if OccursAt(e + d, d, j) {
        TripletIsByte(keep, v, d, c, j);
      }
      if OccursAt(e + "", d, j) {
        TripletIsByte(keep, v, "", c, j);
      }
    }
    IndexUnique(e + d, d, |e|);
  }

  predicate NoneHas(values: seq<string>, c: char) {
    forall i :: 0 <= i < |values| ==> c !in values[i]
  }

  /** Splitting on an escape that no value contains undoes joining with it. */
  lemma SplitTriplets(keep: bool, values: seq<string>, c: char)
    requires values != [] && AllBytes(values) && c as int < 256
    requires NoneHas(values, c) || EscapeByte(keep, c) != Triplet(c)
    ensures Split(Join(Escaped(keep, values), Triplet(c)), Triplet(c)) == Escaped(keep, values)
  {
    var raws := Escaped(keep, values);
    forall i | 0 <= i < |raws| ensures Separable(raws[i], Triplet(c)) && !Contains(raws[i], Triplet(c)) {
      TripletSeparable(keep, values[i], c);
    }
    SplitJoin(raws, Triplet(c));
  }

  lemma SplitCommas(keep: bool, values: seq<string>)
    requires values != [] && AllBytes(values) && (keep ==> NoneHas(values, ','))
    ensures Split(Join(Escaped(keep, values), ","), ",") == Escaped(keep, values)
  {
    var raws := Escaped(keep, values);
    forall raw | raw in raws ensures ',' !in raw {
      var i :| 0 <= i < |raws| && raws[i] == raw;
      AbsentFromEscape(keep, values[i], ',');
    }
    SplitJoinChar(raws, ',');
  }

  // ----- a delimiter that values can contain

  /** The pieces between the `c`s of all values. */
  function Pieces(values: seq<string>, c: char): (pieces: seq<string>)
    ensures values != [] ==> pieces != []
  {
    if values == [] then [] else Split(values[0], [c]) + Pieces(values[1..], c)
  }

  lemma {:induction false} SplitBytes(v: string, c: char)
    requires Bytes(v)
    ensures AllBytes(Split(v, [c])) && NoneHas(Split(v, [c]), c)
    ensures |Split(v, [c])| == 1 <==> c !in v
    ensures c !in v ==> Split(v, [c]) == [v]
    decreases |v|
  {
    var i := Index(v, [c]);
    if i >= 0 {
      assert v[i] == v[i..i + 1][0] && v[i] in v;
      UntilFirst(v, c, i);
      SplitBytes(v[i + 1..], c);
    } else {
      UntilFirst(v, c, |v|);
      assert v[..|v|] == v;
    }
  }

  lemma UntilFirst(v: string, c: char, end: nat)
    requires end <= |v| && forall j :: OccursAt(v, [c], j) ==> end <= j
    ensures c !in v[..end]
  {
    forall j | 0 <= j < end ensures v[j] != c {
      assert !OccursAt(v, [c], j);
      assert v[j..j + 1] == [v[j]];
    }
  }

  lemma {:induction false} PiecesLaws(values: seq<string>, c: char)
    requires AllBytes(values)
    ensures AllBytes(Pieces(values, c)) && NoneHas(Pieces(values, c), c)
    ensures |Pieces(values, c)| >= |values|
    ensures Pieces(values, c) == values <==> NoneHas(values, c)
    ensures |Pieces(values, c)| == |values| ==> NoneHas(values, c)
  {
    if values == [] {
    } else {
      SplitBytes(values[0], c);
      PiecesLaws(values[1..], c);
      assert forall i :: 0 < i < |values| ==> values[i] == values[1..][i - 1];
      assert values == [values[0]] + values[1..];
    }
  }

  lemma {:induction false} JoinAppend(a: seq<string>, b: seq<string>, d: string)
    requires a != [] && b != []
    ensures Join(a + b, d) == Join(a, d) + d + Join(b, d)
    decreases |a|
  {
    var all := a + b;
    if |a| == 1 {
      assert all[1..] == b;
    } else {
      assert all[1..] == a[1..] + b;
      JoinAppend(a[1..], b, d);
      Regroup(a[0], d, Join(a[1..], d), Join(b, d));
    }
  }

  lemma Regroup(x: string, d: string, y: string, z: string)
    ensures x + d + (y + d + z) == x + d + y + d + z
  {
  }

  /** Escaping a value is joining the escapes of its pieces. */
  lemma {:induction false} EscapePieces(keep: bool, v: string, c: char)
    requires Bytes(v) && c as int < 256
    ensures AllBytes(Split(v, [c]))
    ensures Escape(keep, v) == Join(Escaped(keep, Split(v, [c])), EscapeByte(keep, c))
    decreases |v|
  {
    SplitBytes(v, c);
    var i := Index(v, [c]);
    if i < 0 {
    } else {
      AroundFirst(v, c, i);
      EscapePieces(keep, v[i + 1..], c);
      EscapeAround(keep, v[..i], c, v[i + 1..]);
      JoinEscaped(keep, v[..i], Split(v[i + 1..], [c]), EscapeByte(keep, c));
    }
  }

  lemma AroundFirst(v: string, c: char, i: nat)
    requires OccursAt(v, [c], i)
    ensures v == v[..i] + [c] + v[i + 1..]
  {
    assert v[i..i + 1] == [c];
  }

  lemma JoinEscaped(keep: bool, first: string, rest: seq<string>, d: string)
    requires Bytes(first) && AllBytes(rest) && rest != []
    ensures AllBytes([first] + rest)
    ensures Join(Escaped(keep, [first] + rest), d) == Escape(keep, first) + d + Join(Escaped(keep, rest), d)
  {
    EscapedAppend(keep, [first], rest);
    JoinAppend(Escaped(keep, [first]), Escaped(keep, rest), d);
  }

  lemma EscapeAround(keep: bool, before: string, c: char, after: string)
    requires Bytes(before) && c as int < 256 && Bytes(after)
    ensures Bytes(before + [c] + after)
    ensures Escape(keep, before + [c] + after) == Escape(keep, before) + EscapeByte(keep, c) + Escape(keep, after)
  {
    assert before + [c] + after == before + ([c] + after);
    EscapeAppend(keep, before, [c] + after);
    assert ([c] + after)[1..] == after;
  }

  lemma EscapedAppend(keep: bool, a: seq<string>, b: seq<string>)
    requires AllBytes(a) && AllBytes(b)
    ensures AllBytes(a + b) && Escaped(keep, a + b) == Escaped(keep, a) + Escaped(keep, b)
  {
  }

  /** A joined array does not say where a value ends and where a delimiter character was. */
  lemma {:induction false} JoinPieces(keep: bool, values: seq<string>, c: char)
    requires values != [] && AllBytes(values) && c as int < 256
    ensures AllBytes(Pieces(values, c))
    ensures Join(Escaped(keep, values), EscapeByte(keep, c))
         == Join(Escaped(keep, Pieces(values, c)), EscapeByte(keep, c))
    decreases |values|
  {
    var d := EscapeByte(keep, c);
    var first, rest := Split(values[0], [c]), values[1..];
    EscapePieces(keep, values[0], c);
    PiecesLaws(rest, c);
    EscapedAppend(keep, first, Pieces(rest, c));
    assert values == [values[0]] + rest;
    if rest == [] {
      assert Pieces(values, c) == first;
    } else {
      JoinPieces(keep, rest, c);
      JoinAppend(Escaped(keep, first), Escaped(keep, Pieces(rest, c)), d);
      assert Escaped(keep, values)[1..] == Escaped(keep, rest);
    }
  }

  // ----- one parameter

  /** The character that a joined array cannot carry. */
  function Ambiguity(p: QueryParam): Option<char> {
    if p.explode then None
    else if p.style == PipeDelimited then Some('|')
    else if p.style == Form && p.allowReserved then Some(',')
    else None
  }

  lemma SpaceTriplet()
    ensures Delimiter(SpaceDelimited) == Triplet(' ') && Delimiter(PipeDelimited) == Triplet('|')
    ensures EscapeByte(true, '|') == EscapeByte(false, '|') == Triplet('|')
    ensures EscapeByte(true, ' ') == EscapeByte(false, ' ') != Triplet(' ')
    ensures EscapeByte(true, ',') == Delimiter(Form) == ","
  {
  }

  /** What reading returns: the values, or their pieces when the delimiter can occur in a value. */
  lemma ReadJoined(p: QueryParam, values: seq<string>)
    requires values != [] && AllBytes(values) && p.style != NoStyle && !p.explode
    ensures Read(p, true, ArrayRaws(p, values))
         == Some(if Ambiguity(p).Some? then Pieces(values, Ambiguity(p).value) else values)
  {
    var keep, d := p.allowReserved, Delimiter(p.style);
    EscapeAllIsEscaped(p, values);
    SpaceTriplet();
    if Ambiguity(p).Some? {
      var c := Ambiguity(p).value;
      var pieces := Pieces(values, c);
      PiecesLaws(values, c);
      JoinPieces(keep, values, c);
      if c == '|' {
        SplitTriplets(keep, pieces, '|');
      } else {
        SplitCommas(keep, pieces);
      }
      UnescapeEscaped(keep, pieces);
    } else {
      if p.style == Form {
        SplitCommas(keep, values);
      } else {
        SplitTriplets(keep, values, ' ');
      }
      UnescapeEscaped(keep, values);
    }
  }

  /** An array makes one raw for each value, which unescapes to it, without a style or exploded; else a single
      raw, unless it is empty. */
  lemma ArrayRawsCount(p: QueryParam, values: seq<string>)
    requires AllBytes(values)
    ensures p.style == NoStyle || p.explode ==>
      |ArrayRaws(p, values)| == |values|
      && forall i :: 0 <= i < |values| ==> QueryUnescape(ArrayRaws(p, values)[i]) == Some(values[i])
    ensures p.style != NoStyle && !p.explode && values != [] ==> |ArrayRaws(p, values)| == 1
    ensures values == [] ==> ArrayRaws(p, values) == []
  {
    forall i | 0 <= i < |values| ensures QueryUnescape(EscapeAll(p, values)[i]) == Some(values[i]) {
      ReplaceIsKeep(values[i]);
      UnescapeEscape(p.allowReserved, values[i]);
    }
  }

  /** No value of an unexploded array contains the character that its style cannot carry: `|` when pipe
      delimited, `,` when comma separated with reserved characters kept. */
  predicate Unambiguous(p: QueryParam, v: QueryValue) {
    v.Strings? && !p.explode ==>
      && (p.style == PipeDelimited ==> NoneHas(v.values, '|'))
      && (p.style == Form && p.allowReserved ==> NoneHas(v.values, ','))
  }

  lemma ReadBackIff(p: QueryParam, v: QueryValue)
    requires Encodable(v)
    ensures Read(p, v.Strings?, Raws(p, v)) == Some(Texts(v)) <==> Unambiguous(p, v)
    ensures p.style == NoStyle || p.explode ==> Read(p, v.Strings?, Raws(p, v)) == Some(Texts(v))
  {
    if v.Strings? {
      if v.values != [] && p.style != NoStyle && !p.explode {
        ReadJoined(p, v.values);
        if Ambiguity(p).Some? {
          PiecesLaws(v.values, Ambiguity(p).value);
        }
      } else {
        EscapeAllIsEscaped(p, v.values);
        UnescapeEscaped(p.allowReserved, v.values);
      }
    } else if !v.OtherValue? {
      if v.Integer? {
        DigitsAreBytes(v.n);
      }
      var text := Texts(v)[0];
      ReplaceIsKeep(text);
      UnescapeEscape(p.allowReserved, text);
      OneRaw(EscapeValue(p, text), text);
    }
  }

  lemma OneRaw(raw: string, text: string)
    requires QueryUnescape(raw) == Some(text)
    ensures UnescapeAll([raw]) == Some([text])
  {
    assert [raw][1..] == [];
    assert UnescapeAll([]) == Some([]);
    assert [text] + [] == [text];
  }

  // ----- the whole string

  predicate PlainRaws(pairs: seq<QueryPair>) {
    forall i :: 0 <= i < |pairs| ==> '&' !in pairs[i].raw
  }

  lemma PairTextReads(p: QueryPair)
    requires Bytes(p.key)
    ensures Cut(PairText(p), "=") == CutResult(QueryEscape(p.key), p.raw, true)
    ensures QueryUnescape(QueryEscape(p.key)) == Some(p.key)
    ensures '&' !in p.raw ==> '&' !in PairText(p)
  {
    AbsentFromEscape(false, p.key, '=');
    AbsentFromEscape(false, p.key, '&');
    CutChar(QueryEscape(p.key), '=', p.raw);
    assert PairText(p) == QueryEscape(p.key) + ['='] + p.raw;
    assert '&' !in ['='];
    UnescapeEscape(false, p.key);
  }

  lemma {:induction false} PairTextsRead(pairs: seq<QueryPair>, name: string)
    requires KeysAreBytes(pairs)
    ensures RawsNamed(PairTexts(pairs), name) == RawsOf(pairs, name)
  {
    if pairs == [] {
    } else {
      PairTextReads(pairs[0]);
      PairTextsRead(pairs[1..], name);
      assert PairTexts(pairs)[1..] == PairTexts(pairs[1..]);
    }
  }

  lemma SortKeepsPlain(pairs: seq<QueryPair>)
    requires PlainRaws(pairs)
    ensures PlainRaws(StableSort(pairs))
  {
    if pairs == [] {
    } else {
      SortKeepsPlain(pairs[1..]);
      SortLaws(pairs[1..], "");
      InsertLaws(pairs[0], StableSort(pairs[1..]), "");
      var all := StableSort(pairs);
      forall i | 0 <= i < |all| ensures '&' !in all[i].raw {
        assert all[i] in all;
      }
    }
  }

  /** The query is left out when there are no pairs. */
  function Query(pairs: seq<QueryPair>): Option<string>
    requires KeysAreBytes(pairs)
  {
    if pairs == [] then None else Some(QueryString(pairs))
  }

  /** Sorting and printing lose no pair and keep each name's order. */
  lemma QueryKeepsPairs(pairs: seq<QueryPair>, name: string)
    requires KeysAreBytes(pairs) && PlainRaws(pairs)
    ensures RawsIn(Query(pairs), name) == RawsOf(pairs, name)
  {
    if pairs != [] {
      var sorted := StableSort(pairs);
      SortKeepsBytes(pairs);
      SortKeepsPlain(pairs);
      SortLaws(pairs, name);
      forall text | text in PairTexts(sorted) ensures '&' !in text {
        var i :| 0 <= i < |sorted| && PairTexts(sorted)[i] == text;
        PairTextReads(sorted[i]);
      }
      SplitJoinChar(PairTexts(sorted), '&');
      PairTextsRead(sorted, name);
    }
  }

  datatype Argument = Argument(param: QueryParam, value: QueryValue)

  predicate AllEncodable(args: seq<Argument>) {
    forall i :: 0 <= i < |args| ==> Bytes(args[i].param.name) && Encodable(args[i].value)
  }

  function AllPairs(args: seq<Argument>): seq<QueryPair>
    requires AllEncodable(args)
  {
    if args == [] then [] else QueryParamPairs(args[0].param, args[0].value) + AllPairs(args[1..])
  }

  lemma {:induction false} RawsOfAppend(a: seq<QueryPair>, b: seq<QueryPair>, key: string)
    ensures RawsOf(a + b, key) == RawsOf(a, key) + RawsOf(b, key)
  {
    if a == [] {
      assert a + b == b;
    } else {
      assert (a + b)[1..] == a[1..] + b;
      RawsOfAppend(a[1..], b, key);
    }
  }

  lemma {:induction false} RawsOfOne(name: string, raws: seq<string>, key: string)
    ensures RawsOf(PairsOf(name, raws), key) == if key == name then raws else []
  {
    if raws == [] {
    } else {
      assert PairsOf(name, raws)[1..] == PairsOf(name, raws[1..]);
      RawsOfOne(name, raws[1..], key);
      assert raws == [raws[0]] + raws[1..];
    }
  }

  /** Argument `k` is the only one with its name. */
  predicate OwnName(args: seq<Argument>, k: nat)
    requires k < |args|
  {
    forall i :: 0 <= i < |args| && i != k ==> args[i].param.name != args[k].param.name
  }

  lemma RawsOfFirst(args: seq<Argument>, name: string)
    requires args != [] && AllEncodable(args)
    ensures RawsOf(AllPairs(args), name)
         == (if args[0].param.name == name then Raws(args[0].param, args[0].value) else [])
            + RawsOf(AllPairs(args[1..]), name)
  {
    RawsOfAppend(QueryParamPairs(args[0].param, args[0].value), AllPairs(args[1..]), name);
    RawsOfOne(args[0].param.name, Raws(args[0].param, args[0].value), name);
  }

  lemma {:induction false} NoSuchName(args: seq<Argument>, name: string)
    requires AllEncodable(args) && forall i :: 0 <= i < |args| ==> args[i].param.name != name
    ensures RawsOf(AllPairs(args), name) == []
  {
    if args == [] {
    } else {
      RawsOfFirst(args, name);
      NoSuchName(args[1..], name);
    }
  }

  lemma {:induction false} RawsOfArgument(args: seq<Argument>, k: nat)
    requires k < |args| && AllEncodable(args) && OwnName(args, k)
    ensures RawsOf(AllPairs(args), args[k].param.name) == Raws(args[k].param, args[k].value)
  {
    var name := args[k].param.name;
    RawsOfFirst(args, name);
    assert forall i :: 0 <= i < |args[1..]| ==> args[1..][i] == args[i + 1];
    if k == 0 {
      NoSuchName(args[1..], name);
    } else {
      RawsOfArgument(args[1..], k - 1);
    }
  }

  lemma EscapeValuePlain(p: QueryParam, v: string)
    requires Bytes(v)
    ensures '&' !in EscapeValue(p, v)
  {
    ReplaceIsKeep(v);
    AbsentFromEscape(p.allowReserved, v, '&');
  }

  lemma {:induction false} JoinPlain(parts: seq<string>, d: string, c: char)
    requires c !in d && forall part :: part in parts ==> c !in part
    ensures c !in Join(parts, d)
  {
    if |parts| <= 1 {
    } else {
      JoinPlain(parts[1..], d, c);
    }
  }

  lemma RawsPlain(p: QueryParam, v: QueryValue)
    requires Encodable(v)
    ensures forall raw :: raw in Raws(p, v) ==> '&' !in raw
  {
    match v {
      case Strings(values) =>
        forall i | 0 <= i < |values| ensures '&' !in EscapeAll(p, values)[i] {
          EscapeValuePlain(p, values[i]);
        }
        JoinPlain(EscapeAll(p, values), Delimiter(p.style), '&');
      case Integer(n) =>
        DigitsAreBytes(n);
        EscapeValuePlain(p, FormatInt(n));
      case Boolean(b) =>
        EscapeValuePlain(p, BoolText(b));
      case Word(s) =>
        EscapeValuePlain(p, s);
      case OtherValue =>
    }
  }

  lemma {:induction false} AllPairsPlain(args: seq<Argument>)
    requires AllEncodable(args)
    ensures KeysAreBytes(AllPairs(args)) && PlainRaws(AllPairs(args))
  {
    if args == [] {
    } else {
      AllPairsPlain(args[1..]);
      var p, v := args[0].param, args[0].value;
      RawsPlain(p, v);
      var pairs := QueryParamPairs(p, v);
      forall i | 0 <= i < |pairs| ensures '&' !in pairs[i].raw && Bytes(pairs[i].key) {
        assert Raws(p, v)[i] in Raws(p, v);
      }
    }
  }

  /** Every argument with a name of its own is read back from the query string exactly when its style
      can carry its values: always when exploded, space delimited, or comma separated without reserved
      characters; without any "|" when pipe delimited, without any "," when those are kept. */
  lemma QueryRoundTrip(args: seq<Argument>, k: nat)
    requires k < |args| && AllEncodable(args) && OwnName(args, k)
    ensures KeysAreBytes(AllPairs(args))
    ensures var p, v := args[k].param, args[k].value;
            var read := Read(p, v.Strings?, RawsIn(Query(AllPairs(args)), p.name));
            && (read == Some(Texts(v)) <==> Unambiguous(p, v))
            && (p.style == NoStyle || p.explode ==> read == Some(Texts(v)))
  {
    AllPairsPlain(args);
    QueryKeepsPairs(AllPairs(args), args[k].param.name);
    RawsOfArgument(args, k);
    ReadBackIff(args[k].param, args[k].value);
  }
}
