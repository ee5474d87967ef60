/** Replacing one parameter of a query string (pkg/runtime/paginate.go). */
module QueryRewrite {
  import opened Wrappers
  import opened Text
  import opened Urls
  import opened QueryStrings
  import opened QueryRoundTrip

  function PathPart(url: string): string {
    Cut(url, "?").before
  }

  /** The pairs of a URL's query, as written. */
  function Parts(url: string): seq<string> {
    var query := Cut(url, "?").after;
    if query == "" then [] else Split(query, "&")
  }

  /** A pair's name; one that does not unescape stands for itself. */
  function NameOfPart(part: string): string {
    var name := Cut(part, "=").before;
    match QueryUnescape(name)
    case Some(decoded) => decoded
    case None => name
  }

  function Kept(parts: seq<string>, key: string): seq<string> {
    if parts == [] then []
    else (if NameOfPart(parts[0]) == key then [] else [parts[0]]) + Kept(parts[1..], key)
  }

  function OwnPart(key: string, value: string): string
    requires Bytes(key) && Bytes(value)
  {
    QueryEscape(key) + "=" + QueryEscape(value)
  }

  /** What the builder holds after one more pair. */
  function Add(b: string, part: string): string {
    if b == "" then part else b + "&" + part
  }

  function AddAll(b: string, parts: seq<string>): string
    decreases |parts|
  {
    if parts == [] then b else AddAll(Add(b, parts[0]), parts[1..])
  }

  lemma KeptStep(b: string, parts: seq<string>, i: nat, key: string)
    requires i < |parts|
    ensures AddAll(b, Kept(parts[i..], key))
         == AddAll(if NameOfPart(parts[i]) == key then b else Add(b, parts[i]), Kept(parts[i + 1..], key))
  {
    var rest := parts[i..];
    assert rest[0] == parts[i] && rest[1..] == parts[i + 1..];
    if NameOfPart(parts[i]) == key {
      assert Kept(rest, key) == Kept(rest[1..], key);
    } else {
      assert Kept(rest, key)[1..] == Kept(rest[1..], key);
    }
  }

  /** The loop of setQueryParam: copies every pair with another name. */
  method CopyOthers(pairs: seq<string>, key: string) returns (b: string)
    ensures b == AddAll("", Kept(pairs, key))
  {
    b := "";
    assert pairs[0..] == pairs;
    for i := 0 to |pairs|
      invariant AddAll(b, Kept(pairs[i..], key)) == AddAll("", Kept(pairs, key))
    {
      KeptStep(b, pairs, i, key);
      if NameOfPart(pairs[i]) == key {
        continue;
      }
      ghost var next := Add(b, pairs[i]);
      if b != "" {
        b := b + "&";
      }
      b := b + pairs[i];
      assert b == next;
    }
  }

  method SetQueryParam(basePath: string, key: string, value: string) returns (url: string)
    requires Bytes(key) && Bytes(value)
    ensures url == WithQueryParam(basePath, key, value)
  {
    var cut := Cut(basePath, "?");
    var b := "";
    if cut.after != "" {
      b := CopyOthers(Split(cut.after, "&"), key);
    }
    if b != "" {
      b := b + "&";
    }
    b := b + (QueryEscape(key) + "=" + QueryEscape(value));
    url := cut.before + "?" + b;
  }

  function WithQueryParam(basePath: string, key: string, value: string): string
    requires Bytes(key) && Bytes(value)
  {
    PathPart(basePath) + "?" + Add(AddAll("", Kept(Parts(basePath), key)), OwnPart(key, value))
  }

  // ----- what the rewritten query holds

  /** Empty pairs at the front vanish. */
  function DropEmpty(parts: seq<string>): seq<string> {
    if parts != [] && parts[0] == "" then DropEmpty(parts[1..]) else parts
  }

  lemma {:induction false} AddAllJoins(b: string, parts: seq<string>)
    requires b != ""
    ensures AddAll(b, parts) == Join([b] + parts, "&")
    decreases |parts|
  {
    var all := [b] + parts;
    if parts == [] {
    } else {
      AddAllJoins(Add(b, parts[0]), parts[1..]);
      assert all[1..] == parts;
      JoinMerge(b, parts[0], parts[1..]);
      assert [b, parts[0]] + parts[1..] == all;
    }
  }

  lemma JoinMerge(a: string, b: string, rest: seq<string>)
    ensures Join([a + "&" + b] + rest, "&") == Join([a, b] + rest, "&")
  {
    var long := [a, b] + rest;
    assert long[1..] == [b] + rest;
    assert ([b] + rest)[1..] == rest && ([a + "&" + b] + rest)[1..] == rest;
    if rest != [] {
      assert a + "&" + (b + "&" + Join(rest, "&")) == a + "&" + b + "&" + Join(rest, "&");
    }
  }

  lemma {:induction false} AddAllFromEmpty(parts: seq<string>)
    ensures AddAll("", parts) == Join(DropEmpty(parts), "&")
    ensures DropEmpty(parts) != [] ==> AddAll("", parts) != ""
  {
    if parts == [] {
    } else {
      if parts[0] == "" {
        AddAllFromEmpty(parts[1..]);
      } else {
        AddAllJoins(parts[0], parts[1..]);
        assert [parts[0]] + parts[1..] == parts;
      }
    }
  }

  lemma {:induction false} KeptPlain(parts: seq<string>, key: string, c: char)
    requires forall part :: part in parts ==> c !in part
    ensures forall part :: part in DropEmpty(Kept(parts, key)) ==> c !in part
  {
    if parts == [] {
    } else {
      KeptPlain(parts[1..], key, c);
      DropKept(parts, key);
    }
  }

  lemma {:induction false} DropKept(parts: seq<string>, key: string)
    requires parts != []
    ensures forall part :: part in DropEmpty(Kept(parts, key)) ==> part in parts
    decreases |parts|
  {
    DropEmptySubset(Kept(parts, key));
    KeptSubset(parts, key);
  }

  lemma {:induction false} DropEmptySubset(parts: seq<string>)
    ensures forall part :: part in DropEmpty(parts) ==> part in parts
  {
    if parts == [] || parts[0] != "" {
    } else {
      DropEmptySubset(parts[1..]);
    }
  }

  lemma {:induction false} KeptSubset(parts: seq<string>, key: string)
    ensures forall part :: part in Kept(parts, key) ==> part in parts
  {
    if parts == [] {
    } else {
      KeptSubset(parts[1..], key);
    }
  }

  lemma {:induction false} SplitPlain(s: string, c: char)
    ensures forall part :: part in Split(s, [c]) ==> c !in part
    decreases |s|
  {
    var i := Index(s, [c]);
    if i < 0 {
      UntilFirst(s, c, |s|);
      assert s[..|s|] == s;
    } else {
      UntilFirst(s, c, i);
      SplitPlain(s[i + 1..], c);
    }
  }

  lemma PathPartPlain(url: string)
    ensures '?' !in PathPart(url)
  {
    var i := Index(url, "?");
    UntilFirst(url, '?', if i < 0 then |url| else i);
    assert url[..|url|] == url;
  }

  lemma OwnPartReads(key: string, value: string)
    requires Bytes(key) && Bytes(value)
    ensures var own := OwnPart(key, value);
            && own != "" && '&' !in own && ';' !in own
            && Cut(own, "=") == CutResult(QueryEscape(key), QueryEscape(value), true)
            && QueryUnescape(QueryEscape(key)) == Some(key) && QueryUnescape(QueryEscape(value)) == Some(value)
            && NameOfPart(own) == key
  {
    var pair := QueryPair(key, QueryEscape(value));
    AbsentFromEscape(false, value, '&');
    PairTextReads(pair);
    assert OwnPart(key, value) == PairText(pair);
    UnescapeEscape(false, value);
    AbsentFromEscape(false, key, ';');
    AbsentFromEscape(false, value, ';');
    assert ';' !in "=";
    assert |PairText(pair)| > 0;
  }

  /** The pairs of the rewritten URL: the others in their order, then the new one, once. */
  lemma RewrittenParts(basePath: string, key: string, value: string)
    requires Bytes(key) && Bytes(value)
    ensures var url := WithQueryParam(basePath, key, value);
            && PathPart(url) == PathPart(basePath)
            && Parts(url) == DropEmpty(Kept(Parts(basePath), key)) + [OwnPart(key, value)]
  {
    var kept := DropEmpty(Kept(Parts(basePath), key));
    var own := OwnPart(key, value);
    OwnPartReads(key, value);
    AddAllFromEmpty(Kept(Parts(basePath), key));
    var query := Add(AddAll("", Kept(Parts(basePath), key)), own);
    if kept == [] {
      assert kept + [own] == [own];
    } else {
      JoinSnoc(kept, own, "&");
    }
    assert query == Join(kept + [own], "&");
    SplitPlain(Cut(basePath, "?").after, '&');
    KeptPlain(Parts(basePath), key, '&');
    SplitJoinChar(kept + [own], '&');
    PathPartPlain(basePath);
    CutChar(PathPart(basePath), '?', query);
    assert |query| >= |own|;
  }

  /** The pairs that say something under another name. */
  function Others(parts: seq<string>, key: string): seq<string> {
    if parts == [] then []
    else (if parts[0] == "" || NameOfPart(parts[0]) == key then [] else [parts[0]]) + Others(parts[1..], key)
  }

  function Own(parts: seq<string>, key: string): seq<string> {
    if parts == [] then []
    else (if parts[0] == "" || NameOfPart(parts[0]) != key then [] else [parts[0]]) + Own(parts[1..], key)
  }

  lemma {:induction false} KeptOthers(parts: seq<string>, key: string)
    ensures Others(DropEmpty(Kept(parts, key)), key) == Others(parts, key)
    ensures Others(Kept(parts, key), key) == Others(parts, key)
    ensures Own(DropEmpty(Kept(parts, key)), key) == [] && Own(Kept(parts, key), key) == []
  {
    if parts == [] {
    } else {
      KeptOthers(parts[1..], key);
      if NameOfPart(parts[0]) == key {
        assert Kept(parts, key) == Kept(parts[1..], key);
      } else {
        assert Kept(parts, key)[1..] == Kept(parts[1..], key);
      }
    }
  }

  lemma {:induction false} SplitOthers(a: seq<string>, own: string, key: string)
    requires own != "" && NameOfPart(own) == key
    ensures Others(a + [own], key) == Others(a, key) && Own(a + [own], key) == Own(a, key) + [own]
  {
    if a == [] {
      assert a + [own] == [own] && [own][1..] == [];
    } else {
      assert (a + [own])[1..] == a[1..] + [own];
      SplitOthers(a[1..], own, key);
    }
  }

  /** The path and every other pair stay as they were, in order; the key occurs once, with the value. */
  lemma SetQueryParamLaw(basePath: string, key: string, value: string)
    requires Bytes(key) && Bytes(value)
    ensures var url := WithQueryParam(basePath, key, value);
            && PathPart(url) == PathPart(basePath)
            && Others(Parts(url), key) == Others(Parts(basePath), key)
            && Own(Parts(url), key) == [OwnPart(key, value)]
  {
    RewrittenParts(basePath, key, value);
    OwnPartReads(key, value);
    KeptOthers(Parts(basePath), key);
    SplitOthers(DropEmpty(Kept(Parts(basePath), key)), OwnPart(key, value), key);
  }

  // ----- reading one parameter, as url.ParseQuery and Values.Get do

  /** A pair that url.ParseQuery accepts. */
  predicate WellFormed(part: string) {
    var cut := Cut(part, "=");
    part != "" && ';' !in part && QueryUnescape(cut.before).Some? && QueryUnescape(cut.after).Some?
  }

  /** The first value of a key, or nothing. */
  function QueryGet(parts: seq<string>, key: string): string {
    if parts == [] then ""
    else if WellFormed(parts[0]) && NameOfPart(parts[0]) == key then QueryUnescape(Cut(parts[0], "=").after).value
    else QueryGet(parts[1..], key)
  }

  lemma {:induction false} GetOwn(parts: seq<string>, key: string, own: string)
    requires Own(parts, key) == [own] && WellFormed(own)
    ensures QueryGet(parts, key) == QueryUnescape(Cut(own, "=").after).value
  {
    if parts[0] == "" || NameOfPart(parts[0]) != key {
      GetOwn(parts[1..], key, own);
    } else {
      assert parts[0] == Own(parts, key)[0];
    }
  }

  /** Reading the key from the rewritten URL returns the value that was set. */
  lemma GetAfterSet(basePath: string, key: string, value: string)
    requires Bytes(key) && Bytes(value)
    ensures QueryGet(Parts(WithQueryParam(basePath, key, value)), key) == value
  {
    SetQueryParamLaw(basePath, key, value);
    OwnPartReads(key, value);
    GetOwn(Parts(WithQueryParam(basePath, key, value)), key, OwnPart(key, value));
  }
}
