/** Percent-encoding in query strings (section 2.1 of RFC 3986, as Go's net/url applies it) and the
    replacer for reserved characters (pkg/runtime/operation.go). */
module Urls {
  import opened Wrappers
  import opened Text

  /** Go strings are sequences of bytes. */
  predicate Bytes(s: string) {
    forall i :: 0 <= i < |s| ==> s[i] as int < 256
  }

  type ByteString = s: string | Bytes(s) witness ""

  predicate Unreserved(c: char) {
    'a' <= c <= 'z' || 'A' <= c <= 'Z' || '0' <= c <= '9' || c == '-' || c == '_' || c == '.' || c == '~'
  }

  /** What reservedQueryReplacer turns back. */
  predicate Reserved(c: char) {
    || c == ':' || c == '/' || c == '?' || c == '[' || c == ']' || c == '@' || c == '!' || c == '$' || c == '\''
    || c == '(' || c == ')' || c == '*' || c == ',' || c == ';'
  }

  function HexDigit(d: nat): (c: char)
    requires d < 16
  {
    if d < 10 then '0' + d as char else 'A' + (d - 10) as char
  }

  function HexValue(c: char): (d: Option<nat>)
    ensures d.Some? ==> d.value < 16
  {
    if '0' <= c <= '9' then Some((c - '0') as nat)
    else if 'A' <= c <= 'F' then Some((c - 'A') as nat + 10)
    else if 'a' <= c <= 'f' then Some((c - 'a') as nat + 10)
    else None
  }

  function Triplet(c: char): (t: string)
    requires c as int < 256
    ensures |t| == 3
  {
    ['%', HexDigit(c as nat / 16), HexDigit(c as nat % 16)]
  }

  /** The byte that a triplet at the start of `s` stands for. */
  function Decoded(s: string): Option<char> {
    if |s| < 3 || s[0] != '%' then None
    else
      match (HexValue(s[1]), HexValue(s[2]))
      case (Some(hi), Some(lo)) => Some((16 * hi + lo) as char)
      case _ => None
  }

  lemma TripletDecodes(c: char, rest: string)
    requires c as int < 256
    ensures Decoded(Triplet(c) + rest) == Some(c)
  {
    HexReadsBack(c as nat / 16);
    HexReadsBack(c as nat % 16);
    var s := Triplet(c) + rest;
    assert s[0] == '%' && s[1] == HexDigit(c as nat / 16) && s[2] == HexDigit(c as nat % 16);
  }

  lemma HexReadsBack(d: nat)
    requires d < 16
    ensures HexValue(HexDigit(d)) == Some(d)
  {
  }

  /** One escaped byte; `keep` leaves reserved characters alone. */
  function EscapeByte(keep: bool, c: char): (e: string)
    requires c as int < 256
    ensures e != ""
  {
    if Unreserved(c) || (keep && Reserved(c)) then [c]
    else if c == ' ' then "+"
    else Triplet(c)
  }

  function Escape(keep: bool, s: string): string
    requires Bytes(s)
  {
    if s == "" then "" else EscapeByte(keep, s[0]) + Escape(keep, s[1..])
  }

  /** url.QueryEscape. */
  function QueryEscape(s: string): string
    requires Bytes(s)
  {
    Escape(false, s)
  }

  /** url.QueryUnescape. */
  function QueryUnescape(s: string): Option<string> {
    if s == "" then Some("")
    else if s[0] == '%' then
      match Decoded(s)
      case None => None
      case Some(c) =>
        match QueryUnescape(s[3..])
        case Some(rest) => Some([c] + rest)
        case None => None
    else
      match QueryUnescape(s[1..])
      case Some(rest) => Some([if s[0] == '+' then ' ' else s[0]] + rest)
      case None => None
  }

  lemma UnescapeStep(keep: bool, c: char, rest: string)
    requires c as int < 256
    ensures QueryUnescape(EscapeByte(keep, c) + rest)
         == match QueryUnescape(rest)
            case Some(text) => Some([c] + text)
            case None => None
  {
    var e := EscapeByte(keep, c);
    var s := e + rest;
    assert s[|e|..] == rest;
    if e == Triplet(c) && !Unreserved(c) {
      TripletDecodes(c, rest);
    }
  }

  /** Unescaping undoes escaping, whether or not reserved characters are kept. */
  lemma {:induction false} UnescapeEscape(keep: bool, s: string)
    requires Bytes(s)
    ensures QueryUnescape(Escape(keep, s)) == Some(s)
  {
    if s == "" {
    } else {
      UnescapeEscape(keep, s[1..]);
      UnescapeStep(keep, s[0], Escape(keep, s[1..]));
      assert [s[0]] + s[1..] == s;
    }
  }

  /** Letters and digits stay as they are... */
  lemma AlphanumericStays(keep: bool, k: nat)
    requires k < 26
    ensures EscapeByte(keep, CAPITALS[k]) == [CAPITALS[k]] && EscapeByte(keep, LETTERS[k]) == [LETTERS[k]]
    ensures k < 10 ==> EscapeByte(keep, DIGITS[k]) == [DIGITS[k]]
  {
    CapitalAt(k);
    LetterAt(k);
    if k < 10 {
      DigitAt(k);
    }
  }

  /** ...and four marks, a blank becomes a plus sign, fourteen reserved characters are kept where asked, and all
      other bytes become triplets. */
  lemma OtherEscapes(keep: bool, c: char)
    requires c as int < 256 && c !in CAPITALS && c !in LETTERS && c !in DIGITS
    ensures EscapeByte(keep, c) ==
      if c in "-_.~" || (keep && c in ":/?[]@!$'()*,;") then [c]
      else if c == ' ' then "+"
      else Triplet(c)
  {
    var n := c as int;
    if 65 <= n < 91 {
      CapitalAt(n - 65);
    } else if 97 <= n < 123 {
      LetterAt(n - 97);
    } else if 48 <= n < 58 {
      DigitAt(n - 48);
    }
    InMarks(c);
    InReserved(c);
  }

  lemma InMarks(c: char)
    ensures c in "-_.~" <==> c == '-' || c == '_' || c == '.' || c == '~'
  {
    assert "-_.~"[0] == '-' && "-_.~"[1] == '_' && "-_.~"[2] == '.' && "-_.~"[3] == '~';
  }

  lemma InReserved(c: char)
    ensures c in ":/?[]@!$'()*,;" <==> Reserved(c)
  {
    var all := ":/?[]@!$'()*,;";
    assert all[0] == ':' && all[1] == '/' && all[2] == '?' && all[3] == '[' && all[4] == ']' && all[5] == '@';
    assert all[6] == '!' && all[7] == '$' && all[8] == '\'' && all[9] == '(' && all[10] == ')' && all[11] == '*';
    assert all[12] == ',' && all[13] == ';';
  }

  /** The triplets that the replacer knows. */
  lemma ReservedTriplets()
    ensures Triplet(':') == "%3A" && Triplet('/') == "%2F" && Triplet('?') == "%3F" && Triplet('[') == "%5B"
    ensures Triplet(']') == "%5D" && Triplet('@') == "%40" && Triplet('!') == "%21" && Triplet('$') == "%24"
    ensures Triplet('\'') == "%27" && Triplet('(') == "%28" && Triplet(')') == "%29" && Triplet('*') == "%2A"
    ensures Triplet(',') == "%2C" && Triplet(';') == "%3B"
  {
  }

  lemma {:induction false} EscapeAppend(keep: bool, a: string, b: string)
    requires Bytes(a) && Bytes(b)
    ensures Bytes(a + b) && Escape(keep, a + b) == Escape(keep, a) + Escape(keep, b)
  {
    if a == "" {
      assert a + b == b;
    } else {
      assert (a + b)[1..] == a[1..] + b;
      EscapeAppend(keep, a[1..], b);
    }
  }

  // ----- the replacer

  /** reservedQueryReplacer: scanning left to right, the triplet of a reserved character becomes it. */
  function ReplaceReserved(s: string): string {
    if s == "" then ""
    else if |s| >= 3 && Decoded(s).Some? && Reserved(Decoded(s).value)
            && Decoded(s).value as int < 256 && s[..3] == Triplet(Decoded(s).value) then
      [Decoded(s).value] + ReplaceReserved(s[3..])
    else [s[0]] + ReplaceReserved(s[1..])
  }

  lemma ReplaceStep(c: char, rest: string)
    requires c as int < 256
    ensures ReplaceReserved(EscapeByte(false, c) + rest) == EscapeByte(true, c) + ReplaceReserved(rest)
  {
    var e := EscapeByte(false, c);
    var s := e + rest;
    assert s[|e|..] == rest;
    if e == Triplet(c) && !Unreserved(c) && c != ' ' {
      TripletDecodes(c, rest);
      assert s[..3] == Triplet(c);
      if !Reserved(c) {
        ReplaceHex(c, rest);
      }
    }
  }

  /** The hex digits of a triplet that stays are copied one by one. */
  lemma ReplaceHex(c: char, rest: string)
    requires c as int < 256 && !Reserved(c)
    ensures ReplaceReserved(Triplet(c) + rest) == Triplet(c) + ReplaceReserved(rest)
  {
    TripletDecodes(c, rest);
    var t, s := Triplet(c), Triplet(c) + rest;
    assert s[..3] == t;
    assert s[1..] == t[1..] + rest && s[1..][1..] == t[2..] + rest && s[1..][1..][1..] == rest;
    assert t[1] != '%' && t[2] != '%';
    assert Decoded(s[1..]).None? && Decoded(s[1..][1..]).None?;
    assert ReplaceReserved(s[1..][1..]) == [t[2]] + ReplaceReserved(rest);
    assert ReplaceReserved(s[1..]) == [t[1]] + ReplaceReserved(s[1..][1..]);
  }

  /** Replacing after escaping is escaping that keeps reserved characters. */
  lemma {:induction false} ReplaceIsKeep(s: string)
    requires Bytes(s)
    ensures ReplaceReserved(QueryEscape(s)) == Escape(true, s)
  {
    if s == "" {
    } else {
      ReplaceStep(s[0], Escape(false, s[1..]));
      ReplaceIsKeep(s[1..]);
    }
  }

  // ----- what cannot occur in escaped text

  /** The characters that no escape produces. */
  predicate NeverEscaped(c: char) {
    c == '&' || c == '=' || c == '#' || c == ' ' || c == '|'
  }

  lemma {:induction false} AbsentFromEscape(keep: bool, s: string, c: char)
    requires Bytes(s) && (NeverEscaped(c) || ((c == ',' || c == ';') && (!keep || c !in s)))
    ensures c !in Escape(keep, s)
  {
    if s == "" {
    } else {
      assert s[0] in s && forall d :: d in s[1..] ==> d in s;
      AbsentFromByte(keep, s[0], c);
      AbsentFromEscape(keep, s[1..], c);
    }
  }

  lemma AbsentFromByte(keep: bool, b: char, c: char)
    requires b as int < 256 && (NeverEscaped(c) || ((c == ',' || c == ';') && (!keep || b != c)))
    ensures c !in EscapeByte(keep, b)
  {
    HexNotDelimiter(b as nat / 16);
    HexNotDelimiter(b as nat % 16);
  }

  lemma HexNotDelimiter(d: nat)
    requires d < 16
    ensures !NeverEscaped(HexDigit(d)) && HexDigit(d) != ',' && HexDigit(d) != ';' && HexDigit(d) != '%'
  {
  }

  /** A triplet inside escaped text is the escape of a byte of the text. */
  lemma {:induction false} TripletIsByte(keep: bool, s: string, more: string, c: char, j: nat)
    requires Bytes(s) && c as int < 256 && OccursAt(Escape(keep, s) + more, Triplet(c), j) && j < |Escape(keep, s)|
    ensures c in s && EscapeByte(keep, c) == Triplet(c)
  {
    var e, rest := EscapeByte(keep, s[0]), Escape(keep, s[1..]);
    var all := Escape(keep, s) + more;
    assert all == e + (rest + more);
    assert all[j] == '%' by {
      assert all[j..j + 3][0] == '%';
    }
    if j < |e| {
      HexNotDelimiter(s[0] as nat / 16);
      HexNotDelimiter(s[0] as nat % 16);
      assert all[j] == e[j];
      assert j == 0 && all[..3] == e;
      assert all[0..3] == all[..3];
      TripletDecodes(c, "");
      TripletDecodes(s[0], "");
      assert Triplet(c) + "" == Triplet(c) && Triplet(s[0]) + "" == Triplet(s[0]);
    } else {
      var k := j - |e|;
      assert (rest + more)[k..k + 3] == all[j..j + 3];
      TripletIsByte(keep, s[1..], more, c, k);
    }
  }
}
