/** Which parameters carry a secret (pkg/runtime/param_flags.go). */
module SensitiveParams {
  import opened Text
  import opened Decimal
  import opened DashForms
  import opened SuffixSearch
  import opened ParamFlags

  function Lower(c: char): char {
    if 'A' <= c <= 'Z' then (c as int + 32) as char else c
  }

  predicate InKey(c: char) {
    'a' <= Lower(c) <= 'z' || '0' <= c <= '9'
  }

  /** sensitiveNameKey: the letters and digits, in lower case. */
  function NameKey(s: string): string {
    if s == "" then "" else (if InKey(s[0]) then [Lower(s[0])] else "") + NameKey(s[1..])
  }

  const MARKERS := ["password", "secret", "credential", "apikey", "privatekey", "accesstoken", "refreshtoken",
                    "bearertoken", "authtoken"]

  predicate HasMarker(key: string) {
    exists i :: 0 <= i < |MARKERS| && Contains(key, MARKERS[i])
  }

  function LowerAll(s: string): string {
    seq(|s|, i requires 0 <= i < |s| => Lower(s[i]))
  }

  /** isSensitiveStringParam. */
  predicate IsSensitive(p: ParamSpec) {
    && p.goType == "string"
    && (|| LowerAll(p.format) == "password"
        || HasMarker(NameKey(p.name + " " + p.flag))
        || NameKey(p.name) == "token" || NameKey(p.flag) == "token")
  }

  // ----- dashes do not count

  lemma {:induction false} KeyJoins(a: string, b: string)
    ensures NameKey(a + b) == NameKey(a) + NameKey(b)
  {
    if a == "" {
      assert a + b == b;
    } else {
      var first := if InKey(a[0]) then [Lower(a[0])] else "";
      assert (a + b)[1..] == a[1..] + b && (a + b)[0] == a[0];
      KeyJoins(a[1..], b);
      assert first + (NameKey(a[1..]) + NameKey(b)) == first + NameKey(a[1..]) + NameKey(b);
    }
  }

  lemma KeyOfChar(c: char)
    ensures NameKey([c]) == if InKey(c) then [Lower(c)] else ""
  {
    assert [c][1..] == "" && NameKey("") == "";
  }

  /** Of one character, a capital counts as its letter, letters and digits as themselves... */
  lemma KeyOfLetter(k: nat)
    requires k < 26
    ensures NameKey([CAPITALS[k]]) == NameKey([LETTERS[k]]) == [LETTERS[k]]
    ensures k < 10 ==> NameKey([DIGITS[k]]) == [DIGITS[k]]
  {
    CapitalAt(k);
    LetterAt(k);
    KeyOfChar(CAPITALS[k]);
    KeyOfChar(LETTERS[k]);
    if k < 10 {
      DigitAt(k);
      KeyOfChar(DIGITS[k]);
    }
  }

  /** ...and all else not; of texts joined, the keys are joined (KeyJoins). */
  lemma KeyOfOther(c: char)
    requires c !in CAPITALS && c !in LETTERS && c !in DIGITS
    ensures NameKey([c]) == ""
  {
    KeyOfChar(c);
    var n := c as int;
    if 65 <= n < 91 {
      CapitalAt(n - 65);
    } else if 97 <= n < 123 {
      LetterAt(n - 97);
    } else if 48 <= n < 58 {
      DigitAt(n - 48);
    }
  }

  /** One of the nine words that mark a secret. */
  predicate MarksSecret(key: string) {
    || Contains(key, "password") || Contains(key, "secret") || Contains(key, "credential") || Contains(key, "apikey")
    || Contains(key, "privatekey") || Contains(key, "accesstoken") || Contains(key, "refreshtoken")
    || Contains(key, "bearertoken") || Contains(key, "authtoken")
  }

  predicate SaysPassword(format: string) {
    |format| == 8 && forall i :: 0 <= i < 8 ==> format[i] == "password"[i] || format[i] == "PASSWORD"[i]
  }

  lemma PasswordFormat(format: string)
    ensures LowerAll(format) == "password" <==> SaysPassword(format)
  {
    if |format| == 8 {
      forall i | 0 <= i < 8
        ensures Lower(format[i]) == "password"[i] <==> format[i] == "password"[i] || format[i] == "PASSWORD"[i]
      {
        assert "PASSWORD"[i] as int + 32 == "password"[i] as int;
      }
      assert LowerAll(format) == "password" <==> forall i :: 0 <= i < 8 ==> Lower(format[i]) == "password"[i];
    }
  }

  /** A string is sensitive by its format, by a word that its name and flag make together, or when one of them is
      just a token. */
  lemma SensitiveMeans(p: ParamSpec)
    ensures IsSensitive(p) <==>
      p.goType == "string" && (
        || SaysPassword(p.format)
        || MarksSecret(NameKey(p.name) + NameKey(p.flag))
        || NameKey(p.name) == "token"
        || NameKey(p.flag) == "token")
  {
    PasswordFormat(p.format);
    KeyJoins(p.name + " ", p.flag);
    KeyJoins(p.name, " ");
    assert NameKey(" ") == "";
    var key := NameKey(p.name) + NameKey(p.flag);
    assert NameKey(p.name + " " + p.flag) == key;
    MarkersAre(key);
  }

  lemma MarkersAre(key: string)
    ensures HasMarker(key) <==> MarksSecret(key)
  {
    assert MARKERS[0] == "password" && MARKERS[1] == "secret" && MARKERS[2] == "credential" && MARKERS[3] == "apikey";
    assert MARKERS[4] == "privatekey" && MARKERS[5] == "accesstoken" && MARKERS[6] == "refreshtoken";
    assert MARKERS[7] == "bearertoken" && MARKERS[8] == "authtoken";
  }

  lemma {:induction false} KeyOfDashed(s: string, t: string)
    requires |s| == |t| && forall i :: 0 <= i < |s| ==> t[i] == if s[i] == '_' then '-' else s[i]
    ensures NameKey(t) == NameKey(s)
  {
    if s == "" {
    } else {
      KeyOfDashed(s[1..], t[1..]);
    }
  }

  lemma {:induction false} KeyOfCollapsed(s: string, prev: bool)
    ensures NameKey(Collapsed(s, prev)) == NameKey(s)
  {
    if s == "" {
    } else {
      KeyOfCollapsed(s[1..], s[0] == '-');
      var rest := Collapsed(s[1..], s[0] == '-');
      assert ([s[0]] + rest)[1..] == rest;
    }
  }

  lemma {:induction false} KeyOfDashes(s: string)
    requires forall i :: 0 <= i < |s| ==> s[i] == '-'
    ensures NameKey(s) == ""
  {
    if s == "" {
    } else {
      KeyOfDashes(s[1..]);
    }
  }

  lemma KeyOfTrimmed(s: string)
    ensures NameKey(Trim(s, IsDash)) == NameKey(s)
  {
    var from := LeftEdge(s, IsDash, 0);
    var until := RightEdge(s, IsDash, from, |s|);
    LeftEdgeCuts(s, IsDash, 0);
    RightEdgeCuts(s, IsDash, from, |s|);
    KeyOfDashes(s[..from]);
    KeyOfDashes(s[until..]);
    KeyJoins(s[..from], s[from..until]);
    KeyJoins(s[..from] + s[from..until], s[until..]);
    assert s == s[..from] + s[from..until] + s[until..];
  }

  /** A flag and its dash form have the same key. */
  lemma KeyOfForm(flag: string)
    ensures NameKey(DashForm(flag)) == NameKey(flag)
  {
    KeyOfDashed(flag, Dashed(flag));
    KeyOfCollapsed(Dashed(flag), false);
    KeyOfTrimmed(Collapsed(Dashed(flag), false));
  }

  /** What the dash pass makes of a parameter that it renames. */
  function Reformed(p: ParamSpec): ParamSpec {
    p.(aliases := [p.flag], flag := DashForm(p.flag))
  }

  /** Renaming a flag to its dash form keeps what is secret. */
  ghost predicate IgnoresDashes(sensitive: ParamSpec -> bool) {
    forall p :: sensitive(Reformed(p)) == sensitive(p)
  }

  lemma SensitivityIgnoresDashes()
    ensures IgnoresDashes(IsSensitive)
  {
    forall p ensures IsSensitive(Reformed(p)) == IsSensitive(p) {
      KeyOfForm(p.flag);
      KeyJoins(p.name + " ", p.flag);
      KeyJoins(p.name + " ", DashForm(p.flag));
    }
  }

  // ----- a prefix and a number add no marker

  predicate Lettered(marker: string) {
    |marker| >= 2 && forall i :: 0 <= i < |marker| ==> !('0' <= marker[i] <= '9')
  }

  /** The marker overlaps the middle nowhere, whatever stands around it. */
  predicate Avoids(marker: string, middle: string) {
    && Lettered(marker) && |middle| >= 2
    && (forall j :: 1 <= j < |marker| && marker[j] == middle[0] ==> NextIsNot(marker, j, middle[1]))
    && (forall t :: 0 <= t < |middle| && middle[t] == marker[0] ==> NextIsNot(middle, t, marker[1]))
  }

  predicate NextIsNot(s: string, i: nat, c: char) {
    i + 1 < |s| && s[i + 1] != c
  }

  lemma CharOf(whole: string, sub: string, at: nat, k: nat)
    requires OccursAt(whole, sub, at) && at <= k
    ensures k < at + |sub| ==> sub[k - at] == whole[k]
  {
    if k < at + |sub| {
      assert whole[at..at + |sub|][k - at] == whole[k];
    }
  }

  /** An occurrence of the marker lies before the middle or behind it. */
  lemma NotAcross(marker: string, middle: string, whole: string, at: nat, i: nat)
    requires Avoids(marker, middle) && OccursAt(whole, middle, at) && OccursAt(whole, marker, i)
    ensures i + |marker| <= at || at + |middle| <= i
  {
    if i < at < i + |marker| {
      CharOf(whole, middle, at, at + 1);
      CharOf(whole, marker, i, at + 1);
      CharOf(whole, middle, at, at);
      CharOf(whole, marker, i, at);
    } else if at <= i < at + |middle| {
      CharOf(whole, marker, i, i + 1);
      CharOf(whole, middle, at, i + 1);
      CharOf(whole, marker, i, i);
      CharOf(whole, middle, at, i);
    }
  }

  /** A marker has no digits, so it ends before them. */
  lemma NotInDigits(marker: string, front: string, digits: string, i: nat)
    requires Lettered(marker) && IsDigits(digits) && OccursAt(front + digits, marker, i)
    ensures i + |marker| <= |front|
  {
    var whole := front + digits;
    CharOf(whole, marker, i, i + |marker| - 1);
  }

  lemma MarkerAround(marker: string, a: string, middle: string, b: string, digits: string)
    requires Avoids(marker, middle) && IsDigits(digits) && Contains(a + middle + b + digits, marker)
    ensures Contains(a + b, marker)
  {
    var whole, i := a + middle + b + digits, Index(a + middle + b + digits, marker);
    NotInDigits(marker, a + middle + b, digits, i);
    assert whole[|a|..|a| + |middle|] == middle;
    NotAcross(marker, middle, whole, |a|, i);
    if i + |marker| <= |a| {
      InFront(a, middle + b + digits, b, i, |marker|);
      assert a + (middle + b + digits) == whole;
      assert OccursAt(a + b, marker, i);
    } else {
      Behind(a, middle, b, digits, i, |marker|);
      assert OccursAt(a + b, marker, i - |middle|);
    }
  }

  lemma InFront(a: string, b: string, c: string, i: nat, n: nat)
    requires i + n <= |a|
    ensures (a + b)[i..i + n] == (a + c)[i..i + n]
  {
  }

  lemma Behind(a: string, middle: string, b: string, rest: string, i: nat, n: nat)
    requires |a + middle| <= i && i + n <= |a + middle + b|
    ensures (a + middle + b + rest)[i..i + n] == (a + b)[i - |middle|..i - |middle| + n]
  {
  }

  predicate AllAvoid(middle: string) {
    forall i :: 0 <= i < |MARKERS| ==> Avoids(MARKERS[i], middle)
  }

  /** In front of a key it makes neither a marker nor the key `token`. */
  predicate Harmless(middle: string) {
    |middle| >= 2 && middle[0] != 't' && AllAvoid(middle)
  }

  lemma HasMarkerAround(a: string, middle: string, b: string, digits: string)
    requires AllAvoid(middle) && IsDigits(digits) && HasMarker(a + middle + b + digits)
    ensures HasMarker(a + b)
  {
    var i :| 0 <= i < |MARKERS| && Contains(a + middle + b + digits, MARKERS[i]);
    MarkerAround(MARKERS[i], a, middle, b, digits);
  }

  lemma {:induction false} KeyOfDigits(s: string)
    requires IsDigits(s)
    ensures NameKey(s) == s
  {
    if s == "" {
    } else {
      KeyOfDigits(s[1..]);
      assert s == [s[0]] + s[1..];
    }
  }

  /** What a suffix pass may make of a flag. */
  predicate MayBecome(flag: string, prefix: string, n: nat, after: string) {
    after == flag || after == Candidate(prefix + flag, n)
  }

  lemma KeyOfCandidate(flag: string, prefix: string, n: nat) returns (digits: string)
    ensures IsDigits(digits) && NameKey(Candidate(prefix + flag, n)) == NameKey(prefix) + NameKey(flag) + digits
  {
    KeyJoins(prefix, flag);
    if n <= 1 {
      digits := "";
    } else {
      digits := Itoa(n);
      KeyOfSuffixed(prefix + flag, "-", digits);
    }
  }

  lemma KeyOfSuffixed(base: string, dash: string, digits: string)
    requires dash == "-" && IsDigits(digits)
    ensures NameKey(base + dash + digits) == NameKey(base) + digits
  {
    KeyJoins(base, dash);
    KeyJoins(base + dash, digits);
    KeyOfDigits(digits);
    KeyOfDashes(dash);
    assert NameKey(base) + "" == NameKey(base);
  }

  lemma KeyStaysHarmless(name: string, flag: string, prefix: string, n: nat)
    requires Harmless(NameKey(prefix))
    ensures var after := Candidate(prefix + flag, n);
            && (HasMarker(NameKey(name + after)) ==> HasMarker(NameKey(name + flag)))
            && NameKey(after) != "token"
  {
    var after := Candidate(prefix + flag, n);
    var digits := KeyOfCandidate(flag, prefix, n);
    var a, middle, b := NameKey(name), NameKey(prefix), NameKey(flag);
    KeyJoins(name, flag);
    KeyJoins(name, after);
    assert a + (middle + b + digits) == a + middle + b + digits;
    if HasMarker(a + middle + b + digits) {
      HasMarkerAround(a, middle, b, digits);
    }
    assert NameKey(after)[0] == middle[0];
  }

  /** Such a prefix makes no parameter sensitive. */
  lemma StaysHarmless(p: ParamSpec, prefix: string, n: nat, after: string)
    requires Harmless(NameKey(prefix)) && !IsSensitive(p) && MayBecome(p.flag, prefix, n, after)
    ensures !IsSensitive(p.(flag := after))
  {
    KeyStaysHarmless(p.name + " ", p.flag, prefix, n);
  }

  predicate PrefixWord(word: string) {
    word == "cookie" || word == "body"
  }

  /** The prefixes of the cookie and the multipart pass. */
  lemma PassPrefix(word: string, prefix: string, dash: string)
    requires PrefixWord(word) && dash == "-" && prefix == word + dash
    ensures Harmless(NameKey(prefix))
  {
    KeyJoins(word, dash);
    KeyOfLetters(word);
    KeyOfDashes(dash);
    assert word + "" == word;
    PrefixAvoids(word);
  }

  lemma {:induction false} KeyOfLetters(s: string)
    requires forall i :: 0 <= i < |s| ==> 'a' <= s[i] <= 'z'
    ensures NameKey(s) == s
  {
    if s == "" {
    } else {
      KeyOfLetters(s[1..]);
      assert s == [s[0]] + s[1..];
    }
  }

  lemma PrefixAvoids(word: string)
    requires PrefixWord(word)
    ensures Harmless(word)
  {
    forall i | 0 <= i < |MARKERS| ensures Avoids(MARKERS[i], word) {
      MarkerLetters(i, MARKERS[i]);
      MarkerAvoids(MARKERS[i], word);
    }
  }

  lemma MarkerAvoids(m: string, word: string)
    requires NoPrefixInside(m) && PrefixWord(word)
    ensures Avoids(m, word)
  {
    assert word[0] in {'b', 'c'} && word[1] == 'o';
  }

  /** Neither `co` nor `b` is in a marker except for a first letter, and no marker starts like the end of
      cookie or body. */
  predicate NoPrefixInside(m: string) {
    && Lettered(m) && m[0] in {'p', 's', 'c', 'a', 'r', 'b'} && m[1] != 'o'
    && forall j :: 1 <= j < |m| ==> m[j] != 'b' && (m[j] == 'c' ==> NextIsNot(m, j, 'o'))
  }

  lemma MarkerLetters(i: nat, m: string)
    requires i < |MARKERS| && m == MARKERS[i]
    ensures NoPrefixInside(m)
  {
    if i < 3 {
      FirstMarkers(m);
    } else if i < 6 {
      MiddleMarkers(m);
    } else {
      LastMarkers(m);
    }
  }

  lemma FirstMarkers(m: string)
    requires m in ["password", "secret", "credential"]
    ensures NoPrefixInside(m)
  {
  }

  lemma MiddleMarkers(m: string)
    requires m in ["apikey", "privatekey", "accesstoken"]
    ensures NoPrefixInside(m)
  {
  }

  lemma LastMarkers(m: string)
    requires m in ["refreshtoken", "bearertoken", "authtoken"]
    ensures NoPrefixInside(m)
  {
  }
}
