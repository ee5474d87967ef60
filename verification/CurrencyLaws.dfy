/** The printed amount is exact, regular and can be read back. */
module CurrencyLaws {
  import opened Text
  import opened Decimal
  import opened Currency

  // ----- digits and zeros

  lemma {:induction false} ValueZeros(k: nat)
    ensures Value(Zeros(k)) == 0
  {
    if k == 0 {
    } else {
      ValueZeros(k - 1);
      assert Zeros(k)[..k - 1] == Zeros(k - 1);
    }
  }

  lemma ZerosBehind(s: string, k: nat)
    requires IsDigits(s)
    ensures IsDigits(s + Zeros(k)) && Value(s + Zeros(k)) == Value(s) * Pow10(k)
  {
    ValueConcat(s, Zeros(k));
    ValueZeros(k);
  }

  lemma ZerosBefore(k: nat, s: string)
    requires IsDigits(s)
    ensures IsDigits(Zeros(k) + s) && Value(Zeros(k) + s) == Value(s)
  {
    ValueConcat(Zeros(k), s);
    ValueZeros(k);
  }

  lemma {:induction false} TrimmedZeros(fraction: string, least: nat)
    ensures var t := TrimZeros(fraction, least);
            && fraction == t + Zeros(|fraction| - |t|)
            && (|t| > least ==> t[|t| - 1] != '0')
            && (|fraction| >= least ==> |t| >= least) && (|fraction| <= least ==> t == fraction)
    decreases |fraction|
  {
    var t := TrimZeros(fraction, least);
    if |fraction| > least && fraction[|fraction| - 1] == '0' {
      var shorter := fraction[..|fraction| - 1];
      TrimmedZeros(shorter, least);
      assert fraction == shorter + "0";
      assert t + Zeros(|shorter| - |t|) + "0" == t + Zeros(|fraction| - |t|);
    } else {
      assert fraction == t + Zeros(0);
    }
  }

  // ----- the amount is exact

  lemma ScaledDigits(digits: string, scale: nat)
    requires IsDigits(digits) && digits != ""
    ensures var parts := ScaleDigits(digits, scale);
            && IsDigits(parts.integer) && IsDigits(parts.fraction) && parts.integer != ""
            && |parts.fraction| == scale
            && IsDigits(parts.integer + parts.fraction) && Value(parts.integer + parts.fraction) == Value(digits)
  {
    var parts := ScaleDigits(digits, scale);
    if scale == 0 {
      assert digits + "" == digits;
    } else if |digits| <= scale {
      var k := scale - |digits|;
      ZerosBefore(k, digits);
      ZerosBefore(1, Zeros(k) + digits);
      assert Zeros(1) == "0";
    } else {
      assert parts.integer + parts.fraction == digits;
    }
  }

  /** Trimming and padding change the number of digits, not the number. */
  lemma FractionExact(integer: string, fraction: string, least: nat)
    requires IsDigits(integer) && IsDigits(fraction)
    ensures var f := Fraction(fraction, least);
            && IsDigits(f) && IsDigits(integer + f) && IsDigits(integer + fraction)
            && Value(integer + f) * Pow10(|fraction|) == Value(integer + fraction) * Pow10(|f|)
  {
    var t, f := TrimZeros(fraction, least), Fraction(fraction, least);
    TrimmedZeros(fraction, least);
    if |fraction| <= least {
      var k := least - |fraction|;
      assert f == fraction + Zeros(k);
      LongerFraction(integer, fraction, k);
    } else {
      var k := |fraction| - |t|;
      assert f == t && IsDigits(t);
      LongerFraction(integer, t, k);
    }
  }

  lemma LongerFraction(integer: string, fraction: string, k: nat)
    requires IsDigits(integer) && IsDigits(fraction)
    ensures var f := fraction + Zeros(k);
            && IsDigits(integer + fraction) && IsDigits(integer + f)
            && Value(integer + f) * Pow10(|fraction|) == Value(integer + fraction) * Pow10(|f|)
  {
    var f := fraction + Zeros(k);
    assert integer + f == integer + fraction + Zeros(k);
    ZerosBehind(integer + fraction, k);
    Pow10Add(|fraction|, k);
    Shuffle(Value(integer + fraction), Pow10(k), Pow10(|fraction|));
  }

  lemma Shuffle(a: int, b: int, c: int)
    ensures a * b * c == a * (c * b)
  {
  }

  function Abs(n: int): nat {
    if n < 0 then -n else n
  }

  /** The digits printed denote the value divided by ten to the source scale: cross-multiplied. */
  lemma AmountExact(n: int, f: ColumnFormat)
    requires IsCurrency(f)
    ensures var a := AmountOf(n, f);
            && IsDigits(a.integer) && IsDigits(a.fraction) && IsDigits(a.integer + a.fraction)
            && Value(a.integer + a.fraction) * Pow10(f.sourceScale) == Abs(n) * Pow10(|a.fraction|)
            && a.negative == (n < 0)
  {
    var digits := Itoa(Abs(n));
    var parts := ScaleDigits(digits, f.sourceScale);
    ValueItoa(Abs(n));
    ScaledDigits(digits, f.sourceScale);
    FractionExact(parts.integer, parts.fraction, f.minFractionDigits);
  }

  lemma FractionRegular(fraction: string, least: nat, most: nat)
    requires |fraction| <= most && least <= most
    ensures var f := Fraction(fraction, least);
            least <= |f| <= most && (|f| > least ==> f[|f| - 1] != '0')
  {
    TrimmedZeros(fraction, least);
  }

  lemma NoLeadingZero(digits: string, scale: nat)
    requires digits == "0" || (digits != "" && digits[0] != '0')
    ensures var integer := ScaleDigits(digits, scale).integer;
            integer == "0" || (integer != "" && integer[0] != '0')
  {
  }

  lemma ItoaRegular(n: nat)
    ensures Itoa(n) == "0" || Itoa(n)[0] != '0'
    ensures Value(Itoa(n)) == n
  {
    ValueItoa(n);
  }

  /** As many fraction digits as asked for, no needless zero at the end or the front, no negative zero. */
  lemma AmountRegular(n: int, f: ColumnFormat)
    requires IsCurrency(f)
    ensures var a := AmountOf(n, f);
            && f.minFractionDigits <= |a.fraction| <= f.maxFractionDigits
            && (|a.fraction| > f.minFractionDigits ==> a.fraction[|a.fraction| - 1] != '0')
            && (a.integer == "0" || (a.integer != "" && a.integer[0] != '0'))
            && (a.negative ==> Value(Itoa(Abs(n))) != 0)
  {
    ItoaRegular(Abs(n));
    ScaledLength(Itoa(Abs(n)), f.sourceScale);
    NoLeadingZero(Itoa(Abs(n)), f.sourceScale);
    FractionRegular(ScaleDigits(Itoa(Abs(n)), f.sourceScale).fraction, f.minFractionDigits, f.maxFractionDigits);
  }

  lemma ScaledLength(digits: string, scale: nat)
    ensures |ScaleDigits(digits, scale).fraction| == scale
  {
  }

  // ----- grouping

  function Ungrouped(s: string): string {
    if s == "" then ""
    else Ungrouped(s[..|s| - 1]) + (if s[|s| - 1] == ',' then "" else [s[|s| - 1]])
  }

  lemma {:induction false} UngroupedAppend(a: string, b: string)
    requires ',' !in b
    ensures Ungrouped(a + b) == Ungrouped(a) + b
    decreases |b|
  {
    if b == "" {
      assert a + b == a;
    } else {
      var init := b[..|b| - 1];
      assert (a + b)[..|a + b| - 1] == a + init;
      assert b[|b| - 1] in b && forall c :: c in init ==> c in b;
      UngroupedAppend(a, init);
      assert Ungrouped(a) + init + [b[|b| - 1]] == Ungrouped(a) + b;
    }
  }

  lemma SlicesLack(s: string, k: nat, c: char)
    requires k <= |s| && c !in s
    ensures c !in s[..k] && c !in s[k..]
  {
  }

  lemma {:induction false} GroupedReadsBack(s: string)
    requires ',' !in s
    ensures Ungrouped(Grouped(s)) == s
    decreases |s|
  {
    if |s| <= 3 {
      UngroupedAppend("", s);
      assert "" + s == s;
    } else {
      var head, tail := s[..|s| - 3], s[|s| - 3..];
      SlicesLack(s, |s| - 3, ',');
      GroupedReadsBack(head);
      UngroupedGroup(Grouped(head), tail);
      assert s == head + tail;
    }
  }

  lemma UngroupedGroup(g: string, tail: string)
    requires ',' !in tail
    ensures Ungrouped(g + "," + tail) == Ungrouped(g) + tail
  {
    UngroupedComma(g);
    UngroupedAppend(g + ",", tail);
  }

  lemma UngroupedComma(a: string)
    ensures Ungrouped(a + ",") == Ungrouped(a)
  {
    var s := a + ",";
    assert s[..|s| - 1] == a && s[|s| - 1] == ',';
    assert Ungrouped(a) + "" == Ungrouped(a);
  }

  predicate CommasInPlace(g: string) {
    forall p :: 0 <= p < |g| ==> (g[p] == ',' <==> (|g| - p) % 4 == 0)
  }

  lemma CommasStep(g: string, tail: string)
    requires CommasInPlace(g) && |tail| == 3 && ',' !in tail
    ensures CommasInPlace(g + "," + tail)
  {
    var all := g + "," + tail;
    forall p | 0 <= p < |all| ensures all[p] == ',' <==> (|all| - p) % 4 == 0 {
      if p < |g| {
        assert all[p] == g[p];
        assert |all| - p == |g| - p + 4;
      } else if p > |g| {
        assert all[p] == tail[p - |g| - 1];
        assert tail[p - |g| - 1] in tail;
      }
    }
  }

  /** Commas stand exactly where a multiple of three digits is left, and nowhere else. */
  lemma {:induction false} CommaPositions(s: string)
    requires ',' !in s
    ensures CommasInPlace(Grouped(s))
    ensures s != "" ==> Grouped(s) != "" && Grouped(s)[0] == s[0]
    decreases |s|
  {
    if |s| <= 3 {
      assert forall p :: 0 <= p < |s| ==> s[p] in s;
    } else {
      var head, tail := s[..|s| - 3], s[|s| - 3..];
      SlicesLack(s, |s| - 3, ',');
      CommaPositions(head);
      CommasStep(Grouped(head), tail);
    }
  }

  // ----- reading back

  function Parse(text: string, f: ColumnFormat): Amount {
    var negative := text != "" && text[0] == '-';
    var body := TrimPrefix(if negative then text[1..] else text, Prefix(f));
    var cut := Cut(body, ".");
    Amount(negative, Ungrouped(cut.before), cut.after)
  }

  lemma DigitsHaveNoMarks(s: string)
    requires IsDigits(s)
    ensures ',' !in s && '.' !in s && '-' !in s
  {
  }

  /** What stands between the prefix and the point. */
  function Whole(integer: string, f: ColumnFormat): string {
    if f.grouping then Grouped(integer) else integer
  }

  lemma {:induction false} GroupedHasNoPoint(s: string)
    requires '.' !in s
    ensures '.' !in Grouped(s)
    decreases |s|
  {
    if |s| <= 3 {
    } else {
      var head, tail := s[..|s| - 3], s[|s| - 3..];
      SlicesLack(s, |s| - 3, '.');
      GroupedHasNoPoint(head);
      assert '.' !in ",";
    }
  }

  lemma WholeReadsBack(integer: string, f: ColumnFormat)
    requires IsDigits(integer)
    ensures Ungrouped(Whole(integer, f)) == integer && '.' !in Whole(integer, f)
  {
    DigitsHaveNoMarks(integer);
    if f.grouping {
      GroupedReadsBack(integer);
      GroupedHasNoPoint(integer);
    } else {
      UngroupedAppend("", integer);
      assert "" + integer == integer;
    }
  }

  lemma BodyReadsBack(integer: string, fraction: string, f: ColumnFormat)
    requires IsDigits(integer)
    ensures var body := Whole(integer, f) + (if fraction == "" then "" else "." + fraction);
            Ungrouped(Cut(body, ".").before) == integer && Cut(body, ".").after == fraction
  {
    WholeReadsBack(integer, f);
    var whole := Whole(integer, f);
    if fraction == "" {
      assert whole + "" == whole;
      AbsentChar(whole, '.', ".");
    } else {
      assert whole + ("." + fraction) == whole + ['.'] + fraction;
      CutChar(whole, '.', fraction);
    }
  }

  lemma ParseRender(a: Amount, f: ColumnFormat)
    requires IsCurrency(f) && IsDigits(a.integer)
    ensures Parse(Render(a, f), f) == a
  {
    BodyReadsBack(a.integer, a.fraction, f);
    ParseFront(a.negative, Body(a, f), f);
    RenderParts(a, f);
  }

  /** What stands behind the prefix. */
  function Body(a: Amount, f: ColumnFormat): string {
    Whole(a.integer, f) + (if a.fraction == "" then "" else "." + a.fraction)
  }

  lemma RenderParts(a: Amount, f: ColumnFormat)
    ensures Render(a, f) == (if a.negative then "-" else "") + Prefix(f) + Body(a, f)
  {
    var front, whole := (if a.negative then "-" else "") + Prefix(f), Whole(a.integer, f);
    var tail := if a.fraction == "" then "" else "." + a.fraction;
    Associative(front, whole, tail);
  }

  lemma Associative(a: string, b: string, c: string)
    ensures a + b + c == a + (b + c)
  {
  }

  /** Sign and prefix come off again. */
  lemma ParseFront(negative: bool, body: string, f: ColumnFormat)
    requires IsCurrency(f)
    ensures Parse((if negative then "-" else "") + Prefix(f) + body, f)
         == Amount(negative, Ungrouped(Cut(body, ".").before), Cut(body, ".").after)
  {
    FrontReadsBack(negative, Prefix(f), body);
  }

  lemma FrontReadsBack(negative: bool, prefix: string, body: string)
    requires prefix != "" && prefix[0] != '-'
    ensures var text := (if negative then "-" else "") + prefix + body;
            && text != "" && (text[0] == '-') == negative
            && TrimPrefix(if negative then text[1..] else text, prefix) == body
  {
    var text := (if negative then "-" else "") + prefix + body;
    var unsigned := if negative then text[1..] else text;
    assert unsigned == prefix + body;
    assert unsigned[..|prefix|] == prefix && unsigned[|prefix|..] == body;
    if !negative {
      assert text[0] == prefix[0];
    }
  }

  /** The number a text stands for, in units of the source scale. */
  function ReadCurrency(text: string, f: ColumnFormat): int
    requires IsCurrency(f)
  {
    var a := Parse(text, f);
    if !IsDigits(a.integer + a.fraction) then 0
    else
      var units := Value(a.integer + a.fraction) * Pow10(f.sourceScale) / Pow10(|a.fraction|);
      if a.negative then -(units as int) else units
  }

  function Printed(n: int, f: ColumnFormat): string
    requires IsCurrency(f)
  {
    Render(AmountOf(n, f), f)
  }

  lemma DivideBack(x: nat, p: nat)
    requires p > 0
    ensures x * p / p == x
  {
    var q, r := x * p / p, x * p % p;
    Factor(x, q, p);
    if x > q {
      AtLeast(x - q, p);
    } else if x < q {
      AtLeast(q - x, p);
    }
    assert x * p == q * p + r;
  }

  lemma Factor(x: int, q: int, p: int)
    ensures (x - q) * p == x * p - q * p && (q - x) * p == q * p - x * p
  {
  }

  lemma AtLeast(k: nat, p: nat)
    requires k >= 1
    ensures k * p >= p
  {
  }

  /** Every printed integer is read back exactly, so different integers print differently. */
  lemma CurrencyRoundTrip(n: int, f: ColumnFormat)
    requires IsCurrency(f)
    ensures ReadCurrency(Printed(n, f), f) == n
  {
    var a := AmountOf(n, f);
    AmountExact(n, f);
    ParseRender(a, f);
    DivideBack(Abs(n), Pow10(|a.fraction|));
  }

  lemma {:induction false} GroupedHead(s: string)
    requires s != ""
    ensures Grouped(s) != "" && Grouped(s)[0] == s[0]
    decreases |s|
  {
    if |s| <= 3 {
    } else {
      GroupedHead(s[..|s| - 3]);
    }
  }

  lemma HeadFirst(head: string, middle: string, rest: string)
    requires middle != ""
    ensures |head| < |head + middle + rest|
    ensures (head + middle + rest)[..|head|] == head && (head + middle + rest)[|head|] == middle[0]
  {
  }

  lemma RenderHead(a: Amount, f: ColumnFormat, head: string)
    requires a.integer != ""
    requires head == (if a.negative then "-" else "") + (if f.currency == "USD" then "$" else f.currency + " ")
    ensures |head| < |Render(a, f)| && Render(a, f)[..|head|] == head && Render(a, f)[|head|] == a.integer[0]
  {
    GroupedHead(a.integer);
    HeadFirst(head, if f.grouping then Grouped(a.integer) else a.integer,
              if a.fraction == "" then "" else "." + a.fraction);
  }

  /** The text starts with a sign for a negative amount, a dollar sign or the code and a blank, and a digit. */
  lemma PrintedHead(n: int, f: ColumnFormat)
    requires IsCurrency(f)
    ensures var head := (if n < 0 then "-" else "") + (if f.currency == "USD" then "$" else f.currency + " ");
            && |head| < |Printed(n, f)|
            && Printed(n, f)[..|head|] == head
            && '0' <= Printed(n, f)[|head|] <= '9'
  {
    AmountExact(n, f);
    AmountRegular(n, f);
    RenderHead(AmountOf(n, f), f,
               (if n < 0 then "-" else "") + (if f.currency == "USD" then "$" else f.currency + " "));
  }

  lemma CurrencyInjective(m: int, n: int, f: ColumnFormat)
    requires IsCurrency(f) && Printed(m, f) == Printed(n, f)
    ensures m == n
  {
    CurrencyRoundTrip(m, f);
    CurrencyRoundTrip(n, f);
  }
}
