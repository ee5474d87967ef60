/** Currency columns (pkg/runtime/column_format.go). */
module Currency {
  import opened Wrappers
  import opened Text
  import opened Decimal

  datatype ColumnFormat = ColumnFormat(kind: string, currency: string, sourceScale: int, minFractionDigits: int,
                                       maxFractionDigits: int, grouping: bool)

  predicate ValidColumnFormat(f: ColumnFormat) {
    && |f.currency| == 3 && (forall i :: 0 <= i < 3 ==> 'A' <= f.currency[i] <= 'Z')
    && 0 <= f.sourceScale <= 18
    && 0 <= f.minFractionDigits <= 18
    && f.minFractionDigits <= f.maxFractionDigits <= 18
    && f.sourceScale <= f.maxFractionDigits
  }

  /** A currency format: three capital letters, and at most 18 digits after the point, no fewer than the scale of
      the source and the least number asked for. */
  predicate CurrencyDeclared(f: ColumnFormat) {
    && f.kind == "currency"
    && |f.currency| == 3 && (forall i :: 0 <= i < |f.currency| ==> f.currency[i] in CAPITALS)
    && f.sourceScale > -1 && f.minFractionDigits > -1
    && f.maxFractionDigits >= f.sourceScale && f.maxFractionDigits >= f.minFractionDigits && f.maxFractionDigits < 19
  }

  lemma CurrencyDeclaredIff(f: ColumnFormat)
    ensures IsCurrency(f) <==> CurrencyDeclared(f)
  {
    forall c: char ensures 'A' <= c <= 'Z' <==> c in CAPITALS {
      CapitalLetter(c);
    }
  }

  lemma CapitalLetter(c: char)
    ensures 'A' <= c <= 'Z' <==> c in CAPITALS
  {
    if 'A' <= c <= 'Z' {
      CapitalAt(c as int - 65);
    } else if c in CAPITALS {
      var k :| 0 <= k < 26 && CAPITALS[k] == c;
      CapitalAt(k);
    }
  }

  predicate IsCurrency(f: ColumnFormat) {
    f.kind == "currency" && ValidColumnFormat(f)
  }

  function Zeros(n: nat): (zeros: string)
    ensures |zeros| == n && IsDigits(zeros)
  {
    seq(n, _ => '0')
  }

  /** The digits before and after the decimal point. */
  datatype ScaledParts = ScaledParts(integer: string, fraction: string)

  function ScaleDigits(digits: string, scale: nat): ScaledParts {
    if scale == 0 then ScaledParts(digits, "")
    else if |digits| <= scale then ScaledParts("0", Zeros(scale - |digits|) + digits)
    else ScaledParts(digits[..|digits| - scale], digits[|digits| - scale..])
  }

  function TrimZeros(fraction: string, least: nat): (trimmed: string)
    ensures trimmed <= fraction
    decreases |fraction|
  {
    if |fraction| > least && fraction[|fraction| - 1] == '0' then TrimZeros(fraction[..|fraction| - 1], least)
    else fraction
  }

  function PadZeros(fraction: string, least: nat): string {
    if |fraction| < least then fraction + Zeros(least - |fraction|) else fraction
  }

  function Fraction(fraction: string, least: nat): string {
    PadZeros(TrimZeros(fraction, least), least)
  }

  /** A comma before every third digit from the right. */
  function Grouped(s: string): string
    decreases |s|
  {
    if |s| <= 3 then s else Grouped(s[..|s| - 3]) + "," + s[|s| - 3..]
  }

  function Prefix(f: ColumnFormat): string {
    if f.currency == "USD" then "$" else f.currency + " "
  }

  /** What is printed: a sign, the integer digits and the fraction digits. */
  datatype Amount = Amount(negative: bool, integer: string, fraction: string)

  function AmountOf(n: int, f: ColumnFormat): Amount
    requires IsCurrency(f)
  {
    var parts := ScaleDigits(Itoa(if n < 0 then -n else n), f.sourceScale);
    Amount(n < 0, parts.integer, Fraction(parts.fraction, f.minFractionDigits))
  }

  function Render(a: Amount, f: ColumnFormat): string {
    (if a.negative then "-" else "") + Prefix(f) + (if f.grouping then Grouped(a.integer) else a.integer)
    + (if a.fraction == "" then "" else "." + a.fraction)
  }

  // ----- the loops

  method GroupInteger(value: string) returns (result: string)
    ensures result == Grouped(value)
  {
    if |value| <= 3 {
      return value;
    }
    var first := |value| % 3;
    if first == 0 {
      first := 3;
    }
    result := value[..first];
    var index := first;
    while index < |value|
      invariant 0 < index <= |value| && index % 3 == |value| % 3
      invariant result == Grouped(value[..index])
    {
      var next := value[..index + 3];
      assert next[..|next| - 3] == value[..index] && next[|next| - 3..] == value[index..index + 3];
      result := result + "," + value[index..index + 3];
      index := index + 3;
    }
    assert value[..|value|] == value;
  }

  method TrimAndPad(digits: string, least: nat) returns (fraction: string)
    ensures fraction == Fraction(digits, least)
  {
    fraction := digits;
    while |fraction| > least && fraction[|fraction| - 1] == '0'
      invariant TrimZeros(fraction, least) == TrimZeros(digits, least)
    {
      fraction := fraction[..|fraction| - 1];
    }
    ghost var trimmed := fraction;
    while |fraction| < least
      invariant trimmed <= fraction && |fraction| <= if |trimmed| < least then least else |trimmed|
      invariant forall i :: |trimmed| <= i < |fraction| ==> fraction[i] == '0'
    {
      fraction := fraction + "0";
    }
    assert fraction == PadZeros(trimmed, least);
  }

  predicate IsZero(c: char) {
    c == '0'
  }

  /** formatColumnValue on a value already read as an integer; `None` is any other value. */
  method FormatColumnValue(value: Option<int>, format: ColumnFormat) returns (text: Option<string>)
    ensures text
         == if IsCurrency(format) && value.Some? then Some(Render(AmountOf(value.value, format), format)) else None
    ensures text.Some? <==> CurrencyDeclared(format) && value.Some?
  {
    CurrencyDeclaredIff(format);
    if format.kind != "currency" || !ValidColumnFormat(format) || value.None? {
      return None;
    }
    var negative, digits := value.value < 0, Itoa(if value.value < 0 then -value.value else value.value);
    if Trim(digits, IsZero) == "" {
      negative := false;
    }
    SignStays(value.value);
    var parts := ScaleDigits(digits, format.sourceScale);
    var integer := parts.integer;
    var fraction := TrimAndPad(parts.fraction, format.minFractionDigits);
    if format.grouping {
      integer := GroupInteger(integer);
    }
    var prefix := format.currency + " ";
    if format.currency == "USD" {
      prefix := "$";
    }
    var result := "";
    if negative {
      result := "-";
    }
    result := result + prefix + integer;
    ghost var head := result;
    if fraction != "" {
      result := result + ("." + fraction);
    }
    assert result == head + (if fraction == "" then "" else "." + fraction);
    text := Some(result);
  }

  /** A negative integer has a digit that is not zero. */
  lemma SignStays(n: int)
    ensures n < 0 ==> Trim(Itoa(-n), IsZero) != ""
  {
    if n < 0 {
      var digits := Itoa(-n);
      ValueItoa(-n);
      LeadingDigitStays(digits, |digits|);
    }
  }

  lemma {:induction false} LeadingDigitStays(s: string, until: nat)
    requires 0 < until <= |s| && !IsZero(s[0])
    ensures RightEdge(s, IsZero, 0, until) > 0
    decreases until
  {
    if until == 1 {
    } else {
      LeadingDigitStays(s, until - 1);
    }
  }
}
