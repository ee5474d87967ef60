/** The dash normal form of a flag (internal/codegen/normalize/names.go and params.go). */
module DashForms {
  import opened Text

  predicate IsDash(c: char) {
    c == '-'
  }

  /** strings.ReplaceAll(s, "_", "-"). */
  function Dashed(s: string): (d: string)
    ensures |d| == |s| && forall i :: 0 <= i < |s| ==> d[i] == if s[i] == '_' then '-' else s[i]
  {
    seq(|s|, i requires 0 <= i < |s| => if s[i] == '_' then '-' else s[i])
  }

  /** Drops each dash that follows a dash. */
  function Collapsed(s: string, prev: bool): (c: string)
    ensures |c| <= |s|
  {
    if s == "" then ""
    else if s[0] == '-' && prev then Collapsed(s[1..], true)
    else [s[0]] + Collapsed(s[1..], s[0] == '-')
  }

  method CollapseDashes(s: string) returns (b: string)
    ensures b == Collapsed(s, false)
  {
    b := "";
    var prev := false;
    assert s[0..] == s;
    for i := 0 to |s|
      invariant b + Collapsed(s[i..], prev) == Collapsed(s, false)
    {
      assert s[i..][0] == s[i] && s[i..][1..] == s[i + 1..];
      assert b + ([s[i]] + Collapsed(s[i + 1..], s[i] == '-')) == b + [s[i]] + Collapsed(s[i + 1..], s[i] == '-');
      if s[i] == '-' {
        if prev {
          continue;
        }
        prev := true;
      } else {
        prev := false;
      }
      b := b + [s[i]];
    }
  }

  function DashForm(flag: string): (form: string)
    ensures |form| <= |flag|
  {
    Trim(Collapsed(Dashed(flag), false), IsDash)
  }

  // ----- the form by itself

  predicate NoPairs(s: string) {
    forall i :: 0 <= i < |s| - 1 ==> !(s[i] == '-' && s[i + 1] == '-')
  }

  /** No underscore, no two dashes in a row, no dash at either end. */
  predicate Normal(s: string) {
    '_' !in s && NoPairs(s) && (s != "" ==> s[0] != '-' && s[|s| - 1] != '-')
  }

  lemma {:induction false} CollapsedNoPairs(s: string, prev: bool)
    ensures NoPairs(Collapsed(s, prev)) && (prev && Collapsed(s, prev) != "" ==> Collapsed(s, prev)[0] != '-')
    ensures '_' !in s ==> '_' !in Collapsed(s, prev)
  {
    if s == "" {
    } else {
      CollapsedNoPairs(s[1..], s[0] == '-');
      assert forall c :: c in s[1..] ==> c in s;
    }
  }

  lemma {:induction false} CollapsedSame(s: string, prev: bool)
    requires NoPairs(s) && (prev && s != "" ==> s[0] != '-')
    ensures Collapsed(s, prev) == s
  {
    if s == "" {
    } else {
      assert forall i :: 0 <= i < |s[1..]| ==> s[1..][i] == s[i + 1];
      CollapsedSame(s[1..], s[0] == '-');
      assert s == [s[0]] + s[1..];
    }
  }

  lemma TrimmedNormal(s: string)
    requires NoPairs(s) && '_' !in s
    ensures Normal(Trim(s, IsDash))
  {
    var from := LeftEdge(s, IsDash, 0);
    var until := RightEdge(s, IsDash, from, |s|);
    LeftEdgeStops(s, IsDash, 0);
    RightEdgeStops(s, IsDash, from, |s|);
    var t := s[from..until];
    assert forall i :: 0 <= i < |t| ==> t[i] == s[from + i];
  }

  lemma FormNormal(flag: string)
    ensures Normal(DashForm(flag))
  {
    var d := Dashed(flag);
    CollapsedNoPairs(d, false);
    TrimmedNormal(Collapsed(d, false));
  }

  lemma NormalFixed(s: string)
    requires Normal(s)
    ensures DashForm(s) == s
  {
    assert forall i :: 0 <= i < |s| ==> s[i] in s;
    assert Dashed(s) == s;
    CollapsedSame(s, false);
    assert s[0..|s|] == s;
  }

  /** A flag is its own form exactly when it is normal; so forming twice is forming once. */
  lemma FormIdempotent(flag: string)
    ensures DashForm(flag) == flag <==> Normal(flag)
    ensures DashForm(DashForm(flag)) == DashForm(flag)
  {
    FormNormal(flag);
    NormalFixed(DashForm(flag));
    if Normal(flag) {
      NormalFixed(flag);
    }
  }
}
