/** What the code generator's flag passes produce is what the runtime's validator accepts. */
module FlagSoundness {
  import opened DashForms
  import opened SuffixSearch
  import opened ParamFlags
  import opened SensitiveParams
  import opened FlagBindings

  predicate DistinctFlags(params: seq<ParamSpec>) {
    forall i, j :: 0 <= i < j < |params| ==> params[i].flag != params[j].flag
  }

  predicate NamedFlags(params: seq<ParamSpec>) {
    forall i :: 0 <= i < |params| ==> params[i].flag != ""
  }

  predicate NoAliases(params: seq<ParamSpec>) {
    forall i :: 0 <= i < |params| ==> params[i].aliases == []
  }

  /** The parameters that no pass may rename do not share flags. */
  predicate OthersDistinct(picked: ParamSpec -> bool, params: seq<ParamSpec>) {
    forall i, j :: 0 <= i < j < |params| && !picked(params[i]) && !picked(params[j]) ==>
      params[i].flag != params[j].flag
  }

  predicate OthersUsed(used: set<string>, picked: ParamSpec -> bool, params: seq<ParamSpec>) {
    forall i :: 0 <= i < |params| && !picked(params[i]) ==> params[i].flag in used
  }

  // ----- the suffix passes

  /** Only flags of picked parameters change, into names that were not used. */
  lemma {:induction false} ReflaggedFrame(used: set<string>, prefix: string, picked: ParamSpec -> bool,
                                          params: seq<ParamSpec>, i: nat)
    requires i < |params|
    ensures var after := Reflagged(used, prefix, picked, params)[i];
            && after == params[i].(flag := after.flag)
            && (if picked(params[i]) then after.flag !in used else after == params[i])
    decreases |params|
  {
    if i == 0 {
    } else {
      var flag := Allocate(used, prefix, params[0].flag);
      ReflaggedFrame(if picked(params[0]) then used + {flag} else used, prefix, picked, params[1..], i - 1);
    }
  }

  lemma {:induction false} ReflaggedDistinct(used: set<string>, prefix: string, picked: ParamSpec -> bool,
                                             params: seq<ParamSpec>)
    requires OthersDistinct(picked, params) && OthersUsed(used, picked, params)
    ensures DistinctFlags(Reflagged(used, prefix, picked, params))
    decreases |params|
  {
    if params == [] {
    } else {
      var rest := params[1..];
      assert forall i :: 0 <= i < |rest| ==> rest[i] == params[i + 1];
      var now := if picked(params[0]) then used + {Allocate(used, prefix, params[0].flag)} else used;
      ReflaggedDistinct(now, prefix, picked, rest);
      var after, tail := Reflagged(used, prefix, picked, params), Reflagged(now, prefix, picked, rest);
      assert after[1..] == tail;
      forall k | 0 < k < |after| ensures after[0].flag != after[k].flag {
        assert after[k] == tail[k - 1];
        ReflaggedFrame(now, prefix, picked, rest, k - 1);
      }
      assert forall k :: 0 < k < |after| ==> after[k] == tail[k - 1];
    }
  }

  lemma AllocatedName(used: set<string>, prefix: string, name: string)
    requires prefix != ""
    ensures Allocate(used, prefix, name) == "" ==> name == "" && "" !in used
  {
    if name in used {
      assert |Candidate(prefix + name, FirstFree(used, prefix + name, 1))| >= |prefix|;
    }
  }

  /** An empty flag is never repaired: the passes leave some empty flag exactly when there was one. */
  lemma {:induction false} ReflaggedNamed(used: set<string>, prefix: string, picked: ParamSpec -> bool,
                                          params: seq<ParamSpec>)
    requires prefix != ""
    ensures NamedFlags(params) ==> NamedFlags(Reflagged(used, prefix, picked, params))
    ensures "" !in used && NamedFlags(Reflagged(used, prefix, picked, params)) ==> NamedFlags(params)
    decreases |params|
  {
    if params == [] {
    } else {
      var rest := params[1..];
      var flag := Allocate(used, prefix, params[0].flag);
      AllocatedName(used, prefix, params[0].flag);
      var now := if picked(params[0]) then used + {flag} else used;
      ReflaggedNamed(now, prefix, picked, rest);
      var after := Reflagged(used, prefix, picked, params);
      NamedCons(params);
      NamedCons(after);
      assert after[1..] == Reflagged(now, prefix, picked, rest);
    }
  }

  lemma NamedCons(params: seq<ParamSpec>)
    requires params != []
    ensures NamedFlags(params) <==> params[0].flag != "" && NamedFlags(params[1..])
  {
    assert forall i :: 0 < i < |params| ==> params[i] == params[1..][i - 1];
  }

  /** The parameters before the dash pass. */
  function Renamed(params: seq<ParamSpec>, body: seq<ParamSpec>): seq<ParamSpec> {
    CookiePass(params) + BodyPass(CookiePass(params), body)
  }

  lemma CookiePassDistinct(params: seq<ParamSpec>)
    ensures DistinctFlags(CookiePass(params)) <==> OthersDistinct(IsCookie, params)
  {
    if OthersDistinct(IsCookie, params) {
      forall i | 0 <= i < |params| && !IsCookie(params[i]) ensures params[i].flag in OtherFlags(params) {
        assert params[i] in params;
      }
      ReflaggedDistinct(OtherFlags(params), "cookie-", IsCookie, params);
    } else {
      var i, j :| 0 <= i < j < |params| && !IsCookie(params[i]) && !IsCookie(params[j])
               && params[i].flag == params[j].flag;
      ReflaggedFrame(OtherFlags(params), "cookie-", IsCookie, params, i);
      ReflaggedFrame(OtherFlags(params), "cookie-", IsCookie, params, j);
    }
  }

  lemma BodyPassApart(existing: seq<ParamSpec>, body: seq<ParamSpec>)
    ensures DistinctFlags(existing + BodyPass(existing, body)) <==> DistinctFlags(existing)
  {
    var after := BodyPass(existing, body);
    ReflaggedDistinct(FlagsOf(existing), "body-", Any, body);
    forall i, j | 0 <= i < |existing| && 0 <= j < |after| ensures existing[i].flag != after[j].flag {
      ReflaggedFrame(FlagsOf(existing), "body-", Any, body, j);
      assert existing[i] in existing;
    }
    JoinDistinct(existing, after);
  }

  lemma JoinDistinct(a: seq<ParamSpec>, b: seq<ParamSpec>)
    requires DistinctFlags(b) && forall i, j :: 0 <= i < |a| && 0 <= j < |b| ==> a[i].flag != b[j].flag
    ensures DistinctFlags(a + b) <==> DistinctFlags(a)
  {
    var all := a + b;
    assert forall i :: 0 <= i < |a| ==> all[i] == a[i];
    assert forall j :: 0 <= j < |b| ==> all[|a| + j] == b[j];
    assert forall k :: |a| <= k < |all| ==> all[k] == b[k - |a|];
  }

  /** All flags are distinct after the suffix passes exactly when those of the other parameters were. */
  lemma RenamedDistinct(params: seq<ParamSpec>, body: seq<ParamSpec>)
    ensures DistinctFlags(Renamed(params, body)) <==> OthersDistinct(IsCookie, params)
  {
    CookiePassDistinct(params);
    BodyPassApart(CookiePass(params), body);
  }

  lemma EmptyFlagUsed(params: seq<ParamSpec>)
    ensures "" in FlagsOf(params) <==> !NamedFlags(params)
    ensures "" in OtherFlags(params) ==> !NamedFlags(CookiePass(params))
  {
    if "" in FlagsOf(params) {
      var p :| p in params && p.flag == "";
      var i :| 0 <= i < |params| && params[i] == p;
    }
    if !NamedFlags(params) {
      var i :| 0 <= i < |params| && params[i].flag == "";
      assert params[i] in params;
    }
    if "" in OtherFlags(params) {
      var p :| p in params && !IsCookie(p) && p.flag == "";
      var i :| 0 <= i < |params| && params[i] == p;
      ReflaggedFrame(OtherFlags(params), "cookie-", IsCookie, params, i);
      assert CookiePass(params)[i].flag == "";
    }
  }

  lemma RenamedNamed(params: seq<ParamSpec>, body: seq<ParamSpec>)
    ensures NamedFlags(Renamed(params, body)) <==> NamedFlags(params) && NamedFlags(body)
  {
    var first := CookiePass(params);
    EmptyFlagUsed(params);
    EmptyFlagUsed(first);
    ReflaggedNamed(OtherFlags(params), "cookie-", IsCookie, params);
    ReflaggedNamed(FlagsOf(first), "body-", Any, body);
    JoinNamed(first, BodyPass(first, body));
    assert "" in OtherFlags(params) ==> "" in FlagsOf(params);
  }

  lemma JoinNamed(a: seq<ParamSpec>, b: seq<ParamSpec>)
    ensures NamedFlags(a + b) <==> NamedFlags(a) && NamedFlags(b)
  {
    var all := a + b;
    assert forall i :: 0 <= i < |a| ==> all[i] == a[i];
    assert forall j :: 0 <= j < |b| ==> all[|a| + j] == b[j];
  }

  lemma RenamedPlain(params: seq<ParamSpec>, body: seq<ParamSpec>)
    requires NoAliases(params) && NoAliases(body)
    ensures NoAliases(Renamed(params, body))
  {
    var first := CookiePass(params);
    forall i | 0 <= i < |params| ensures first[i].aliases == [] {
      ReflaggedFrame(OtherFlags(params), "cookie-", IsCookie, params, i);
    }
    forall i | 0 <= i < |body| ensures BodyPass(first, body)[i].aliases == [] {
      ReflaggedFrame(FlagsOf(first), "body-", Any, body, i);
    }
  }

  // ----- the dash pass

  /** A name that parameter `i` answers to after the dash pass: its old flag, or its own unshared form. */
  predicate AnswersTo(params: seq<ParamSpec>, i: nat, name: string)
    requires i < |params|
  {
    name == params[i].flag || (name == DashForm(params[i].flag) && name != "" && !Shared(params, i))
  }

  lemma DashedNames(params: seq<ParamSpec>, i: nat, name: string)
    requires i < |params| && NoAliases(params)
    ensures NameOf(DashPass(params)[i], name) <==> AnswersTo(params, i, name)
  {
  }

  lemma DashedSecret(params: seq<ParamSpec>, i: nat, sensitive: Sensitivity)
    requires i < |params| && IgnoresDashes(sensitive)
    ensures sensitive(DashPass(params)[i]) == sensitive(params[i])
  {
    assert DashedAt(params, i) == params[i] || DashedAt(params, i) == Reformed(params[i]);
  }

  /** Idempotence of the form keeps the names of two parameters apart. */
  lemma DashedApart(params: seq<ParamSpec>, i: nat, j: nat, name: string)
    requires i < |params| && j < |params| && i != j && DistinctFlags(params)
    requires AnswersTo(params, i, name)
    ensures !AnswersTo(params, j, name)
  {
    FormIdempotent(params[i].flag);
    FormIdempotent(params[j].flag);
  }

  /** Two equal flags survive the dash pass. */
  lemma DashedShares(params: seq<ParamSpec>, i: nat, j: nat)
    requires i < j < |params| && params[i].flag == params[j].flag
    ensures DashPass(params)[i] == params[i] && DashPass(params)[j] == params[j]
  {
    assert Shared(params, i) && Shared(params, j);
  }

  // ----- one parameter's bindings

  /** What the dash pass makes of a plain parameter. */
  predicate Tidy(p: ParamSpec) {
    p.flag != "" && (p.aliases == [] || (p.aliases == [p.aliases[0]] && p.flag == DashForm(p.aliases[0]) != p.aliases[0]
                                         && p.aliases[0] != ""))
  }

  predicate NameOf(p: ParamSpec, base: string) {
    base == p.flag || base in p.aliases
  }

  /** Every binding is a name and a source. */
  lemma BindingShape(p: ParamSpec, sensitive: Sensitivity, b: Binding) returns (base: string, source: Source)
    requires b in Bindings(p, sensitive)
    ensures NameOf(p, base) && b == BindingFor(p.flag, base, source)
    ensures source != Plain ==> sensitive(p)
  {
    if b == Binding(p.flag, p.flag) {
      return p.flag, Plain;
    }
    if b in Direct(p.flag, p.aliases) {
      return b.name, Plain;
    }
    if b in Indirect(p.flag, p.flag) {
      source := IndirectShape(p.flag, p.flag, b);
      return p.flag, source;
    }
    base, source := IndirectAllShape(p.flag, p.aliases, b);
  }

  lemma IndirectShape(flag: string, name: string, b: Binding) returns (source: Source)
    requires b in Indirect(flag, name)
    ensures b == BindingFor(flag, name, source) && source != Plain
  {
    source := if b == BindingFor(flag, name, Env) then Env
              else if b == BindingFor(flag, name, File) then File
              else Stdin;
  }

  lemma {:induction false} IndirectAllShape(flag: string, names: seq<string>, b: Binding)
    returns (base: string, source: Source)
    requires b in IndirectAll(flag, names)
    ensures base in names && b == BindingFor(flag, base, source) && source != Plain
    decreases |names|
  {
    var last := names[|names| - 1];
    if b in Indirect(flag, last) {
      source := IndirectShape(flag, last, b);
      base := last;
    } else {
      base, source := IndirectAllShape(flag, names[..|names| - 1], b);
    }
  }

  /** A suffixed name determines its text and its source. */
  lemma SourceReadsBack(a: string, s: Source, b: string, t: Source)
    requires a + Suffix(s) == b + Suffix(t) && s != Plain && t != Plain
    ensures s == t && a == b
  {
    var x := a + Suffix(s);
    assert x[|x| - 1] == Suffix(s)[|Suffix(s)| - 1];
    assert x[|x| - 1] == Suffix(t)[|Suffix(t)| - 1];
    assert x[..|x| - |Suffix(s)|] == a && x[..|x| - |Suffix(t)|] == b;
  }

  lemma SuffixedIsNormal(flag: string, s: Source)
    requires Normal(flag) && flag != ""
    ensures Normal(flag + Suffix(s))
  {
    var x := flag + Suffix(s);
    assert forall i :: 0 <= i < |flag| ==> x[i] == flag[i];
    assert forall i :: 0 <= i < |Suffix(s)| ==> x[|flag| + i] == Suffix(s)[i];
  }

  /** An alias is no suffixed flag, and a flag no suffixed alias. */
  lemma AliasIsNotSuffixed(alias: string, flag: string, s: Source)
    requires flag == DashForm(alias) != alias && flag != "" && s != Plain
    ensures alias != flag + Suffix(s) && flag != alias + Suffix(s)
  {
    FormNormal(alias);
    SuffixedIsNormal(flag, s);
    if alias == flag + Suffix(s) {
      NormalFixed(alias);
    }
    assert |flag| <= |alias| < |alias + Suffix(s)|;
  }

  /** One name of a parameter never has two targets. */
  lemma OneTarget(p: ParamSpec, a: string, s: Source, b: string, t: Source)
    requires Tidy(p) && NameOf(p, a) && NameOf(p, b) && a + Suffix(s) == b + Suffix(t)
    ensures s == t
  {
    if s != Plain && t != Plain {
      SourceReadsBack(a, s, b, t);
    } else if s != t {
      var (plain, other, source) := if s == Plain then (a, b, t) else (b, a, s);
      assert plain == other + Suffix(source);
      assert |plain| > |other|;
      AliasIsNotSuffixed(p.aliases[0], p.flag, source);
    }
  }

  // ----- the theorem

  function SuffixedName(base: string, source: Source): string {
    base + Suffix(source)
  }

  /** A name of a sensitive parameter, with a source suffix, that parameter `j` answers to. */
  predicate TakesName(params: seq<ParamSpec>, i: nat, base: string, source: Source, j: nat, sensitive: Sensitivity) {
    && i < |params| && j < |params| && i != j && sensitive(params[i]) && source != Plain
    && AnswersTo(params, i, base) && AnswersTo(params, j, SuffixedName(base, source))
  }

  ghost predicate SuffixTaken(params: seq<ParamSpec>, sensitive: Sensitivity) {
    exists i: nat, base, source, j: nat :: TakesName(params, i, base, source, j, sensitive)
  }

  lemma TidyAfterPasses(params: seq<ParamSpec>, i: nat)
    requires i < |params| && NamedFlags(params) && NoAliases(params)
    ensures Tidy(DashPass(params)[i])
  {
  }

  /** Bindings of two parameters have different names. */
  lemma BindingsApart(params: seq<ParamSpec>, sensitive: Sensitivity, i: nat, b: Binding, j: nat, c: Binding)
    requires NoAliases(params) && DistinctFlags(params) && IgnoresDashes(sensitive)
    requires i < |params| && j < |params| && i != j && !SuffixTaken(params, sensitive)
    requires b in Bindings(DashPass(params)[i], sensitive) && c in Bindings(DashPass(params)[j], sensitive)
    ensures b.name != c.name
  {
    var base, source := BindingShape(DashPass(params)[i], sensitive, b);
    var other, from := BindingShape(DashPass(params)[j], sensitive, c);
    DashedNames(params, i, base);
    DashedNames(params, j, other);
    DashedSecret(params, i, sensitive);
    DashedSecret(params, j, sensitive);
    NamesApart(params, sensitive, i, base, source, j, other, from);
  }

  lemma NamesApart(params: seq<ParamSpec>, sensitive: Sensitivity,
                   i: nat, base: string, source: Source, j: nat, other: string, from: Source)
    requires i < |params| && j < |params| && i != j && DistinctFlags(params) && !SuffixTaken(params, sensitive)
    requires AnswersTo(params, i, base) && (source != Plain ==> sensitive(params[i]))
    requires AnswersTo(params, j, other) && (from != Plain ==> sensitive(params[j]))
    ensures SuffixedName(base, source) != SuffixedName(other, from)
  {
    assert base + "" == base && other + "" == other;
    assert !TakesName(params, i, base, source, j, sensitive) && !TakesName(params, j, other, from, i, sensitive);
    DashedApart(params, i, j, base);
    if source != Plain && from != Plain && SuffixedName(base, source) == SuffixedName(other, from) {
      SourceReadsBack(base, source, other, from);
    }
  }

  /** Two bindings of the passes' result are compatible. */
  lemma BindingsCompatible(params: seq<ParamSpec>, sensitive: Sensitivity, i: nat, b: Binding, j: nat, c: Binding)
    requires NamedFlags(params) && NoAliases(params) && DistinctFlags(params) && IgnoresDashes(sensitive)
    requires i < |params| && j < |params| && !SuffixTaken(params, sensitive)
    requires b in Bindings(DashPass(params)[i], sensitive) && c in Bindings(DashPass(params)[j], sensitive)
    ensures Compatible(i, b, j, c)
  {
    var p, q := DashPass(params)[i], DashPass(params)[j];
    var base, source := BindingShape(p, sensitive, b);
    var other, from := BindingShape(q, sensitive, c);
    TidyAfterPasses(params, i);
    TidyAfterPasses(params, j);
    NameIsNamed(p, base, source);
    NameIsNamed(q, other, from);
    if i != j {
      BindingsApart(params, sensitive, i, b, j, c);
    } else if b.name == c.name {
      OneTarget(p, base, source, other, from);
    }
  }

  lemma NameIsNamed(p: ParamSpec, base: string, source: Source)
    requires Tidy(p) && NameOf(p, base)
    ensures base + Suffix(source) != ""
  {
    assert |base| > 0;
    assert |base + Suffix(source)| > 0;
  }

  lemma TakenNotBindable(params: seq<ParamSpec>, i: nat, base: string, source: Source, j: nat, sensitive: Sensitivity)
    requires NoAliases(params) && IgnoresDashes(sensitive) && TakesName(params, i, base, source, j, sensitive)
    ensures !Bindable(DashPass(params), sensitive)
  {
    var final, name := DashPass(params), SuffixedName(base, source);
    DashedNames(params, i, base);
    DashedNames(params, j, name);
    DashedSecret(params, i, sensitive);
    SuffixedBinding(final[i], sensitive, base, source);
    PlainBinding(final[j], sensitive, name);
    assert !Compatible(i, BindingFor(final[i].flag, base, source), j, Binding(name, final[j].flag));
  }

  lemma PlainBinding(p: ParamSpec, sensitive: Sensitivity, name: string)
    requires NameOf(p, name)
    ensures Binding(name, p.flag) in Bindings(p, sensitive)
  {
    if name == p.flag {
      assert Bindings(p, sensitive)[0] == Binding(name, p.flag);
    } else {
      var i :| 0 <= i < |p.aliases| && p.aliases[i] == name;
      assert Bindings(p, sensitive)[i + 1] == Binding(name, p.flag);
    }
  }

  lemma SuffixedBinding(p: ParamSpec, sensitive: Sensitivity, base: string, source: Source)
    requires sensitive(p) && source != Plain && NameOf(p, base)
    ensures BindingFor(p.flag, base, source) in Bindings(p, sensitive)
  {
    assert BindingFor(p.flag, base, source) in Indirect(p.flag, base);
    if base != p.flag {
      IndirectMember(p.flag, p.aliases, base, BindingFor(p.flag, base, source));
    }
  }

  lemma {:induction false} IndirectMember(flag: string, names: seq<string>, base: string, b: Binding)
    requires base in names && b in Indirect(flag, base)
    ensures b in IndirectAll(flag, names)
    decreases |names|
  {
    if base == names[|names| - 1] {
    } else {
      IndirectMember(flag, names[..|names| - 1], base, b);
    }
  }

  /** Flags that are empty or shared before the dash pass are rejected after it. */
  lemma BindableNeedsFlags(params: seq<ParamSpec>, sensitive: Sensitivity)
    requires Bindable(DashPass(params), sensitive)
    ensures NamedFlags(params) && DistinctFlags(params)
  {
    var final := DashPass(params);
    forall i | 0 <= i < |params| ensures params[i].flag != "" {
      assert DashForm("") == "" by {
        NormalFixed("");
      }
      OwnFlag(final, sensitive, i, i);
    }
    forall i, j | 0 <= i < j < |params| ensures params[i].flag != params[j].flag {
      if params[i].flag == params[j].flag {
        DashedShares(params, i, j);
        OwnFlag(final, sensitive, i, j);
      }
    }
  }

  lemma OwnFlag(params: seq<ParamSpec>, sensitive: Sensitivity, i: nat, j: nat)
    requires i < |params| && j < |params| && Bindable(params, sensitive)
    ensures params[i].flag != "" && (i != j ==> params[i].flag != params[j].flag)
  {
    var b, c := Binding(params[i].flag, params[i].flag), Binding(params[j].flag, params[j].flag);
    assert Bindings(params[i], sensitive)[0] == b && Bindings(params[j], sensitive)[0] == c;
    assert Compatible(i, b, j, c);
  }

  lemma DashedAcceptedIff(params: seq<ParamSpec>, sensitive: Sensitivity)
    requires NoAliases(params) && IgnoresDashes(sensitive)
    ensures Agree(AllClaims(DashPass(params), sensitive))
       <==> NamedFlags(params) && DistinctFlags(params) && !SuffixTaken(params, sensitive)
  {
    var final := DashPass(params);
    AgreeIffBindable(final, sensitive);
    if Bindable(final, sensitive) {
      BindableNeedsFlags(params, sensitive);
      forall i: nat, base, source, j: nat ensures !TakesName(params, i, base, source, j, sensitive) {
        if TakesName(params, i, base, source, j, sensitive) {
          TakenNotBindable(params, i, base, source, j, sensitive);
        }
      }
    }
    if NamedFlags(params) && DistinctFlags(params) && !SuffixTaken(params, sensitive) {
      forall i, j, b, c | 0 <= i < |final| && 0 <= j < |final|
                          && b in Bindings(final[i], sensitive) && c in Bindings(final[j], sensitive)
        ensures Compatible(i, b, j, c)
      {
        BindingsCompatible(params, sensitive, i, b, j, c);
      }
    }
  }

  /** The validator accepts what the passes produce exactly when every flag was named, the parameters
      that no pass renames had distinct flags and, before the dash pass, no name that a sensitive parameter
      is to answer to becomes, with a source suffix, a name that another is to answer to. */
  lemma AcceptedIff(params: seq<ParamSpec>, body: seq<ParamSpec>, sensitive: Sensitivity)
    requires NoAliases(params) && NoAliases(body) && IgnoresDashes(sensitive)
    ensures Agree(AllClaims(AllPasses(params, body), sensitive))
       <==> NamedFlags(params) && NamedFlags(body) && OthersDistinct(IsCookie, params)
            && !SuffixTaken(Renamed(params, body), sensitive)
  {
    RenamedNamed(params, body);
    RenamedDistinct(params, body);
    RenamedPlain(params, body);
    DashedAcceptedIff(Renamed(params, body), sensitive);
  }

  // ----- flags that no suffix pass renames

  lemma {:induction false} ReflaggedSame(used: set<string>, prefix: string, picked: ParamSpec -> bool,
                                         params: seq<ParamSpec>)
    requires DistinctFlags(params)
    requires forall i :: 0 <= i < |params| && picked(params[i]) ==> params[i].flag !in used
    ensures Reflagged(used, prefix, picked, params) == params
    decreases |params|
  {
    if params == [] {
    } else {
      var now := if picked(params[0]) then used + {params[0].flag} else used;
      assert forall i :: 0 < i < |params| ==> params[1..][i - 1] == params[i];
      ReflaggedSame(now, prefix, picked, params[1..]);
      assert params == [params[0]] + params[1..];
    }
  }

  lemma FlagAt(params: seq<ParamSpec>, flag: string) returns (i: nat)
    requires flag in FlagsOf(params)
    ensures i < |params| && params[i].flag == flag
  {
    var p :| p in params && p.flag == flag;
    i :| 0 <= i < |params| && params[i] == p;
  }

  lemma CookieApart(params: seq<ParamSpec>, i: nat)
    requires i < |params| && IsCookie(params[i]) && DistinctFlags(params)
    ensures params[i].flag !in OtherFlags(params)
  {
    forall p | p in params && p.flag == params[i].flag ensures IsCookie(p) {
      var k :| 0 <= k < |params| && params[k] == p;
      assert k == i;
    }
  }

  lemma RenamedSame(params: seq<ParamSpec>, body: seq<ParamSpec>)
    requires DistinctFlags(params + body)
    ensures Renamed(params, body) == params + body
  {
    var all := params + body;
    assert forall i :: 0 <= i < |params| ==> all[i] == params[i];
    assert forall j :: 0 <= j < |body| ==> all[|params| + j] == body[j];
    assert DistinctFlags(params) && DistinctFlags(body);
    forall i | 0 <= i < |params| && IsCookie(params[i]) ensures params[i].flag !in OtherFlags(params) {
      CookieApart(params, i);
    }
    ReflaggedSame(OtherFlags(params), "cookie-", IsCookie, params);
    forall j | 0 <= j < |body| ensures body[j].flag !in FlagsOf(params) {
      if body[j].flag in FlagsOf(params) {
        var i := FlagAt(params, body[j].flag);
      }
    }
    ReflaggedSame(FlagsOf(params), "body-", Any, body);
  }

  /** On distinct flags the condition is one on the declared parameters: no name that a sensitive one
      answers to, its flag or its unshared dash form, is with a source suffix a name of another. */
  lemma DistinctAcceptedIff(params: seq<ParamSpec>, body: seq<ParamSpec>, sensitive: Sensitivity)
    requires NoAliases(params) && NoAliases(body) && IgnoresDashes(sensitive) && DistinctFlags(params + body)
    ensures Agree(AllClaims(AllPasses(params, body), sensitive))
       <==> NamedFlags(params + body) && !SuffixTaken(params + body, sensitive)
  {
    RenamedSame(params, body);
    RenamedPlain(params, body);
    DashedAcceptedIff(params + body, sensitive);
  }

  // ----- without sensitive parameters

  ghost predicate Became(p: ParamSpec, prefix: string, after: ParamSpec) {
    exists n: nat :: MayBecome(p.flag, prefix, n, after.flag) && after == p.(flag := after.flag)
  }

  lemma {:induction false} ReflaggedBecame(used: set<string>, prefix: string, picked: ParamSpec -> bool,
                                           params: seq<ParamSpec>, i: nat)
    requires i < |params|
    ensures Became(params[i], prefix, Reflagged(used, prefix, picked, params)[i])
    decreases |params|
  {
    var flag := Allocate(used, prefix, params[0].flag);
    if i == 0 {
      var n := if params[0].flag in used then FirstFree(used, prefix + params[0].flag, 1) else 1;
      var after := Reflagged(used, prefix, picked, params)[0];
      assert MayBecome(params[0].flag, prefix, n, after.flag);
    } else {
      ReflaggedBecame(if picked(params[0]) then used + {flag} else used, prefix, picked, params[1..], i - 1);
    }
  }

  predicate NoneSensitive(params: seq<ParamSpec>) {
    forall i :: 0 <= i < |params| ==> !IsSensitive(params[i])
  }

  lemma PassStaysHarmless(used: set<string>, word: string, prefix: string, picked: ParamSpec -> bool,
                          params: seq<ParamSpec>)
    requires NoneSensitive(params) && PrefixWord(word) && prefix == word + "-"
    ensures NoneSensitive(Reflagged(used, prefix, picked, params))
  {
    var after := Reflagged(used, prefix, picked, params);
    PassPrefix(word, prefix, "-");
    forall i | 0 <= i < |after| ensures !IsSensitive(after[i]) {
      ReflaggedBecame(used, prefix, picked, params, i);
      var n: nat :| MayBecome(params[i].flag, prefix, n, after[i].flag);
      StaysHarmless(params[i], prefix, n, after[i].flag);
    }
  }

  /** The suffix passes make no parameter sensitive. */
  lemma RenamedHarmless(params: seq<ParamSpec>, body: seq<ParamSpec>)
    requires NoneSensitive(params) && NoneSensitive(body)
    ensures NoneSensitive(Renamed(params, body))
  {
    PassStaysHarmless(OtherFlags(params), "cookie", "cookie-", IsCookie, params);
    PassStaysHarmless(FlagsOf(CookiePass(params)), "body", "body-", Any, body);
  }

  /** Without sensitive parameters, distinct named flags are enough. */
  lemma PipelineSound(params: seq<ParamSpec>, body: seq<ParamSpec>)
    requires NoAliases(params) && NoAliases(body) && NamedFlags(params) && NamedFlags(body)
    requires OthersDistinct(IsCookie, params) && NoneSensitive(params) && NoneSensitive(body)
    ensures Agree(AllClaims(AllPasses(params, body), IsSensitive))
  {
    SensitivityIgnoresDashes();
    RenamedHarmless(params, body);
    AcceptedIff(params, body, IsSensitive);
  }

  const SECRET := ParamSpec("pw", "pw", Query, "string", "password", [])
  const PLAIN := ParamSpec("pw-env", "pw-env", Query, "string", "", [])

  lemma SecretIsSensitive()
    ensures IsSensitive(SECRET)
  {
    assert LowerAll("password") == "password";
  }

  lemma SuffixOfSecretTaken(p: ParamSpec, q: ParamSpec, source: Source, sensitive: Sensitivity)
    requires sensitive(p) && source != Plain && q.flag == SuffixedName(p.flag, source)
    ensures SuffixTaken([p, q], sensitive)
  {
    assert TakesName([p, q], 0, p.flag, source, 1, sensitive);
  }

  lemma SuffixedRejected(p: ParamSpec, q: ParamSpec, source: Source, sensitive: Sensitivity)
    requires NoAliases([p, q]) && DistinctFlags([p, q]) && IgnoresDashes(sensitive)
    requires sensitive(p) && source != Plain && q.flag == SuffixedName(p.flag, source)
    ensures !Agree(AllClaims(AllPasses([p, q], []), sensitive))
  {
    assert [p, q] + [] == [p, q];
    SuffixOfSecretTaken(p, q, source, sensitive);
    DistinctAcceptedIff([p, q], [], sensitive);
  }

  /** The flags "pw" of a sensitive parameter and "pw-env" of another: named and distinct, and rejected. */
  lemma SensitiveSuffixClashes()
    ensures var params := [SECRET, PLAIN];
            && NoAliases(params) && NamedFlags(params) && DistinctFlags(params)
            && !Agree(AllClaims(AllPasses(params, []), IsSensitive))
  {
    SecretIsSensitive();
    SensitivityIgnoresDashes();
    SuffixedRejected(SECRET, PLAIN, Env, IsSensitive);
  }
}
