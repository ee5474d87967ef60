/** Which flags the passes give, and which names a parameter answers to
    (internal/codegen/normalize/params.go, pkg/runtime/param_flags.go). */
module FlagMeaning {
  import opened Decimal
  import opened SuffixSearch
  import opened ParamFlags
  import opened FlagBindings

  // ----- the renaming passes

  /** base, base-2, base-3, ... */
  predicate Numbered(flag: string, base: string, n: nat) {
    (n == 1 && flag == base) || (n >= 2 && flag == base + "-" + Itoa(n))
  }

  /** The parameter keeps everything but its flag, and this one too when nobody has taken it; otherwise it takes
      the first number of its prefixed flag that is not taken. */
  ghost predicate TakesFree(taken: set<string>, prefix: string, before: ParamSpec, after: ParamSpec) {
    && after == before.(flag := after.flag)
    && after.flag !in taken
    && (before.flag !in taken ==> after.flag == before.flag)
    && (before.flag in taken ==>
          exists n: nat :: Numbered(after.flag, prefix + before.flag, n)
            && forall k: nat, flag :: k < n && Numbered(flag, prefix + before.flag, k) ==> flag in taken)
  }

  lemma AllocatedTakes(taken: set<string>, prefix: string, p: ParamSpec)
    ensures TakesFree(taken, prefix, p, p.(flag := Allocate(taken, prefix, p.flag)))
  {
    if p.flag in taken {
      var base := prefix + p.flag;
      var n := FirstFree(taken, base, 1);
      EarlierUsed(taken, base, 1);
      assert Numbered(Candidate(base, n), base, n);
      forall k: nat, flag | k < n && Numbered(flag, base, k) ensures flag in taken {
        assert flag == Candidate(base, k);
      }
    }
  }

  /** The flags taken before parameter `i` has its turn. */
  function TakenBefore(used: set<string>, picked: ParamSpec -> bool, params: seq<ParamSpec>, after: seq<ParamSpec>,
                       i: nat): set<string>
    requires i < |params| == |after|
  {
    used + set j | 0 <= j < i && picked(params[j]) :: after[j].flag
  }

  lemma {:induction false} ReflaggedMeans(used: set<string>, prefix: string, picked: ParamSpec -> bool,
                                          params: seq<ParamSpec>, i: nat)
    requires i < |params|
    ensures var after := Reflagged(used, prefix, picked, params);
            if picked(params[i])
            then TakesFree(TakenBefore(used, picked, params, after, i), prefix, params[i], after[i])
            else after[i] == params[i]
    decreases |params|
  {
    var after := Reflagged(used, prefix, picked, params);
    if i == 0 {
      assert TakenBefore(used, picked, params, after, 0) == used;
      AllocatedTakes(used, prefix, params[0]);
    } else {
      var more := if picked(params[0]) then used + {after[0].flag} else used;
      assert after[1..] == Reflagged(more, prefix, picked, params[1..]);
      ReflaggedMeans(more, prefix, picked, params[1..], i - 1);
      TakenShift(used, picked, params, after, i);
    }
  }

  lemma TakenShift(used: set<string>, picked: ParamSpec -> bool, params: seq<ParamSpec>, after: seq<ParamSpec>, i: nat)
    requires 0 < i < |params| == |after|
    ensures var more := if picked(params[0]) then used + {after[0].flag} else used;
            TakenBefore(used, picked, params, after, i) == TakenBefore(more, picked, params[1..], after[1..], i - 1)
  {
    var more := if picked(params[0]) then used + {after[0].flag} else used;
    var all := TakenBefore(used, picked, params, after, i);
    var rest := TakenBefore(more, picked, params[1..], after[1..], i - 1);
    forall flag | flag in all ensures flag in rest {
      if flag !in used {
        var j :| 0 <= j < i && picked(params[j]) && after[j].flag == flag;
        if j > 0 {
          assert picked(params[1..][j - 1]) && after[1..][j - 1].flag == flag;
        }
      }
    }
    forall flag | flag in rest ensures flag in all {
      if flag !in more {
        var j :| 0 <= j < i - 1 && picked(params[1..][j]) && after[1..][j].flag == flag;
        assert picked(params[j + 1]) && after[j + 1].flag == flag;
      }
    }
  }

  /** After the cookie pass every other parameter is as it was, and each cookie in turn takes a flag that neither
      those nor the cookies before it have. */
  lemma CookiePassMeans(params: seq<ParamSpec>, i: nat)
    requires i < |params|
    ensures var after := CookiePass(params);
            if params[i].location != Cookie then after[i] == params[i]
            else
              var taken := (set p | p in params && p.location != Cookie :: p.flag)
                           + set j | 0 <= j < i && params[j].location == Cookie :: after[j].flag;
              TakesFree(taken, "cookie-", params[i], after[i])
  {
    ReflaggedMeans(OtherFlags(params), "cookie-", IsCookie, params, i);
    assert OtherFlags(params) == set p | p in params && p.location != Cookie :: p.flag;
    var after := CookiePass(params);
    assert (set j | 0 <= j < i && IsCookie(params[j]) :: after[j].flag)
        == set j | 0 <= j < i && params[j].location == Cookie :: after[j].flag;
  }

  /** After the multipart pass each body parameter has a flag that no existing parameter and no body parameter
      before it has. */
  lemma BodyPassMeans(existing: seq<ParamSpec>, body: seq<ParamSpec>, i: nat)
    requires i < |body|
    ensures var after := BodyPass(existing, body);
            var taken := (set p | p in existing :: p.flag) + set j | 0 <= j < i :: after[j].flag;
            TakesFree(taken, "body-", body[i], after[i])
  {
    ReflaggedMeans(FlagsOf(existing), "body-", Any, body, i);
    var after := BodyPass(existing, body);
    assert (set j | 0 <= j < i && Any(body[j]) :: after[j].flag) == set j | 0 <= j < i :: after[j].flag;
  }

  // ----- names

  /** One name of a parameter sets its flag; with a source behind it, where the parameter is sensitive, it sets
      the flag with the same source behind it. */
  predicate Binds(flag: string, sensitive: bool, name: string, b: Binding) {
    || b == Binding(name, flag)
    || (sensitive && (|| b == Binding(name + "-env", flag + "-env")
                      || b == Binding(name + "-file", flag + "-file")
                      || b == Binding(name + "-stdin", flag + "-stdin")))
  }

  predicate BindsOneOf(flag: string, sensitive: bool, names: seq<string>, b: Binding) {
    exists i :: 0 <= i < |names| && Binds(flag, sensitive, names[i], b)
  }

  lemma {:induction false} IndirectMeans(flag: string, names: seq<string>, b: Binding)
    ensures b in Direct(flag, names) + IndirectAll(flag, names) <==> BindsOneOf(flag, true, names, b)
  {
    if names == [] {
    } else {
      var init, last := names[..|names| - 1], names[|names| - 1];
      IndirectMeans(flag, init, b);
      assert Direct(flag, names) == Direct(flag, init) + [Binding(last, flag)];
      OneMoreBinds(flag, true, init, last, b);
      assert names == init + [last];
    }
  }

  lemma OneMoreBinds(flag: string, sensitive: bool, names: seq<string>, name: string, b: Binding)
    ensures BindsOneOf(flag, sensitive, names + [name], b)
       <==> BindsOneOf(flag, sensitive, names, b) || Binds(flag, sensitive, name, b)
  {
    var more := names + [name];
    assert more[|names|] == name && forall i :: 0 <= i < |names| ==> more[i] == names[i];
  }

  lemma OneFirstBinds(flag: string, sensitive: bool, name: string, names: seq<string>, b: Binding)
    ensures BindsOneOf(flag, sensitive, [name] + names, b)
       <==> Binds(flag, sensitive, name, b) || BindsOneOf(flag, sensitive, names, b)
  {
    var more := [name] + names;
    assert more[0] == name && forall i :: 0 <= i < |names| ==> more[i + 1] == names[i];
  }

  /** The bindings of a parameter are those of its flag and its aliases, and no others. */
  lemma BindingsMean(p: ParamSpec, sensitive: Sensitivity, b: Binding)
    ensures b in Bindings(p, sensitive) <==> BindsOneOf(p.flag, sensitive(p), [p.flag] + p.aliases, b)
  {
    OneFirstBinds(p.flag, sensitive(p), p.flag, p.aliases, b);
    if sensitive(p) {
      IndirectMeans(p.flag, p.aliases, b);
    } else {
      assert b in Direct(p.flag, p.aliases) <==> BindsOneOf(p.flag, false, p.aliases, b);
    }
  }
}
