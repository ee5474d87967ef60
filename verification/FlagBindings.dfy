/** The runtime's own check of a command's flags (pkg/runtime/param_flags.go). */
module FlagBindings {
  import opened ParamFlags

  /** A flag name and the flag it sets. */
  datatype Binding = Binding(name: string, target: string)

  /** Where a sensitive value may come from. */
  datatype Source = Plain | Env | File | Stdin

  function Suffix(source: Source): string {
    match source
    case Plain => ""
    case Env => "-env"
    case File => "-file"
    case Stdin => "-stdin"
  }

  /** Which parameters are sensitive strings is a parameter of the model. */
  type Sensitivity = ParamSpec -> bool

  function BindingFor(flag: string, name: string, source: Source): Binding {
    Binding(name + Suffix(source), flag + Suffix(source))
  }

  function Indirect(flag: string, name: string): seq<Binding> {
    [BindingFor(flag, name, Env), BindingFor(flag, name, File), BindingFor(flag, name, Stdin)]
  }

  function Direct(flag: string, names: seq<string>): (bindings: seq<Binding>)
    ensures |bindings| == |names| && forall i :: 0 <= i < |names| ==> bindings[i] == Binding(names[i], flag)
  {
    seq(|names|, i requires 0 <= i < |names| => Binding(names[i], flag))
  }

  function IndirectAll(flag: string, names: seq<string>): seq<Binding> {
    if names == [] then []
    else IndirectAll(flag, names[..|names| - 1]) + Indirect(flag, names[|names| - 1])
  }

  function Bindings(p: ParamSpec, sensitive: Sensitivity): seq<Binding> {
    var plain := [Binding(p.flag, p.flag)] + Direct(p.flag, p.aliases);
    if sensitive(p) then plain + Indirect(p.flag, p.flag) + IndirectAll(p.flag, p.aliases) else plain
  }

  /** paramFlagBindings appends in loops. */
  method ParamFlagBindings(p: ParamSpec, sensitive: Sensitivity) returns (bindings: seq<Binding>)
    ensures bindings == Bindings(p, sensitive)
  {
    bindings := [Binding(p.flag, p.flag)];
    for i := 0 to |p.aliases|
      invariant bindings == [Binding(p.flag, p.flag)] + Direct(p.flag, p.aliases[..i])
    {
      assert Direct(p.flag, p.aliases[..i + 1]) == Direct(p.flag, p.aliases[..i]) + [Binding(p.aliases[i], p.flag)];
      bindings := bindings + [Binding(p.aliases[i], p.flag)];
    }
    assert p.aliases[..|p.aliases|] == p.aliases;
    if !sensitive(p) {
      return;
    }
    ghost var plain := bindings;
    bindings := bindings + Indirect(p.flag, p.flag);
    for i := 0 to |p.aliases|
      invariant bindings == plain + Indirect(p.flag, p.flag) + IndirectAll(p.flag, p.aliases[..i])
    {
      assert p.aliases[..i + 1][..i] == p.aliases[..i];
      bindings := bindings + Indirect(p.flag, p.aliases[i]);
    }
  }

  // ----- the check

  datatype Owner = Owner(param: nat, target: string)

  datatype Claim = Claim(name: string, owner: Owner)

  function Claims(param: nat, bindings: seq<Binding>): (claims: seq<Claim>)
    ensures |claims| == |bindings|
    ensures forall i :: 0 <= i < |bindings| ==> claims[i] == Claim(bindings[i].name, Owner(param, bindings[i].target))
  {
    seq(|bindings|, i requires 0 <= i < |bindings| => Claim(bindings[i].name, Owner(param, bindings[i].target)))
  }

  function AllClaims(params: seq<ParamSpec>, sensitive: Sensitivity): seq<Claim> {
    if params == [] then []
    else
      var last := |params| - 1;
      AllClaims(params[..last], sensitive) + Claims(last, Bindings(params[last], sensitive))
  }

  /** No empty name, and one owner and target a name. */
  predicate Agree(claims: seq<Claim>) {
    && (forall i :: 0 <= i < |claims| ==> claims[i].name != "")
    && (forall i, j :: 0 <= i < |claims| && 0 <= j < |claims| && claims[i].name == claims[j].name ==>
          claims[i].owner == claims[j].owner)
  }

  type Seen = map<string, Owner>

  /** The map of names seen so far. */
  ghost predicate Records(seen: Seen, claims: seq<Claim>) {
    && (forall i :: 0 <= i < |claims| ==> claims[i].name in seen && seen[claims[i].name] == claims[i].owner)
    && (forall name :: name in seen ==> Claim(name, seen[name]) in claims)
    && "" !in seen
  }

  lemma RecordsAgree(seen: Seen, claims: seq<Claim>)
    requires Records(seen, claims)
    ensures Agree(claims)
  {
  }

  lemma RecordNew(seen: Seen, claims: seq<Claim>, claim: Claim)
    requires Records(seen, claims) && claim.name != "" && (claim.name in seen ==> seen[claim.name] == claim.owner)
    ensures Records(seen[claim.name := claim.owner], claims + [claim])
  {
    var more := claims + [claim];
    assert more[|claims|] == claim;
    forall name | name in seen ensures Claim(name, seen[name]) in more {
      assert Claim(name, seen[name]) in claims;
    }
  }

  predicate Clashes(seen: Seen, claim: Claim) {
    claim.name == "" || (claim.name in seen && seen[claim.name] != claim.owner)
  }

  lemma Disagree(seen: Seen, claims: seq<Claim>, claim: Claim)
    requires Records(seen, claims) && Clashes(seen, claim)
    ensures !Agree(claims + [claim])
  {
    var all := claims + [claim];
    assert all[|claims|] == claim;
    if claim.name != "" {
      var i :| 0 <= i < |claims| && claims[i] == Claim(claim.name, seen[claim.name]);
      assert all[i] == claims[i];
    }
  }

  lemma AgreePrefix(a: seq<Claim>, b: seq<Claim>)
    requires Agree(a + b)
    ensures Agree(a)
  {
    assert forall i :: 0 <= i < |a| ==> (a + b)[i] == a[i];
  }

  /** One binding of the inner loop of ValidateParamFlags. */
  method AddBinding(before: Seen, param: nat, binding: Binding, ghost claims: seq<Claim>)
    returns (seen: Seen, ok: bool)
    requires Records(before, claims)
    ensures ok <==> Agree(claims + [Claim(binding.name, Owner(param, binding.target))])
    ensures ok ==> Records(seen, claims + [Claim(binding.name, Owner(param, binding.target))])
  {
    ghost var claim := Claim(binding.name, Owner(param, binding.target));
    seen, ok := before, true;
    if binding.name == "" {
      Disagree(seen, claims, claim);
      return seen, false;
    }
    if binding.name in seen {
      if seen[binding.name].param != param || seen[binding.name].target != binding.target {
        Disagree(seen, claims, claim);
        return seen, false;
      }
      assert seen == seen[claim.name := claim.owner];
    } else {
      seen := seen[binding.name := Owner(param, binding.target)];
    }
    RecordNew(before, claims, claim);
    RecordsAgree(seen, claims + [claim]);
  }

  /** The inner loop. */
  method AddBindings(before: Seen, param: nat, bindings: seq<Binding>, ghost claims: seq<Claim>)
    returns (seen: Seen, ok: bool)
    requires Records(before, claims)
    ensures ok <==> Agree(claims + Claims(param, bindings))
    ensures ok ==> Records(seen, claims + Claims(param, bindings))
  {
    seen, ok := before, true;
    ghost var added := Claims(param, bindings);
    for k := 0 to |bindings|
      invariant Records(seen, claims + added[..k])
    {
      seen, ok := AddBinding(seen, param, bindings[k], claims + added[..k]);
      assert claims + added[..k + 1] == claims + added[..k] + [added[k]];
      if !ok {
        assert claims + added == claims + added[..k + 1] + added[k + 1..];
        if Agree(claims + added) {
          AgreePrefix(claims + added[..k + 1], added[k + 1..]);
        }
        return;
      }
    }
    assert added[..|bindings|] == added;
    RecordsAgree(seen, claims + added);
    ok := true;
  }

  lemma {:induction false} AgreeInPart(params: seq<ParamSpec>, sensitive: Sensitivity, n: nat)
    requires n <= |params| && Agree(AllClaims(params, sensitive))
    ensures Agree(AllClaims(params[..n], sensitive))
    decreases |params|
  {
    if n < |params| {
      var last := |params| - 1;
      AgreePrefix(AllClaims(params[..last], sensitive), Claims(last, Bindings(params[last], sensitive)));
      AgreeInPart(params[..last], sensitive, n);
      assert params[..last][..n] == params[..n];
    } else {
      assert params[..n] == params;
    }
  }

  /** Accepts exactly when all claims agree. */
  method ValidateParamFlags(params: seq<ParamSpec>, sensitive: Sensitivity) returns (ok: bool)
    ensures ok <==> Agree(AllClaims(params, sensitive))
  {
    var seen: Seen := map[];
    for i := 0 to |params|
      invariant Records(seen, AllClaims(params[..i], sensitive))
    {
      assert params[..i + 1][..i] == params[..i];
      var bindings := ParamFlagBindings(params[i], sensitive);
      seen, ok := AddBindings(seen, i, bindings, AllClaims(params[..i], sensitive));
      if !ok {
        if Agree(AllClaims(params, sensitive)) {
          AgreeInPart(params, sensitive, i + 1);
        }
        return;
      }
    }
    assert params[..|params|] == params;
    RecordsAgree(seen, AllClaims(params, sensitive));
    ok := true;
  }

  // ----- in terms of the parameters

  /** What acceptance means: no empty name, no name shared by two parameters, one target a name. */
  ghost predicate Bindable(params: seq<ParamSpec>, sensitive: Sensitivity) {
    forall i, j, b, c :: 0 <= i < |params| && 0 <= j < |params|
                         && b in Bindings(params[i], sensitive) && c in Bindings(params[j], sensitive) ==>
                           Compatible(i, b, j, c)
  }

  predicate Compatible(i: nat, b: Binding, j: nat, c: Binding) {
    b.name != "" && c.name != "" && (b.name == c.name ==> i == j && b.target == c.target)
  }

  lemma {:induction false} ClaimOf(params: seq<ParamSpec>, sensitive: Sensitivity, claim: Claim)
    ensures claim in AllClaims(params, sensitive)
       <==> claim.owner.param < |params|
            && Binding(claim.name, claim.owner.target) in Bindings(params[claim.owner.param], sensitive)
    decreases |params|
  {
    if params == [] {
    } else {
      var last := |params| - 1;
      ClaimOf(params[..last], sensitive, claim);
      ClaimsHold(last, Bindings(params[last], sensitive), claim);
      assert AllClaims(params, sensitive)
          == AllClaims(params[..last], sensitive) + Claims(last, Bindings(params[last], sensitive));
    }
  }

  lemma ClaimsHold(param: nat, bindings: seq<Binding>, claim: Claim)
    ensures claim in Claims(param, bindings)
       <==> claim.owner.param == param && Binding(claim.name, claim.owner.target) in bindings
  {
    var claims := Claims(param, bindings);
    if claim.owner.param == param && Binding(claim.name, claim.owner.target) in bindings {
      var i :| 0 <= i < |bindings| && bindings[i] == Binding(claim.name, claim.owner.target);
      assert claims[i] == claim;
    }
  }

  lemma AgreeIffBindable(params: seq<ParamSpec>, sensitive: Sensitivity)
    ensures Agree(AllClaims(params, sensitive)) <==> Bindable(params, sensitive)
  {
    var claims := AllClaims(params, sensitive);
    if Agree(claims) {
      forall i, j, b, c | 0 <= i < |params| && 0 <= j < |params|
                          && b in Bindings(params[i], sensitive) && c in Bindings(params[j], sensitive)
        ensures Compatible(i, b, j, c)
      {
        ClaimOf(params, sensitive, Claim(b.name, Owner(i, b.target)));
        ClaimOf(params, sensitive, Claim(c.name, Owner(j, c.target)));
        AgreeOn(claims, Claim(b.name, Owner(i, b.target)), Claim(c.name, Owner(j, c.target)));
      }
    }
    if Bindable(params, sensitive) {
      forall x, y | 0 <= x < |claims| && 0 <= y < |claims|
        ensures claims[x].name != "" && (claims[x].name == claims[y].name ==> claims[x].owner == claims[y].owner)
      {
        ClaimOf(params, sensitive, claims[x]);
        ClaimOf(params, sensitive, claims[y]);
        assert Compatible(claims[x].owner.param, Binding(claims[x].name, claims[x].owner.target),
                          claims[y].owner.param, Binding(claims[y].name, claims[y].owner.target));
      }
    }
  }

  lemma AgreeOn(claims: seq<Claim>, a: Claim, b: Claim)
    requires Agree(claims) && a in claims && b in claims
    ensures a.name != "" && b.name != "" && (a.name == b.name ==> a.owner == b.owner)
  {
  }
}
