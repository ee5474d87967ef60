/** The flag passes over a command's parameters (internal/codegen/normalize/params.go). */
module ParamFlags {
  import opened Text
  import opened DashForms
  import opened SuffixSearch

  datatype Location = Path | Query | Header | Cookie | FormData | Variable | Body

  datatype ParamSpec = ParamSpec(name: string, flag: string, location: Location, goType: string, format: string,
                                 aliases: seq<string>)

  predicate IsCookie(p: ParamSpec) {
    p.location == Cookie
  }

  predicate Any(p: ParamSpec) {
    true
  }

  function FlagsOf(params: seq<ParamSpec>): set<string> {
    set p | p in params :: p.flag
  }

  function OtherFlags(params: seq<ParamSpec>): set<string> {
    set p | p in params && !IsCookie(p) :: p.flag
  }

  /** Each picked parameter in turn takes a flag that is not used yet. */
  function Reflagged(used: set<string>, prefix: string, picked: ParamSpec -> bool, params: seq<ParamSpec>)
    : (reflagged: seq<ParamSpec>)
    ensures |reflagged| == |params|
    decreases |params|
  {
    if params == [] then []
    else if !picked(params[0]) then [params[0]] + Reflagged(used, prefix, picked, params[1..])
    else
      var flag := Allocate(used, prefix, params[0].flag);
      [params[0].(flag := flag)] + Reflagged(used + {flag}, prefix, picked, params[1..])
  }

  lemma ReflaggedStep(used: set<string>, prefix: string, picked: ParamSpec -> bool,
                      start: seq<ParamSpec>, goal: seq<ParamSpec>, i: nat)
    requires i < |start| == |goal| && goal[i..] == Reflagged(used, prefix, picked, start[i..])
    ensures var flag := Allocate(used, prefix, start[i].flag);
            if picked(start[i])
            then goal[i] == start[i].(flag := flag)
                 && goal[i + 1..] == Reflagged(used + {flag}, prefix, picked, start[i + 1..])
            else goal[i] == start[i] && goal[i + 1..] == Reflagged(used, prefix, picked, start[i + 1..])
  {
    assert start[i..][0] == start[i] && start[i..][1..] == start[i + 1..];
    assert goal[i..][0] == goal[i] && goal[i..][1..] == goal[i + 1..];
  }

  function CookiePass(params: seq<ParamSpec>): (after: seq<ParamSpec>)
    ensures |after| == |params|
  {
    Reflagged(OtherFlags(params), "cookie-", IsCookie, params)
  }

  /** disambiguateCookieParamFlags rewrites in place. */
  method DisambiguateCookieParamFlags(params: array<ParamSpec>)
    modifies params
    ensures params[..] == CookiePass(old(params[..]))
  {
    var used: set<string> := {};
    for i := 0 to params.Length
      invariant used == OtherFlags(params[..i])
    {
      assert params[..i + 1] == params[..i] + [params[i]];
      if params[i].location != Cookie {
        used := used + {params[i].flag};
      }
    }
    assert params[..params.Length] == params[..];
    ghost var start, goal := params[..], CookiePass(params[..]);
    for i := 0 to params.Length
      invariant forall k :: i <= k < params.Length ==> params[k] == start[k]
      invariant forall k :: 0 <= k < i ==> params[k] == goal[k]
      invariant goal[i..] == Reflagged(used, "cookie-", IsCookie, start[i..])
    {
      ReflaggedStep(used, "cookie-", IsCookie, start, goal, i);
      if params[i].location != Cookie {
        continue;
      }
      var flag := AllocateName(used, "cookie-", params[i].flag);
      params[i] := params[i].(flag := flag);
      used := used + {flag};
    }
  }

  function BodyPass(existing: seq<ParamSpec>, body: seq<ParamSpec>): (after: seq<ParamSpec>)
    ensures |after| == |body|
  {
    Reflagged(FlagsOf(existing), "body-", Any, body)
  }

  method UsedFlags(existing: array<ParamSpec>) returns (used: set<string>)
    ensures used == FlagsOf(existing[..])
  {
    used := {};
    for i := 0 to existing.Length
      invariant used == FlagsOf(existing[..i])
    {
      assert existing[..i + 1] == existing[..i] + [existing[i]];
      used := used + {existing[i].flag};
    }
    assert existing[..existing.Length] == existing[..];
  }

  /** disambiguateMultipartParamFlags rewrites the body parameters in place. */
  method DisambiguateMultipartParamFlags(existing: array<ParamSpec>, body: array<ParamSpec>)
    requires existing != body
    modifies body
    ensures body[..] == BodyPass(existing[..], old(body[..]))
  {
    var used := UsedFlags(existing);
    ghost var start, goal := body[..], BodyPass(existing[..], body[..]);
    for i := 0 to body.Length
      invariant forall k :: i <= k < body.Length ==> body[k] == start[k]
      invariant forall k :: 0 <= k < i ==> body[k] == goal[k]
      invariant goal[i..] == Reflagged(used, "body-", Any, start[i..])
    {
      ReflaggedStep(used, "body-", Any, start, goal, i);
      var flag := AllocateName(used, "body-", body[i].flag);
      body[i] := body[i].(flag := flag);
      used := used + {flag};
    }
    assert body[..] == goal;
  }

  // ----- the dash pass

  /** Another parameter has the same dash form. */
  predicate Shared(params: seq<ParamSpec>, i: nat)
    requires i < |params|
  {
    exists j :: 0 <= j < |params| && j != i && DashForm(params[j].flag) == DashForm(params[i].flag)
  }

  function DashedAt(params: seq<ParamSpec>, i: nat): ParamSpec
    requires i < |params|
  {
    var p, form := params[i], DashForm(params[i].flag);
    if form == "" || form == p.flag || Shared(params, i) then p else p.(aliases := [p.flag], flag := form)
  }

  function DashPass(params: seq<ParamSpec>): (after: seq<ParamSpec>)
    ensures |after| == |params|
    ensures forall i :: 0 <= i < |params| ==> after[i] == DashedAt(params, i)
  {
    seq(|params|, i requires 0 <= i < |params| => DashedAt(params, i))
  }

  function Forms(params: seq<ParamSpec>): (forms: seq<string>)
    ensures |forms| == |params| && forall i :: 0 <= i < |params| ==> forms[i] == DashForm(params[i].flag)
  {
    seq(|params|, i requires 0 <= i < |params| => DashForm(params[i].flag))
  }

  /** How often a text occurs. */
  function CountOf(texts: seq<string>, text: string): nat {
    multiset(texts)[text]
  }

  lemma {:induction false} CountedTwice(texts: seq<string>, i: nat)
    requires i < |texts|
    ensures CountOf(texts, texts[i]) > 1 <==> exists j :: 0 <= j < |texts| && j != i && texts[j] == texts[i]
  {
    var others := texts[..i] + texts[i + 1..];
    assert texts == texts[..i] + [texts[i]] + texts[i + 1..];
    assert multiset(texts) == multiset(others) + multiset{texts[i]};
    if texts[i] in multiset(others) {
      var k :| 0 <= k < |others| && others[k] == texts[i];
      assert texts[if k < i then k else k + 1] == texts[i];
    }
    if j :| 0 <= j < |texts| && j != i && texts[j] == texts[i] {
      assert others[if j < i then j else j - 1] == texts[i];
    }
  }

  type Counts = map<string, nat>

  /** Go's counts[text], zero when absent. */
  function CountIn(counts: Counts, text: string): nat {
    if text in counts then counts[text] else 0
  }

  ghost predicate Counted(counts: Counts, texts: seq<string>) {
    forall text :: CountIn(counts, text) == CountOf(texts, text)
  }

  lemma CountOneMore(counts: Counts, texts: seq<string>, text: string)
    requires Counted(counts, texts)
    ensures Counted(counts[text := CountIn(counts, text) + 1], texts + [text])
  {
    var more := counts[text := CountIn(counts, text) + 1];
    forall other ensures CountIn(more, other) == CountOf(texts + [text], other) {
      assert CountOf(texts + [text], other) == CountOf(texts, other) + multiset{text}[other];
      assert CountIn(counts, other) == CountOf(texts, other);
    }
  }

  method DesiredForm(flag: string) returns (form: string)
    ensures form == DashForm(flag)
  {
    var collapsed := CollapseDashes(Dashed(flag));
    form := Trim(collapsed, IsDash);
  }

  /** The first loop of normalizeParamFlags. */
  method CountForms(params: array<ParamSpec>) returns (desired: seq<string>, counts: Counts)
    ensures desired == Forms(params[..]) && Counted(counts, desired)
  {
    desired, counts := [], map[];
    for i := 0 to params.Length
      invariant |desired| == i && (forall k :: 0 <= k < i ==> desired[k] == DashForm(params[k].flag))
      invariant Counted(counts, desired)
    {
      var form := DesiredForm(params[i].flag);
      CountOneMore(counts, desired, form);
      desired := desired + [form];
      counts := counts[form := CountIn(counts, form) + 1];
    }
  }

  /** normalizeParamFlags: count the forms, then rename in place where the form is nobody else's. */
  method NormalizeParamFlags(params: array<ParamSpec>)
    modifies params
    ensures params[..] == DashPass(old(params[..]))
  {
    ghost var start := params[..];
    var desired, counts := CountForms(params);
    for i := 0 to params.Length
      invariant forall k :: i <= k < params.Length ==> params[k] == start[k]
      invariant forall k :: 0 <= k < i ==> params[k] == DashedAt(start, k)
    {
      SharedIsCounted(start, i);
      if desired[i] == "" || desired[i] == params[i].flag || CountIn(counts, desired[i]) > 1 {
        continue;
      }
      params[i] := params[i].(aliases := [params[i].flag], flag := desired[i]);
    }
  }

  lemma SharedIsCounted(params: seq<ParamSpec>, i: nat)
    requires i < |params|
    ensures Shared(params, i) <==> CountOf(Forms(params), Forms(params)[i]) > 1
  {
    CountedTwice(Forms(params), i);
    if Shared(params, i) {
      var j :| 0 <= j < |params| && j != i && DashForm(params[j].flag) == DashForm(params[i].flag);
      assert Forms(params)[j] == Forms(params)[i];
    }
  }

  // ----- all passes of Normalize

  function AllPasses(params: seq<ParamSpec>, body: seq<ParamSpec>): (after: seq<ParamSpec>)
    ensures |after| == |params| + |body|
  {
    var first := CookiePass(params);
    DashPass(first + BodyPass(first, body))
  }

  method FlagPasses(params: array<ParamSpec>, body: array<ParamSpec>) returns (all: array<ParamSpec>)
    requires params != body
    modifies params, body
    ensures all[..] == AllPasses(old(params[..]), old(body[..]))
  {
    DisambiguateCookieParamFlags(params);
    DisambiguateMultipartParamFlags(params, body);
    ghost var joined := params[..] + body[..];
    all := new ParamSpec[params.Length + body.Length](i requires 0 <= i < params.Length + body.Length
        reads params, body => if i < params.Length then params[i] else body[i - params.Length]);
    assert all[..] == joined;
    NormalizeParamFlags(all);
  }
}
