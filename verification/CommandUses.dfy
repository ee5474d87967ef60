/** Distinct command names within a group (internal/codegen/render/overlay.go). */
module CommandUses {
  import opened Decimal
  import opened SuffixSearch

  /** The fields that matter here; `rest` stands for the others. */
  datatype CommandSpec<T> = CommandSpec(group: string, use: string, rest: T)

  const NUL := '\U{0}'

  function KeyOf(group: string, use: string): string {
    group + [NUL] + use
  }

  function Keys<T>(specs: seq<CommandSpec<T>>): (keys: seq<string>)
    ensures |keys| == |specs|
    ensures forall i :: 0 <= i < |specs| ==> keys[i] == KeyOf(specs[i].group, specs[i].use)
  {
    seq(|specs|, i requires 0 <= i < |specs| => KeyOf(specs[i].group, specs[i].use))
  }

  lemma CandidateKey(group: string, use: string, n: nat)
    ensures Candidate(KeyOf(group, use), n) == KeyOf(group, Candidate(use, n))
  {
  }

  /** Each spec in turn takes the first of its candidates whose key is free. */
  function Disambiguated<T>(used: set<string>, specs: seq<CommandSpec<T>>): (named: seq<CommandSpec<T>>)
    ensures |named| == |specs|
    decreases |specs|
  {
    if specs == [] then []
    else
      var key := KeyOf(specs[0].group, specs[0].use);
      var n := FirstFree(used, key, 1);
      [specs[0].(use := Candidate(specs[0].use, n))] + Disambiguated(used + {Candidate(key, n)}, specs[1..])
  }

  /** disambiguateUse renames in place. */
  method DisambiguateUse<T>(specs: array<CommandSpec<T>>)
    modifies specs
    ensures specs[..] == Disambiguated({}, old(specs[..]))
  {
    var used: set<string> := {};
    ghost var start, goal := specs[..], Disambiguated({}, specs[..]);
    for i := 0 to specs.Length
      invariant forall k :: i <= k < specs.Length ==> specs[k] == start[k]
      invariant forall k :: 0 <= k < i ==> specs[k] == goal[k]
      invariant goal[i..] == Disambiguated(used, start[i..])
    {
      var use, key := FreeUse(used, specs[i].group, specs[i].use);
      DisambiguatedStep(used, start, goal, i, use, key);
      specs[i] := specs[i].(use := use);
      used := used + {key};
    }
  }

  lemma DisambiguatedStep<T>(used: set<string>, start: seq<CommandSpec<T>>, goal: seq<CommandSpec<T>>, i: nat,
                             use: string, key: string)
    requires i < |start| == |goal| && goal[i..] == Disambiguated(used, start[i..])
    requires var base := KeyOf(start[i].group, start[i].use);
             && key == Candidate(base, FirstFree(used, base, 1))
             && use == Candidate(start[i].use, FirstFree(used, base, 1))
    ensures goal[i] == start[i].(use := use)
    ensures goal[i + 1..] == Disambiguated(used + {key}, start[i + 1..])
  {
    assert start[i..][0] == start[i] && start[i..][1..] == start[i + 1..];
    assert goal[i..][0] == goal[i] && goal[i..][1..] == goal[i + 1..];
  }

  /** The search for one spec, and the key it takes. */
  method FreeUse(used: set<string>, group: string, base: string) returns (use: string, key: string)
    ensures use == Candidate(base, FirstFree(used, KeyOf(group, base), 1))
    ensures key == Candidate(KeyOf(group, base), FirstFree(used, KeyOf(group, base), 1))
  {
    use, key := base, KeyOf(group, base);
    var n := 2;
    while key in used
      invariant 2 <= n && use == Candidate(base, n - 1) && key == Candidate(KeyOf(group, base), n - 1)
      invariant FirstFree(used, KeyOf(group, base), n - 1) == FirstFree(used, KeyOf(group, base), 1)
      decreases Ahead(used, KeyOf(group, base), n - 1)
    {
      AheadShrinks(used, KeyOf(group, base), n - 1);
      CandidateKey(group, base, n);
      use := base + "-" + Itoa(n);
      key := KeyOf(group, use);
      n := n + 1;
    }
  }

  /** Only uses change. */
  lemma {:induction false} OnlyUsesChange<T>(used: set<string>, specs: seq<CommandSpec<T>>)
    ensures forall i :: 0 <= i < |specs| ==>
              Disambiguated(used, specs)[i] == specs[i].(use := Disambiguated(used, specs)[i].use)
    decreases |specs|
  {
    if specs == [] {
    } else {
      var key := KeyOf(specs[0].group, specs[0].use);
      OnlyUsesChange(used + {Candidate(key, FirstFree(used, key, 1))}, specs[1..]);
    }
  }

  /** No two commands share a key, and none takes a key used before. */
  lemma {:induction false} KeysApart<T>(used: set<string>, specs: seq<CommandSpec<T>>)
    ensures Distinct(Keys(Disambiguated(used, specs))) && AllFree(Keys(Disambiguated(used, specs)), used)
    decreases |specs|
  {
    if specs == [] {
    } else {
      var key := KeyOf(specs[0].group, specs[0].use);
      var taken := Candidate(key, FirstFree(used, key, 1));
      KeysStep(used, specs);
      KeysApart(used + {taken}, specs[1..]);
      ConsApart(used, taken, Keys(Disambiguated(used + {taken}, specs[1..])));
    }
  }

  lemma KeysStep<T>(used: set<string>, specs: seq<CommandSpec<T>>)
    requires specs != []
    ensures var key := KeyOf(specs[0].group, specs[0].use);
            var taken := Candidate(key, FirstFree(used, key, 1));
            Keys(Disambiguated(used, specs)) == [taken] + Keys(Disambiguated(used + {taken}, specs[1..]))
  {
    CandidateKey(specs[0].group, specs[0].use, FirstFree(used, KeyOf(specs[0].group, specs[0].use), 1));
  }

  lemma ConsApart(used: set<string>, key: string, keys: seq<string>)
    requires key !in used && Distinct(keys) && AllFree(keys, used + {key})
    ensures Distinct([key] + keys) && AllFree([key] + keys, used)
  {
  }

  lemma {:induction false} FreeKeysStay<T>(used: set<string>, specs: seq<CommandSpec<T>>)
    requires Distinct(Keys(specs)) && AllFree(Keys(specs), used)
    ensures Disambiguated(used, specs) == specs
    decreases |specs|
  {
    if specs == [] {
    } else {
      var key := KeyOf(specs[0].group, specs[0].use);
      var rest := specs[1..];
      assert Keys(specs)[0] == key && Candidate(key, 1) == key;
      assert FirstFree(used, key, 1) == 1;
      assert forall i :: 0 <= i < |rest| ==> Keys(rest)[i] == Keys(specs)[i + 1];
      assert AllFree(Keys(rest), used + {key}) && Distinct(Keys(rest));
      FreeKeysStay(used + {key}, rest);
      assert specs == [specs[0]] + rest;
    }
  }

  /** Two commands of one group never share a name afterwards; nothing changes exactly when no two
      keys were equal before; so a second pass changes nothing. */
  lemma UsesDistinct<T>(specs: seq<CommandSpec<T>>)
    ensures var named := Disambiguated({}, specs);
            && (forall i, j :: 0 <= i < j < |named| ==>
                  !(named[i].group == named[j].group && named[i].use == named[j].use))
            && (named == specs <==> Distinct(Keys(specs)))
            && Disambiguated({}, named) == named
  {
    var named := Disambiguated({}, specs);
    KeysApart({}, specs);
    forall i, j | 0 <= i < j < |named|
      ensures !(named[i].group == named[j].group && named[i].use == named[j].use)
    {
      assert Keys(named)[i] != Keys(named)[j];
    }
    FreeKeysStay({}, named);
    if Distinct(Keys(specs)) {
      FreeKeysStay({}, specs);
    }
  }

  predicate DistinctPairs<T>(specs: seq<CommandSpec<T>>) {
    forall i, j :: 0 <= i < j < |specs| ==> !(specs[i].group == specs[j].group && specs[i].use == specs[j].use)
  }

  lemma KeyInjective(g: string, u: string, h: string, v: string)
    requires NUL !in g && NUL !in h && KeyOf(g, u) == KeyOf(h, v)
    ensures g == h && u == v
  {
    var key := KeyOf(g, u);
    assert key[|g|] == NUL && key[|h|] == NUL;
    assert forall i :: 0 <= i < |g| ==> key[i] == g[i] && g[i] in g;
    assert forall i :: 0 <= i < |h| ==> key[i] == h[i] && h[i] in h;
    assert key[..|g|] == g && key[..|h|] == h;
    assert key[|g| + 1..] == u && key[|h| + 1..] == v;
  }

  /** With groups free of NUL, nothing changes exactly when the (group, use) pairs are distinct. */
  lemma UnchangedIffDistinct<T>(specs: seq<CommandSpec<T>>)
    requires forall i :: 0 <= i < |specs| ==> NUL !in specs[i].group
    ensures Disambiguated({}, specs) == specs <==> DistinctPairs(specs)
  {
    UsesDistinct(specs);
    if DistinctPairs(specs) {
      forall i, j | 0 <= i < j < |specs| ensures Keys(specs)[i] != Keys(specs)[j] {
        if Keys(specs)[i] == Keys(specs)[j] {
          KeyInjective(specs[i].group, specs[i].use, specs[j].group, specs[j].use);
        }
      }
    } else {
      var i, j :| 0 <= i < j < |specs| && specs[i].group == specs[j].group && specs[i].use == specs[j].use;
      assert Keys(specs)[i] == Keys(specs)[j];
    }
  }

  /** A NUL in a group can make two different pairs one key, and the second is renamed. */
  lemma NulInGroupClashes<T>(a: T, b: T)
    ensures var specs := [CommandSpec("g", [NUL] + "u", a), CommandSpec("g" + [NUL], "u", b)];
            DistinctPairs(specs) && Disambiguated({}, specs) != specs
  {
    var specs := [CommandSpec("g", [NUL] + "u", a), CommandSpec("g" + [NUL], "u", b)];
    UsesDistinct(specs);
    assert Keys(specs)[0] == Keys(specs)[1];
  }
}
