/** The searches for a free name by a growing decimal suffix, shared by the flag, use and control
    flag allocators. */
module SuffixSearch {
  import opened Decimal

  /** base, base-2, base-3, ... */
  function Candidate(base: string, n: nat): string {
    if n <= 1 then base else base + "-" + Itoa(n)
  }

  lemma CandidatesDiffer(base: string, i: nat, j: nat)
    requires 1 <= i < j
    ensures Candidate(base, i) != Candidate(base, j)
  {
    if i == 1 {
      assert |Candidate(base, j)| > |base|;
    } else if Candidate(base, i) == Candidate(base, j) {
      assert Candidate(base, i)[|base| + 1..] == Itoa(i);
      assert Candidate(base, j)[|base| + 1..] == Itoa(j);
      ItoaInjective(i, j);
    }
  }

  ghost predicate CandidateFrom(u: string, base: string, n: nat) {
    exists k: nat :: k >= n && u == Candidate(base, k)
  }

  /** The used names that the search can still run into. */
  ghost function Ahead(used: set<string>, base: string, n: nat): set<string> {
    set u | u in used && CandidateFrom(u, base, n)
  }

  /** Each failed candidate is gone from what lies ahead, so the search ends. */
  lemma AheadShrinks(used: set<string>, base: string, n: nat)
    requires 1 <= n && Candidate(base, n) in used
    ensures Ahead(used, base, n + 1) < Ahead(used, base, n)
  {
    var taken := Candidate(base, n);
    assert taken in Ahead(used, base, n);
    assert taken !in Ahead(used, base, n + 1) by {
      if CandidateFrom(taken, base, n + 1) {
        var k: nat :| k >= n + 1 && taken == Candidate(base, k);
        CandidatesDiffer(base, n, k);
      }
    }
    forall u | u in Ahead(used, base, n + 1) ensures u in Ahead(used, base, n) {
      var k: nat :| k >= n + 1 && u == Candidate(base, k);
    }
  }

  /** The first free candidate from number `n` on. */
  function FirstFree(used: set<string>, base: string, n: nat): (m: nat)
    requires 1 <= n
    ensures n <= m && Candidate(base, m) !in used
    decreases Ahead(used, base, n)
  {
    if Candidate(base, n) !in used then n
    else
      AheadShrinks(used, base, n);
      FirstFree(used, base, n + 1)
  }

  /** It is the first: every earlier candidate is used. */
  lemma {:induction false} EarlierUsed(used: set<string>, base: string, n: nat)
    requires 1 <= n
    ensures forall k :: n <= k < FirstFree(used, base, n) ==> Candidate(base, k) in used
    decreases Ahead(used, base, n)
  {
    if Candidate(base, n) !in used {
    } else {
      AheadShrinks(used, base, n);
      EarlierUsed(used, base, n + 1);
    }
  }

  /** A name as it is when free, and otherwise the first free candidate behind the prefix. */
  function Allocate(used: set<string>, prefix: string, name: string): (free: string)
    ensures free !in used
    ensures name !in used ==> free == name
  {
    if name !in used then name else Candidate(prefix + name, FirstFree(used, prefix + name, 1))
  }

  /** The suffix loop of the flag passes and of controlFlagName. */
  method AllocateName(used: set<string>, prefix: string, name: string) returns (free: string)
    ensures free == Allocate(used, prefix, name)
  {
    free := name;
    if free in used {
      var base := prefix + name;
      free := base;
      var suffix := 2;
      while free in used
        invariant 2 <= suffix && free == Candidate(base, suffix - 1)
        invariant FirstFree(used, base, suffix - 1) == FirstFree(used, base, 1)
        decreases Ahead(used, base, suffix - 1)
      {
        AheadShrinks(used, base, suffix - 1);
        free := base + "-" + Itoa(suffix);
        suffix := suffix + 1;
      }
    }
  }

  /** Control flags are added one after another to what the command already has. */
  function AllocateAll(used: set<string>, prefix: string, names: seq<string>): seq<string>
    decreases |names|
  {
    if names == [] then []
    else
      var free := Allocate(used, prefix, names[0]);
      [free] + AllocateAll(used + {free}, prefix, names[1..])
  }

  predicate Distinct(names: seq<string>) {
    forall i, j :: 0 <= i < j < |names| ==> names[i] != names[j]
  }

  predicate AllFree(names: seq<string>, used: set<string>) {
    forall i :: 0 <= i < |names| ==> names[i] !in used
  }

  /** They never clash, with the command's own flags or with one another. */
  lemma {:induction false} AllocatedApart(used: set<string>, prefix: string, names: seq<string>)
    ensures var free := AllocateAll(used, prefix, names);
            |free| == |names| && Distinct(free) && AllFree(free, used)
    decreases |names|
  {
    if names == [] {
    } else {
      AllocatedApart(used + {Allocate(used, prefix, names[0])}, prefix, names[1..]);
    }
  }

  lemma {:induction false} FreeNamesStay(used: set<string>, prefix: string, names: seq<string>)
    requires Distinct(names) && AllFree(names, used)
    ensures AllocateAll(used, prefix, names) == names
    decreases |names|
  {
    if names == [] {
    } else {
      var rest := names[1..];
      assert forall i :: 0 <= i < |rest| ==> rest[i] == names[i + 1];
      assert AllFree(rest, used + {names[0]}) && Distinct(rest);
      FreeNamesStay(used + {names[0]}, prefix, rest);
      assert names == [names[0]] + rest;
    }
  }

  /** They are left alone exactly when they are distinct and none of them is used. */
  lemma AllocatedUnchangedIff(used: set<string>, prefix: string, names: seq<string>)
    ensures AllocateAll(used, prefix, names) == names <==> Distinct(names) && AllFree(names, used)
  {
    AllocatedApart(used, prefix, names);
    if Distinct(names) && AllFree(names, used) {
      FreeNamesStay(used, prefix, names);
    }
  }
}
