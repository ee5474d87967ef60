/** Which elements a list without repetitions keeps. */
module Occurrences {
  /** The element at `i` stands there for the first time. */
  predicate FirstAt<T(==)>(items: seq<T>, i: nat) {
    i < |items| && items[i] !in items[..i]
  }

  /** `firsts` lists the elements that stand for the first time at the positions `at`, in order. */
  predicate Picks<T(==)>(items: seq<T>, firsts: seq<T>, at: seq<nat>) {
    && |at| == |firsts|
    && (forall k :: 0 <= k < |at| ==> FirstAt(items, at[k]) && firsts[k] == items[at[k]])
    && (forall k, l :: 0 <= k < l < |at| ==> at[k] < at[l])
  }

  predicate NoRepeats<T(==)>(items: seq<T>) {
    forall i, j :: 0 <= i < j < |items| ==> items[i] != items[j]
  }

  lemma PicksOnce<T>(items: seq<T>, firsts: seq<T>, at: seq<nat>)
    requires Picks(items, firsts, at)
    ensures NoRepeats(firsts)
  {
    forall k, l | 0 <= k < l < |firsts| ensures firsts[k] != firsts[l] {
      assert items[at[k]] in items[..at[l]];
    }
  }

  /** One element more: it is picked when it is new. */
  lemma PicksSnoc<T>(items: seq<T>, n: nat, firsts: seq<T>, at: seq<nat>)
    requires n < |items| && Picks(items[..n], firsts, at)
    ensures Picks(items, firsts, at)
    ensures items[n] !in items[..n] ==> Picks(items, firsts + [items[n]], at + [n])
  {
    FirstInPrefix(items, n);
    assert forall k :: 0 <= k < |at| ==> FirstAt(items[..n], at[k]);
  }

  /** Earlier positions are the same in a prefix. */
  lemma FirstInPrefix<T>(items: seq<T>, n: nat)
    requires n <= |items|
    ensures forall i: nat :: i < n ==> (FirstAt(items[..n], i) <==> FirstAt(items, i))
  {
    assert forall i: nat :: i < n ==> items[..n][..i] == items[..i];
  }
}
