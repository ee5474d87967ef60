/** Shortcuts at the root: the runtime's check, and the code generator's (pkg/runtime/build.go,
    internal/codegen/render/paths.go). */
module Shortcuts {
  import opened Text
  import opened CommandPaths

  function AllShortcuts(specs: seq<CommandSpec>): seq<Shortcut> {
    if specs == [] then [] else AllShortcuts(specs[..|specs| - 1]) + specs[|specs| - 1].shortcuts
  }

  function NamesIn(shortcuts: seq<Shortcut>): set<string> {
    set s | s in shortcuts :: s.use
  }

  predicate SingleWord(name: string) {
    name != "" && IsWord(name)
  }

  /** Every shortcut is one word, fits its command and has a name of its own that no root command has. */
  predicate ShortcutsValid(shortcuts: seq<Shortcut>, roots: set<string>) {
    && (forall i :: 0 <= i < |shortcuts| ==>
          SingleWord(shortcuts[i].use) && shortcuts[i].fits && shortcuts[i].use !in roots)
    && (forall i, j :: 0 <= i < j < |shortcuts| ==> shortcuts[i].use != shortcuts[j].use)
  }

  /** shortcutName: trimmed already, and one field. */
  predicate ShortcutName(use: string) {
    TrimSpace(use) != "" && TrimSpace(use) == use && FirstWord(use) == use
  }

  lemma NameIsSingleWord(use: string)
    ensures ShortcutName(use) <==> SingleWord(use)
  {
    FirstWordIsWord(use);
    if SingleWord(use) {
      TrimSpaceStops(use);
      WordIsFirst(use);
    }
  }

  lemma ValidSnoc(init: seq<Shortcut>, last: Shortcut, roots: set<string>)
    ensures ShortcutsValid(init + [last], roots)
       <==> ShortcutsValid(init, roots) && SingleWord(last.use) && last.fits && last.use !in roots
            && last.use !in NamesIn(init)
    ensures NamesIn(init + [last]) == NamesIn(init) + {last.use}
  {
    var all := init + [last];
    assert all[|init|] == last && forall i :: 0 <= i < |init| ==> all[i] == init[i];
    forall name ensures name in NamesIn(all) <==> name in NamesIn(init) + {last.use} {
      if name in NamesIn(init) {
        var s :| s in init && s.use == name;
        assert s in all;
      }
      assert last in all;
    }
    if ShortcutsValid(all, roots) {
      forall s | s in init ensures s.use != last.use {
        var i :| 0 <= i < |init| && init[i] == s;
        assert all[i].use != all[|init|].use;
      }
    }
  }

  lemma ValidPrefix(a: seq<Shortcut>, b: seq<Shortcut>, roots: set<string>)
    requires ShortcutsValid(a + b, roots)
    ensures ShortcutsValid(a, roots)
  {
    assert forall i :: 0 <= i < |a| ==> (a + b)[i] == a[i];
  }

  /** The inner loop: the shortcuts of one command. */
  method AddShortcuts(ghost before: seq<Shortcut>, shortcuts: seq<Shortcut>, roots: set<string>, names: set<string>)
    returns (seen: set<string>, ok: bool)
    requires ShortcutsValid(before, roots) && names == NamesIn(before)
    ensures ok <==> ShortcutsValid(before + shortcuts, roots)
    ensures ok ==> seen == NamesIn(before + shortcuts)
  {
    seen, ok := names, true;
    assert before + [] == before;
    for k := 0 to |shortcuts|
      invariant ShortcutsValid(before + shortcuts[..k], roots) && seen == NamesIn(before + shortcuts[..k])
    {
      var s := shortcuts[k];
      ghost var next := before + shortcuts[..k] + [s];
      assert before + shortcuts[..k + 1] == next;
      ValidSnoc(before + shortcuts[..k], s, roots);
      NameIsSingleWord(s.use);
      if !ShortcutName(s.use) || s.use in roots || s.use in seen || !s.fits {
        assert before + shortcuts == next + shortcuts[k + 1..];
        if ShortcutsValid(before + shortcuts, roots) {
          ValidPrefix(next, shortcuts[k + 1..], roots);
        }
        return seen, false;
      }
      seen := seen + {s.use};
    }
    assert shortcuts[..|shortcuts|] == shortcuts;
  }

  lemma {:induction false} AllValidPrefix(specs: seq<CommandSpec>, n: nat, roots: set<string>)
    requires n <= |specs| && ShortcutsValid(AllShortcuts(specs), roots)
    ensures ShortcutsValid(AllShortcuts(specs[..n]), roots)
    decreases |specs|
  {
    if n == |specs| {
      assert specs[..n] == specs;
    } else {
      var init := specs[..|specs| - 1];
      ValidPrefix(AllShortcuts(init), specs[|specs| - 1].shortcuts, roots);
      AllValidPrefix(init, n, roots);
      assert init[..n] == specs[..n];
    }
  }

  /** The runtime's ValidateShortcuts; `roots` are the names and aliases at the root. */
  method ValidateShortcuts(specs: seq<CommandSpec>, roots: set<string>) returns (ok: bool)
    ensures ok <==> ShortcutsValid(AllShortcuts(specs), roots)
  {
    var seen: set<string> := {};
    for i := 0 to |specs|
      invariant ShortcutsValid(AllShortcuts(specs[..i]), roots) && seen == NamesIn(AllShortcuts(specs[..i]))
    {
      assert specs[..i + 1][..i] == specs[..i];
      seen, ok := AddShortcuts(AllShortcuts(specs[..i]), specs[i].shortcuts, roots, seen);
      if !ok {
        if ShortcutsValid(AllShortcuts(specs), roots) {
          AllValidPrefix(specs, i + 1, roots);
        }
        return;
      }
    }
    assert specs[..|specs|] == specs;
    ok := true;
  }

  // ----- the generator's check of a flat mount

  /** The root names that the generator plans: the reserved ones and the groups'. */
  function PlannedRoots(lower: Casing, reserved: set<string>, specs: seq<CommandSpec>): set<string> {
    reserved + set i | 0 <= i < |specs| :: RootCommandName(lower, specs[i].group)
  }

  /** Fewer root names admit as many shortcuts. */
  lemma FewerRoots(shortcuts: seq<Shortcut>, roots: set<string>, fewer: set<string>)
    requires ShortcutsValid(shortcuts, roots) && fewer <= roots
    ensures ShortcutsValid(shortcuts, fewer)
  {
  }
}
