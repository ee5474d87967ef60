/** Command paths: the code generator's flat-mount check (internal/codegen/render/paths.go) and the
    runtime's own when it mounts (pkg/runtime/build.go). */
module CommandPaths {
  import opened Wrappers
  import opened Text
  import ParamFlags

  /** A root command that runs another one with preset parameters; `fits` tells whether these are
      parameters of the command and their values have the right types. */
  datatype Shortcut = Shortcut(use: string, fits: bool)

  datatype CommandSpec = CommandSpec(group: string, groupShort: string, use: string, aliases: seq<string>,
                                     params: seq<ParamFlags.ParamSpec>, shortcuts: seq<Shortcut>)

  /** strings.ToLower is a parameter. */
  type Casing = string -> string

  // ----- names

  /** One past the last character of the word that starts at `i`. */
  function WordEnd(s: string, i: nat): (end: nat)
    requires i <= |s|
    ensures i <= end <= |s|
    decreases |s| - i
  {
    if i < |s| && !IsSpace(s[i]) then WordEnd(s, i + 1) else i
  }

  /** The first of strings.Fields, empty when there is none. */
  function FirstWord(s: string): string {
    var from := LeftEdge(s, IsSpace, 0);
    s[from..WordEnd(s, from)]
  }

  function CommandUseName(use: string): string {
    FirstWord(use)
  }

  function RootCommandName(lower: Casing, use: string): string {
    FirstWord(lower(use))
  }

  /** cobra's Command.Name: the use line up to its first blank. */
  function CobraName(use: string): string {
    Cut(use, " ").before
  }

  predicate IsWord(s: string) {
    forall i :: 0 <= i < |s| ==> !IsSpace(s[i])
  }

  lemma {:induction false} WordEndStops(s: string, i: nat)
    requires i <= |s|
    ensures var end := WordEnd(s, i);
            (forall k :: i <= k < end ==> !IsSpace(s[k])) && (end < |s| ==> IsSpace(s[end]))
    decreases |s| - i
  {
    if i == |s| || IsSpace(s[i]) {
    } else {
      WordEndStops(s, i + 1);
    }
  }

  lemma FirstWordIsWord(s: string)
    ensures IsWord(FirstWord(s))
  {
    WordEndStops(s, LeftEdge(s, IsSpace, 0));
  }

  lemma WordIsFirst(s: string)
    requires IsWord(s)
    ensures FirstWord(s) == s
  {
    WordEndStops(s, 0);
    assert s[0..|s|] == s;
  }

  // ----- lists of paths

  predicate Apart(a: seq<string>, b: seq<string>) {
    forall i, j :: 0 <= i < |a| && 0 <= j < |b| ==> a[i] != b[j]
  }

  /** No path belongs to two commands. */
  predicate AllApart(paths: seq<seq<string>>) {
    forall i, j :: 0 <= i < j < |paths| ==> Apart(paths[i], paths[j])
  }

  type Owners = map<string, nat>

  predicate Owned(paths: seq<seq<string>>, seen: Owners, path: string) {
    path in seen && seen[path] < |paths| && path in paths[seen[path]]
  }

  /** Which command each path belongs to. */
  ghost predicate Owning(paths: seq<seq<string>>, seen: Owners) {
    && (forall i, path :: 0 <= i < |paths| && path in paths[i] ==> path in seen)
    && (forall path :: path in seen ==> Owned(paths, seen, path))
  }

  /** What one more command adds. */
  ghost predicate Adds(before: Owners, index: nat, added: seq<string>, seen: Owners) {
    && (forall path :: path in before ==> path in seen && seen[path] == before[path])
    && (forall path :: path in seen && path !in before ==> seen[path] == index && path in added)
    && (forall k :: 0 <= k < |added| ==> added[k] in seen && added[k] !in before)
  }

  lemma OwningGrows(paths: seq<seq<string>>, added: seq<string>, before: Owners, seen: Owners)
    requires Owning(paths, before) && Adds(before, |paths|, added, seen)
    ensures Owning(paths + [added], seen)
    ensures forall j :: 0 <= j < |paths| ==> Apart(paths[j], added)
  {
    var more := paths + [added];
    forall path | path in seen ensures Owned(more, seen, path) {
      if path in before {
        assert Owned(paths, before, path);
      }
    }
    forall j | 0 <= j < |paths| ensures Apart(paths[j], added) {
      assert forall path :: path in paths[j] ==> path in before;
    }
  }

  lemma OwnedClash(paths: seq<seq<string>>, before: Owners, added: seq<string>, k: nat)
    requires Owning(paths, before) && k < |added| && added[k] in before
    ensures exists j :: 0 <= j < |paths| && !Apart(paths[j], added)
  {
    assert Owned(paths, before, added[k]);
    var j := before[added[k]];
    var i :| 0 <= i < |paths[j]| && paths[j][i] == added[k];
    assert !Apart(paths[j], added);
  }

  lemma AddOne(before: Owners, index: nat, added: seq<string>, seen: Owners, path: string)
    requires Adds(before, index, added, seen) && path !in before && (path in seen ==> seen[path] == index)
    ensures Adds(before, index, added + [path], seen[path := index])
  {
  }

  lemma OwnerIsEarlier(paths: seq<seq<string>>, before: Owners, path: string)
    requires Owning(paths, before)
    ensures path in before ==> before[path] < |paths|
  {
    if path in before {
      assert Owned(paths, before, path);
    }
  }

  lemma ApartSnoc(paths: seq<seq<string>>, added: seq<string>)
    requires AllApart(paths)
    ensures AllApart(paths + [added]) <==> forall j :: 0 <= j < |paths| ==> Apart(paths[j], added)
  {
    var more := paths + [added];
    assert forall j :: 0 <= j < |paths| ==> more[j] == paths[j];
    assert more[|paths|] == added;
    if AllApart(more) {
      forall j | 0 <= j < |paths| ensures Apart(paths[j], added) {
        assert Apart(more[j], more[|paths|]);
      }
    }
  }

  lemma ApartPrefix(paths: seq<seq<string>>, n: nat)
    requires n <= |paths| && AllApart(paths)
    ensures AllApart(paths[..n])
  {
  }

  /** The inner loops of validateCommandPaths and buildGroups: claim paths for one command. */
  method ClaimPaths(ghost paths: seq<seq<string>>, index: nat, added: seq<string>, before: Owners)
    returns (seen: Owners, ok: bool)
    requires index == |paths| && Owning(paths, before) && AllApart(paths)
    ensures ok <==> AllApart(paths + [added])
    ensures ok ==> Owning(paths + [added], seen)
  {
    seen, ok := before, true;
    ApartSnoc(paths, added);
    for k := 0 to |added|
      invariant Adds(before, index, added[..k], seen)
    {
      assert added[..k + 1] == added[..k] + [added[k]];
      if added[k] in seen && seen[added[k]] != index {
        OwnedClash(paths, before, added, k);
        return seen, false;
      }
      OwnerIsEarlier(paths, before, added[k]);
      AddOne(before, index, added[..k], seen, added[k]);
      seen := seen[added[k] := index];
    }
    assert added[..|added|] == added;
    OwningGrows(paths, added, before, seen);
  }

  /** One command more, seen from the list of all paths. */
  method ClaimNext(ghost paths: seq<seq<string>>, index: nat, added: seq<string>, before: Owners)
    returns (seen: Owners, ok: bool)
    requires index < |paths| && added == paths[index] && Owning(paths[..index], before) && AllApart(paths[..index])
    ensures ok ==> Owning(paths[..index + 1], seen) && AllApart(paths[..index + 1])
    ensures !ok ==> !AllApart(paths)
  {
    seen, ok := ClaimPaths(paths[..index], index, added, before);
    assert paths[..index + 1] == paths[..index] + [paths[index]];
    if AllApart(paths) {
      ApartPrefix(paths, index + 1);
    }
  }

  // ----- code generation

  function UseNames(spec: CommandSpec): (names: seq<string>)
    ensures |names| == 1 + |spec.aliases|
  {
    [CommandUseName(spec.use)]
    + seq(|spec.aliases|, i requires 0 <= i < |spec.aliases| => CommandUseName(spec.aliases[i]))
  }

  function Under(group: string, names: seq<string>): (paths: seq<string>)
    ensures |paths| == |names| && forall i :: 0 <= i < |names| ==> paths[i] == group + " " + names[i]
  {
    seq(|names|, i requires 0 <= i < |names| => group + " " + names[i])
  }

  function GeneratedPaths(lower: Casing, spec: CommandSpec): seq<string> {
    Under(RootCommandName(lower, spec.group), UseNames(spec))
  }

  function AllGenerated(lower: Casing, specs: seq<CommandSpec>): (paths: seq<seq<string>>)
    ensures |paths| == |specs|
    ensures forall i :: 0 <= i < |specs| ==> paths[i] == GeneratedPaths(lower, specs[i])
  {
    seq(|specs|, i requires 0 <= i < |specs| => GeneratedPaths(lower, specs[i]))
  }

  predicate NamedSpec(lower: Casing, spec: CommandSpec) {
    RootCommandName(lower, spec.group) != "" && "" !in UseNames(spec)
  }

  /** What validateCommandPaths accepts: no empty name, no path shared by two commands. */
  predicate PathsValid(lower: Casing, specs: seq<CommandSpec>) {
    (forall i :: 0 <= i < |specs| ==> NamedSpec(lower, specs[i])) && AllApart(AllGenerated(lower, specs))
  }

  method ValidateCommandPaths(lower: Casing, specs: seq<CommandSpec>) returns (ok: bool)
    ensures ok <==> PathsValid(lower, specs)
  {
    var seen: Owners := map[];
    ghost var paths := AllGenerated(lower, specs);
    for index := 0 to |specs|
      invariant Owning(paths[..index], seen) && AllApart(paths[..index])
      invariant forall i :: 0 <= i < index ==> NamedSpec(lower, specs[i])
    {
      var named, added := GeneratedNames(lower, specs[index]);
      if !named {
        return false;
      }
      seen, ok := ClaimNext(paths, index, added, seen);
      if !ok {
        return;
      }
    }
    assert paths[..|specs|] == paths;
    ok := true;
  }

  /** The names and paths of one command; none of them may be empty. */
  method GeneratedNames(lower: Casing, spec: CommandSpec) returns (named: bool, paths: seq<string>)
    ensures named == NamedSpec(lower, spec) && paths == GeneratedPaths(lower, spec)
  {
    var group, names := RootCommandName(lower, spec.group), UseNames(spec);
    named, paths := group != "" && "" !in names, Under(group, names);
  }

  // ----- root names

  datatype Root = Root(name: string, group: string)

  function Roots(lower: Casing, specs: seq<CommandSpec>): (roots: seq<Root>)
    ensures |roots| == |specs|
    ensures forall i :: 0 <= i < |specs| ==> roots[i] == Root(RootCommandName(lower, specs[i].group), specs[i].group)
  {
    seq(|specs|, i requires 0 <= i < |specs| => Root(RootCommandName(lower, specs[i].group), specs[i].group))
  }

  predicate SameRoot(a: Root, b: Root) {
    a.name == b.name != "" && a.group != b.group
  }

  /** What flatPathConflict finds: a reserved name, or one root name for two groups. */
  predicate Clash(roots: seq<Root>, reserved: set<string>) {
    || (exists i :: 0 <= i < |roots| && roots[i].name != "" && roots[i].name in reserved)
    || (exists i, j :: 0 <= i < |roots| && 0 <= j < |roots| && SameRoot(roots[i], roots[j]))
  }

  predicate FlatClash(lower: Casing, reserved: set<string>, specs: seq<CommandSpec>) {
    Clash(Roots(lower, specs), reserved)
  }

  type Groups = map<string, string>

  /** The first `n` roots do not clash, and `seen` holds the group of each name. */
  ghost predicate Recorded(roots: seq<Root>, n: nat, reserved: set<string>, seen: Groups)
    requires n <= |roots|
  {
    && (forall k :: 0 <= k < n && roots[k].name != "" ==>
          roots[k].name !in reserved && roots[k].name in seen && seen[roots[k].name] == roots[k].group)
    && (forall name :: name in seen ==> name != "" && Root(name, seen[name]) in roots[..n])
  }

  lemma RecordedApart(roots: seq<Root>, reserved: set<string>, seen: Groups)
    requires Recorded(roots, |roots|, reserved, seen)
    ensures !Clash(roots, reserved)
  {
  }

  lemma RecordedClash(roots: seq<Root>, n: nat, reserved: set<string>, seen: Groups)
    requires n < |roots| && Recorded(roots, n, reserved, seen)
    requires roots[n].name in seen && seen[roots[n].name] != roots[n].group
    ensures Clash(roots, reserved)
  {
    var other := Root(roots[n].name, seen[roots[n].name]);
    assert other in roots[..n];
    var k :| 0 <= k < n && roots[..n][k] == other;
    assert SameRoot(roots[k], roots[n]);
  }

  /** One root more. */
  method AddRoot(ghost roots: seq<Root>, n: nat, root: Root, reserved: set<string>, before: Groups)
    returns (seen: Groups, conflict: bool)
    requires n < |roots| && root == roots[n] && Recorded(roots, n, reserved, before)
    ensures conflict ==> Clash(roots, reserved)
    ensures !conflict ==> Recorded(roots, n + 1, reserved, seen)
  {
    seen, conflict := before, false;
    assert roots[..n + 1] == roots[..n] + [root];
    if root.name == "" {
      return;
    }
    if root.name in reserved {
      return seen, true;
    }
    if root.name in seen && seen[root.name] != root.group {
      RecordedClash(roots, n, reserved, before);
      return seen, true;
    }
    seen := seen[root.name := root.group];
  }

  method FlatPathConflict(lower: Casing, reserved: set<string>, specs: seq<CommandSpec>) returns (conflict: bool)
    ensures conflict <==> FlatClash(lower, reserved, specs)
  {
    ghost var roots := Roots(lower, specs);
    var seen: Groups := map[];
    for i := 0 to |specs|
      invariant Recorded(roots, i, reserved, seen)
    {
      seen, conflict := AddRoot(roots, i, Root(RootCommandName(lower, specs[i].group), specs[i].group), reserved, seen);
      if conflict {
        return;
      }
    }
    RecordedApart(roots, reserved, seen);
    conflict := false;
  }

  datatype PathPolicy = Unset | Auto | Namespaced | Flat | UnknownPolicy

  /** ResolveFlatCommandPath: `Some(true)` mounts flat, `None` is an error. */
  method ResolveFlatCommandPath(lower: Casing, reserved: set<string>, policy: PathPolicy, moduleCount: int,
                                specs: seq<CommandSpec>) returns (flat: Option<bool>)
    ensures flat == Resolution(lower, reserved, policy, moduleCount, specs)
    ensures flat == None <==>
      || !PathsValid(lower, specs)
      || (policy == Flat && (moduleCount != 1 || FlatClash(lower, reserved, specs)))
      || (policy == UnknownPolicy && moduleCount == 1)
    ensures flat == Some(true) <==>
      && PathsValid(lower, specs) && moduleCount == 1 && !FlatClash(lower, reserved, specs)
      && (policy == Unset || policy == Auto || policy == Flat)
  {
    var valid := ValidateCommandPaths(lower, specs);
    if !valid {
      return None;
    }
    var resolved := if policy == Unset then Auto else policy;
    if moduleCount != 1 {
      return if resolved == Flat then None else Some(false);
    }
    match resolved {
      case Namespaced =>
        return Some(false);
      case Flat =>
        var conflict := FlatPathConflict(lower, reserved, specs);
        return if conflict then None else Some(true);
      case Auto =>
        var conflict := FlatPathConflict(lower, reserved, specs);
        return Some(!conflict);
      case _ =>
        return None;
    }
  }

  function Resolution(lower: Casing, reserved: set<string>, policy: PathPolicy, moduleCount: int,
                      specs: seq<CommandSpec>)
    : Option<bool>
  {
    if !PathsValid(lower, specs) then None
    else if moduleCount != 1 then (if policy == Flat then None else Some(false))
    else
      match policy
      case Namespaced => Some(false)
      case Flat => if FlatClash(lower, reserved, specs) then None else Some(true)
      case UnknownPolicy => None
      case _ => Some(!FlatClash(lower, reserved, specs))
  }
}
