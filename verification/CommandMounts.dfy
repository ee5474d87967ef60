/** What the runtime checks when it mounts generated commands (pkg/runtime/build.go), and why what the
    code generator accepts for a flat mount passes. */
module CommandMounts {
  import opened Wrappers
  import opened Text
  import opened CommandPaths
  import opened FlagBindings
  import opened SensitiveParams
  import opened Shortcuts

  // ----- mounting

  function ShortOf(spec: CommandSpec): string {
    if spec.groupShort == "" then spec.group + " operations" else spec.groupShort
  }

  function GroupName(lower: Casing, group: string): string {
    CobraName(lower(group))
  }

  /** The names cobra knows one command by. */
  function MountedNames(spec: CommandSpec): (names: seq<string>)
    ensures |names| == 1 + |spec.aliases|
  {
    [CobraName(spec.use)] + spec.aliases
  }

  function MountedPaths(lower: Casing, spec: CommandSpec): seq<string> {
    Under(GroupName(lower, spec.group), MountedNames(spec))
  }

  function AllMounted(lower: Casing, specs: seq<CommandSpec>): (paths: seq<seq<string>>)
    ensures |paths| == |specs|
    ensures forall i :: 0 <= i < |specs| ==> paths[i] == MountedPaths(lower, specs[i])
  {
    seq(|specs|, i requires 0 <= i < |specs| => MountedPaths(lower, specs[i]))
  }

  /** A group and the description one of its commands gives it. */
  datatype Tag = Tag(group: string, text: string)

  function Tags(specs: seq<CommandSpec>): (tags: seq<Tag>)
    ensures |tags| == |specs|
    ensures forall i :: 0 <= i < |specs| ==> tags[i] == Tag(specs[i].group, ShortOf(specs[i]))
  {
    seq(|specs|, i requires 0 <= i < |specs| => Tag(specs[i].group, ShortOf(specs[i])))
  }

  predicate TagsAgree(tags: seq<Tag>) {
    forall i, j :: 0 <= i < |tags| && 0 <= j < |tags| && tags[i].group == tags[j].group ==>
      tags[i].text == tags[j].text
  }

  predicate DescriptionsAgree(specs: seq<CommandSpec>) {
    TagsAgree(Tags(specs))
  }

  /** Commands of one group describe it alike, one without a description as its name with "operations". */
  lemma DescriptionsMean(specs: seq<CommandSpec>)
    ensures DescriptionsAgree(specs) <==>
      forall i, j :: 0 <= i < |specs| && 0 <= j < |specs| && specs[i].group == specs[j].group ==>
        || specs[i].groupShort == specs[j].groupShort
        || (specs[i].groupShort == "" && specs[j].groupShort == specs[i].group + " operations")
        || (specs[j].groupShort == "" && specs[i].groupShort == specs[i].group + " operations")
  {
    var tags := Tags(specs);
    if TagsAgree(tags) {
      forall i, j | 0 <= i < |specs| && 0 <= j < |specs| && specs[i].group == specs[j].group
        ensures tags[i].text == tags[j].text
      {
        assert tags[i].group == tags[j].group;
      }
    }
    assert forall spec: CommandSpec :: ShortOf(spec) != "";
  }

  /** The flags of a command's parameters are accepted. */
  predicate FlagsAccepted(spec: CommandSpec) {
    Agree(AllClaims(spec.params, IsSensitive))
  }

  function FlagChecks(specs: seq<CommandSpec>): (checks: seq<bool>)
    ensures |checks| == |specs| && forall i :: 0 <= i < |specs| ==> checks[i] == FlagsAccepted(specs[i])
  {
    seq(|specs|, i requires 0 <= i < |specs| => FlagsAccepted(specs[i]))
  }

  predicate AllTrue(checks: seq<bool>) {
    forall i :: 0 <= i < |checks| ==> checks[i]
  }

  predicate FlagsValid(specs: seq<CommandSpec>) {
    AllTrue(FlagChecks(specs))
  }

  predicate Fits(checks: seq<bool>, tags: seq<Tag>, paths: seq<seq<string>>) {
    AllTrue(checks) && TagsAgree(tags) && AllApart(paths)
  }

  /** What buildGroups accepts: every command's flags, one description a group, no path of two commands. */
  predicate Buildable(lower: Casing, specs: seq<CommandSpec>) {
    Fits(FlagChecks(specs), Tags(specs), AllMounted(lower, specs))
  }

  /** The groups in order of first appearance. */
  function GroupsOf(tags: seq<Tag>): (groups: seq<string>)
    ensures forall group :: group in groups <==> exists i :: 0 <= i < |tags| && tags[i].group == group
  {
    if tags == [] then []
    else
      var init, last := tags[..|tags| - 1], tags[|tags| - 1];
      assert forall i :: 0 <= i < |init| ==> tags[i] == init[i];
      if last.group in GroupsOf(init) then GroupsOf(init) else GroupsOf(init) + [last.group]
  }

  /** The descriptions so far: exactly those of the tags. */
  ghost predicate Describes(tags: seq<Tag>, shorts: map<string, string>) {
    && (forall i :: 0 <= i < |tags| ==> tags[i].group in shorts && shorts[tags[i].group] == tags[i].text)
    && (forall group :: group in shorts ==> group in GroupsOf(tags))
  }

  lemma DescribedAgree(tags: seq<Tag>, shorts: map<string, string>)
    requires Describes(tags, shorts)
    ensures TagsAgree(tags)
  {
  }

  /** The group of one command: known with this description, known with another, or new. */
  method AddGroup(ghost tags: seq<Tag>, tag: Tag, before: map<string, string>, ordered: seq<string>)
    returns (shorts: map<string, string>, groups: seq<string>, ok: bool)
    requires Describes(tags, before) && ordered == GroupsOf(tags)
    ensures ok ==> Describes(tags + [tag], shorts) && groups == GroupsOf(tags + [tag])
    ensures !ok ==> !TagsAgree(tags + [tag])
  {
    ghost var more := tags + [tag];
    assert more[..|more| - 1] == tags && more[|tags|] == tag;
    assert forall i :: 0 <= i < |tags| ==> more[i] == tags[i];
    shorts, groups, ok := before, ordered, true;
    if tag.group !in shorts {
      if tag.group in GroupsOf(tags) {
        assert false;
      }
      shorts := shorts[tag.group := tag.text];
      groups := groups + [tag.group];
    } else if shorts[tag.group] != tag.text {
      ghost var i :| 0 <= i < |tags| && tags[i].group == tag.group;
      assert more[i].text != more[|tags|].text;
      ok := false;
    }
  }

  lemma TagsPrefix(tags: seq<Tag>, n: nat)
    requires n <= |tags|
    ensures TagsAgree(tags) ==> TagsAgree(tags[..n])
  {
  }

  /** The same, seen from the list of all tags. */
  method AddNextGroup(ghost tags: seq<Tag>, n: nat, tag: Tag, before: map<string, string>, ordered: seq<string>)
    returns (shorts: map<string, string>, groups: seq<string>, ok: bool)
    requires n < |tags| && tag == tags[n] && Describes(tags[..n], before) && ordered == GroupsOf(tags[..n])
    ensures ok ==> Describes(tags[..n + 1], shorts) && groups == GroupsOf(tags[..n + 1])
    ensures !ok ==> !TagsAgree(tags)
  {
    ghost var init, next := tags[..n], tags[..n + 1];
    assert next == init + [tag];
    shorts, groups, ok := AddGroup(init, tag, before, ordered);
    if !ok {
      TagsPrefix(tags, n + 1);
    }
  }

  /** The flags, groups and paths of the first `n` commands are known, and nothing clashed. */
  ghost predicate Built(checks: seq<bool>, tags: seq<Tag>, paths: seq<seq<string>>, n: nat,
                        shorts: map<string, string>, ordered: seq<string>, seen: Owners)
    requires n <= |checks| == |tags| == |paths|
  {
    && AllTrue(checks[..n])
    && Describes(tags[..n], shorts) && ordered == GroupsOf(tags[..n])
    && Owning(paths[..n], seen) && AllApart(paths[..n])
  }

  lemma ChecksSnoc(checks: seq<bool>, n: nat)
    requires n < |checks|
    ensures AllTrue(checks[..n + 1]) <==> AllTrue(checks[..n]) && checks[n]
  {
    assert checks[..n + 1] == checks[..n] + [checks[n]];
  }

  /** One round of the loop: the flags, then the group, then the paths. */
  method MountNext(ghost checks: seq<bool>, ghost tags: seq<Tag>, ghost paths: seq<seq<string>>, n: nat,
                   check: bool, tag: Tag, added: seq<string>,
                   before: map<string, string>, groups: seq<string>, owners: Owners)
    returns (shorts: map<string, string>, ordered: seq<string>, seen: Owners, ok: bool)
    requires n < |checks| == |tags| == |paths| && check == checks[n] && tag == tags[n] && added == paths[n]
    requires Built(checks, tags, paths, n, before, groups, owners)
    ensures ok ==> Built(checks, tags, paths, n + 1, shorts, ordered, seen)
    ensures !ok ==> !Fits(checks, tags, paths)
  {
    ChecksSnoc(checks, n);
    seen := owners;
    if !check {
      return before, groups, seen, false;
    }
    shorts, ordered, ok := AddNextGroup(tags, n, tag, before, groups);
    if ok {
      seen, ok := ClaimNext(paths, n, added, owners);
    }
  }

  lemma BuiltAll(checks: seq<bool>, tags: seq<Tag>, paths: seq<seq<string>>, shorts: map<string, string>,
                 ordered: seq<string>, seen: Owners)
    requires |checks| == |tags| == |paths| && Built(checks, tags, paths, |tags|, shorts, ordered, seen)
    ensures Fits(checks, tags, paths) && ordered == GroupsOf(tags)
  {
    assert checks[..|tags|] == checks && tags[..|tags|] == tags && paths[..|tags|] == paths;
    DescribedAgree(tags, shorts);
  }

  method CheckFlags(spec: CommandSpec) returns (ok: bool)
    ensures ok == FlagsAccepted(spec)
  {
    ok := ValidateParamFlags(spec.params, IsSensitive);
  }

  /** buildGroups: `None` is an error. */
  method BuildGroups(lower: Casing, specs: seq<CommandSpec>) returns (groups: Option<seq<string>>)
    ensures groups == if Buildable(lower, specs) then Some(GroupsOf(Tags(specs))) else None
  {
    var shorts: map<string, string>, seen: Owners, ordered: seq<string> := map[], map[], [];
    ghost var checks, tags, paths := FlagChecks(specs), Tags(specs), AllMounted(lower, specs);
    for i := 0 to |specs|
      invariant Built(checks, tags, paths, i, shorts, ordered, seen)
    {
      var ok := CheckFlags(specs[i]);
      shorts, ordered, seen, ok := MountNext(checks, tags, paths, i, ok, Tag(specs[i].group, ShortOf(specs[i])),
                                             MountedPaths(lower, specs[i]), shorts, ordered, seen);
      if !ok {
        return None;
      }
    }
    BuiltAll(checks, tags, paths, shorts, ordered, seen);
    groups := Some(ordered);
  }

  function GroupNames(lower: Casing, groups: seq<string>): (names: seq<string>)
    ensures |names| == |groups| && forall i :: 0 <= i < |groups| ==> names[i] == GroupName(lower, groups[i])
  {
    seq(|groups|, i requires 0 <= i < |groups| => GroupName(lower, groups[i]))
  }

  predicate FreshNames(names: seq<string>, root: set<string>) {
    && (forall i :: 0 <= i < |names| ==> names[i] !in root)
    && (forall i, j :: 0 <= i < j < |names| ==> names[i] != names[j])
  }

  /** The loop of BuildFlat. */
  method CheckFresh(names: seq<string>, root: set<string>) returns (ok: bool)
    ensures ok <==> FreshNames(names, root)
  {
    var seen: set<string> := {};
    for i := 0 to |names|
      invariant forall name :: name in seen <==> name in names[..i]
      invariant FreshNames(names[..i], root)
    {
      if names[i] in seen {
        ghost var k :| 0 <= k < i && names[..i][k] == names[i];
        assert names[k] == names[i];
        return false;
      }
      seen := seen + {names[i]};
      if names[i] in root {
        return false;
      }
      assert names[..i + 1] == names[..i] + [names[i]];
    }
    assert names[..|names|] == names;
    ok := true;
  }

  /** BuildFlat; `root` holds the names and aliases of the root command's children, with the completion
      command. */
  method BuildFlat(lower: Casing, root: set<string>, specs: seq<CommandSpec>) returns (ok: bool)
    ensures ok <==> Mountable(lower, root, specs)
  {
    var groups := BuildGroups(lower, specs);
    if groups.None? {
      return false;
    }
    var names := GroupNames(lower, groups.value);
    ok := CheckFresh(names, root);
    if ok {
      ok := ValidateShortcuts(specs, root + set name | name in names);
    }
  }

  function MountedGroups(lower: Casing, specs: seq<CommandSpec>): seq<string> {
    GroupNames(lower, GroupsOf(Tags(specs)))
  }

  /** The groups can be built, their names are new at the root, and so are those of the shortcuts. */
  predicate Mountable(lower: Casing, root: set<string>, specs: seq<CommandSpec>) {
    && Buildable(lower, specs)
    && FreshNames(MountedGroups(lower, specs), root)
    && ShortcutsValid(AllShortcuts(specs), root + set name | name in MountedGroups(lower, specs))
  }

  // ----- words

  /** No whitespace in front, and none but blanks. */
  predicate Tidy(s: string) {
    (s != "" ==> !IsSpace(s[0])) && forall i :: 0 <= i < |s| && IsSpace(s[i]) ==> s[i] == ' '
  }

  /** On tidy names the generator's first word is the name cobra uses. */
  lemma TidyName(s: string)
    requires Tidy(s)
    ensures FirstWord(s) == CobraName(s)
  {
    WordEndStops(s, 0);
    var end := WordEnd(s, 0);
    forall j | 0 <= j < end ensures !OccursAt(s, " ", j) {
      assert s[j..j + 1] == [s[j]];
      assert IsSpace(' ');
    }
    if end < |s| {
      assert s[end..end + 1] == [' '];
      IndexUnique(s, " ", end);
    } else {
      assert s[0..end] == s;
    }
  }

  lemma CobraNameHasNoBlank(s: string)
    ensures ' ' !in CobraName(s)
  {
    var i := Index(s, " ");
    forall j | 0 <= j < |CobraName(s)| ensures CobraName(s)[j] != ' ' {
      assert !OccursAt(s, " ", j);
      assert s[j..j + 1] == [s[j]];
    }
  }

  lemma SplitPath(g: string, n: string, h: string, m: string)
    requires ' ' !in g && ' ' !in h && g + " " + n == h + " " + m
    ensures g == h && n == m
  {
    var path := g + " " + n;
    assert path[|g|] == ' ' && path[|h|] == ' ';
    assert forall i :: 0 <= i < |g| ==> path[i] == g[i] && g[i] in g;
    assert forall i :: 0 <= i < |h| ==> path[i] == h[i] && h[i] in h;
    assert path[..|g|] == g && path[..|h|] == h;
    assert path[|g| + 1..] == n && path[|h| + 1..] == m;
  }

  // ----- the theorem

  /** Names as the generator writes them: no leading whitespace, and none but blanks. */
  predicate TidySpecs(lower: Casing, specs: seq<CommandSpec>) {
    forall i :: 0 <= i < |specs| ==> Tidy(lower(specs[i].group)) && Tidy(specs[i].use)
  }

  lemma NamesAgree(spec: CommandSpec, k: nat)
    requires Tidy(spec.use) && k < |MountedNames(spec)|
    ensures UseNames(spec)[k] == FirstWord(MountedNames(spec)[k])
  {
    if k == 0 {
      TidyName(spec.use);
      FirstWordIsWord(spec.use);
      WordIsFirst(FirstWord(spec.use));
    }
  }

  /** Commands apart in the generator's eyes are apart in cobra's. */
  lemma ApartMounted(lower: Casing, a: CommandSpec, b: CommandSpec)
    requires Tidy(lower(a.group)) && Tidy(lower(b.group)) && Tidy(a.use) && Tidy(b.use)
    requires Apart(GeneratedPaths(lower, a), GeneratedPaths(lower, b))
    ensures Apart(MountedPaths(lower, a), MountedPaths(lower, b))
  {
    var p, q := MountedPaths(lower, a), MountedPaths(lower, b);
    forall i, j | 0 <= i < |p| && 0 <= j < |q| ensures p[i] != q[j] {
      NamesAgree(a, i);
      NamesAgree(b, j);
      TidyName(lower(a.group));
      TidyName(lower(b.group));
      CobraNameHasNoBlank(lower(a.group));
      CobraNameHasNoBlank(lower(b.group));
      assert GeneratedPaths(lower, a)[i] != GeneratedPaths(lower, b)[j];
      if p[i] == q[j] {
        SplitPath(GroupName(lower, a.group), MountedNames(a)[i], GroupName(lower, b.group), MountedNames(b)[j]);
      }
    }
  }

  lemma {:induction false} GroupsDistinct(tags: seq<Tag>)
    ensures forall i, j :: 0 <= i < j < |GroupsOf(tags)| ==> GroupsOf(tags)[i] != GroupsOf(tags)[j]
  {
    if tags == [] {
    } else {
      GroupsDistinct(tags[..|tags| - 1]);
    }
  }

  lemma RootOfGroup(lower: Casing, specs: seq<CommandSpec>, group: string) returns (k: nat)
    requires TidySpecs(lower, specs) && group in GroupsOf(Tags(specs))
    requires forall i :: 0 <= i < |specs| ==> NamedSpec(lower, specs[i])
    ensures k < |specs| && Roots(lower, specs)[k] == Root(GroupName(lower, group), group)
    ensures GroupName(lower, group) != ""
  {
    k :| 0 <= k < |Tags(specs)| && Tags(specs)[k].group == group;
    TidyName(lower(group));
  }

  lemma FreshRoots(lower: Casing, reserved: set<string>, root: set<string>, specs: seq<CommandSpec>)
    requires TidySpecs(lower, specs) && root <= reserved && !FlatClash(lower, reserved, specs)
    requires forall i :: 0 <= i < |specs| ==> NamedSpec(lower, specs[i])
    ensures FreshNames(GroupNames(lower, GroupsOf(Tags(specs))), root)
  {
    var groups, roots := GroupsOf(Tags(specs)), Roots(lower, specs);
    GroupsDistinct(Tags(specs));
    forall i | 0 <= i < |groups| ensures GroupName(lower, groups[i]) !in root {
      var k := RootOfGroup(lower, specs, groups[i]);
      assert roots[k].name !in reserved;
    }
    forall i, j | 0 <= i < j < |groups| ensures GroupName(lower, groups[i]) != GroupName(lower, groups[j]) {
      var k := RootOfGroup(lower, specs, groups[i]);
      var l := RootOfGroup(lower, specs, groups[j]);
      assert !SameRoot(roots[k], roots[l]);
    }
  }

  lemma MountedGroupsPlanned(lower: Casing, reserved: set<string>, specs: seq<CommandSpec>)
    requires TidySpecs(lower, specs)
    ensures reserved + (set name | name in MountedGroups(lower, specs)) == PlannedRoots(lower, reserved, specs)
  {
    var groups, names := GroupsOf(Tags(specs)), MountedGroups(lower, specs);
    forall name | name in names ensures name in PlannedRoots(lower, reserved, specs) {
      var k :| 0 <= k < |names| && names[k] == name;
      assert groups[k] in groups;
      var i :| 0 <= i < |Tags(specs)| && Tags(specs)[i].group == groups[k];
      TidyName(lower(specs[i].group));
    }
    forall i | 0 <= i < |specs| ensures RootCommandName(lower, specs[i].group) in names {
      var k := PlaceOf(lower, specs, i);
    }
  }

  lemma GeneratedApartMounted(lower: Casing, specs: seq<CommandSpec>)
    requires TidySpecs(lower, specs) && AllApart(AllGenerated(lower, specs))
    ensures AllApart(AllMounted(lower, specs))
  {
    var generated, mounted := AllGenerated(lower, specs), AllMounted(lower, specs);
    forall i, j | 0 <= i < j < |specs| ensures Apart(mounted[i], mounted[j]) {
      assert Apart(generated[i], generated[j]);
      ApartMounted(lower, specs[i], specs[j]);
    }
  }

  /** The generator mounts the commands flat, and accepts the shortcuts. */
  predicate GeneratedFlat(lower: Casing, reserved: set<string>, policy: PathPolicy, moduleCount: int,
                          specs: seq<CommandSpec>) {
    && Resolution(lower, reserved, policy, moduleCount, specs) == Some(true)
    && ShortcutsValid(AllShortcuts(specs), PlannedRoots(lower, reserved, specs))
  }

  /** What the generator resolves to a flat mount, the runtime mounts: no path, alias, group, root or
      shortcut conflict, for tidy names, agreeing descriptions, accepted flags and a root whose commands
      are all reserved. */
  lemma FlatAcceptanceMounts(lower: Casing, reserved: set<string>, root: set<string>, policy: PathPolicy,
                             moduleCount: int, specs: seq<CommandSpec>)
    requires GeneratedFlat(lower, reserved, policy, moduleCount, specs)
    requires TidySpecs(lower, specs) && DescriptionsAgree(specs) && FlagsValid(specs) && root <= reserved
    ensures Mountable(lower, root, specs)
  {
    GeneratedApartMounted(lower, specs);
    FreshRoots(lower, reserved, root, specs);
    MountedGroupsPlanned(lower, reserved, specs);
    FewerRoots(AllShortcuts(specs), PlannedRoots(lower, reserved, specs),
               root + set name | name in MountedGroups(lower, specs));
  }

  // ----- and the other way round

  /** Every name is there, and aliases are single words. */
  predicate WordSpecs(lower: Casing, specs: seq<CommandSpec>) {
    TidySpecs(lower, specs) && forall i :: 0 <= i < |specs| ==> lower(specs[i].group) != "" && WordNames(specs[i])
  }

  predicate WordNames(spec: CommandSpec) {
    spec.use != "" && forall k :: 0 <= k < |spec.aliases| ==> spec.aliases[k] != "" && IsWord(spec.aliases[k])
  }

  lemma TidyNotEmpty(s: string)
    requires Tidy(s) && s != ""
    ensures FirstWord(s) != ""
  {
    WordEndStops(s, 0);
  }

  lemma SamePaths(lower: Casing, spec: CommandSpec)
    requires Tidy(lower(spec.group)) && lower(spec.group) != "" && Tidy(spec.use) && WordNames(spec)
    ensures GeneratedPaths(lower, spec) == MountedPaths(lower, spec) && NamedSpec(lower, spec)
  {
    TidyName(lower(spec.group));
    TidyNotEmpty(lower(spec.group));
    forall k | 0 <= k < |MountedNames(spec)| ensures UseNames(spec)[k] == MountedNames(spec)[k] != "" {
      SameName(spec, k);
    }
    assert UseNames(spec) == MountedNames(spec);
  }

  lemma SameName(spec: CommandSpec, k: nat)
    requires Tidy(spec.use) && WordNames(spec) && k < |MountedNames(spec)|
    ensures UseNames(spec)[k] == MountedNames(spec)[k] != ""
  {
    NamesAgree(spec, k);
    if k == 0 {
      TidyName(spec.use);
      TidyNotEmpty(spec.use);
      FirstWordIsWord(spec.use);
    }
    WordIsFirst(MountedNames(spec)[k]);
  }

  /** With one module, a flat or automatic policy, single-word aliases and exactly the reserved root
      commands, the generator mounts flat exactly when the runtime can. */
  lemma FlatExactlyWhenMountable(lower: Casing, reserved: set<string>, policy: PathPolicy, specs: seq<CommandSpec>)
    requires WordSpecs(lower, specs) && DescriptionsAgree(specs) && FlagsValid(specs)
    requires (policy == Flat || policy == Auto || policy == Unset)
    ensures GeneratedFlat(lower, reserved, policy, 1, specs) <==> Mountable(lower, reserved, specs)
  {
    forall i | 0 <= i < |specs| ensures GeneratedPaths(lower, specs[i]) == MountedPaths(lower, specs[i])
                                        && NamedSpec(lower, specs[i]) {
      SamePaths(lower, specs[i]);
    }
    assert AllGenerated(lower, specs) == AllMounted(lower, specs);
    if Mountable(lower, reserved, specs) {
      NoClashWhenMounted(lower, reserved, specs);
    }
    MountedGroupsPlanned(lower, reserved, specs);
    if GeneratedFlat(lower, reserved, policy, 1, specs) {
      FlatAcceptanceMounts(lower, reserved, reserved, policy, 1, specs);
    }
  }

  lemma NoClashWhenMounted(lower: Casing, reserved: set<string>, specs: seq<CommandSpec>)
    requires TidySpecs(lower, specs) && FreshNames(GroupNames(lower, GroupsOf(Tags(specs))), reserved)
    ensures !FlatClash(lower, reserved, specs)
  {
    var roots, groups := Roots(lower, specs), GroupsOf(Tags(specs));
    forall i | 0 <= i < |roots| ensures roots[i].name !in reserved {
      var k := PlaceOf(lower, specs, i);
    }
    forall i, j | 0 <= i < |roots| && 0 <= j < |roots| ensures !SameRoot(roots[i], roots[j]) {
      var k := PlaceOf(lower, specs, i);
      var l := PlaceOf(lower, specs, j);
      if roots[i].group != roots[j].group {
        assert k != l;
        assert GroupNames(lower, groups)[k] != GroupNames(lower, groups)[l];
      }
    }
  }

  lemma PlaceOf(lower: Casing, specs: seq<CommandSpec>, i: nat) returns (k: nat)
    requires i < |specs| && TidySpecs(lower, specs)
    ensures k < |GroupsOf(Tags(specs))| && GroupsOf(Tags(specs))[k] == specs[i].group
    ensures GroupNames(lower, GroupsOf(Tags(specs)))[k] == Roots(lower, specs)[i].name
  {
    assert Tags(specs)[i].group == specs[i].group;
    assert specs[i].group in GroupsOf(Tags(specs));
    k :| 0 <= k < |GroupsOf(Tags(specs))| && GroupsOf(Tags(specs))[k] == specs[i].group;
    TidyName(lower(specs[i].group));
  }
}
