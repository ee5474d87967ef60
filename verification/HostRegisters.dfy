/** The host file as independent registers: per host, credentials under a compare-and-swap on the token pair
    and last-writer-wins contexts. For every host that no other name leads to, every interleaving behaves like
    its register. */
module HostRegisters {
  import opened HostStore
  import opened HostProtocol

  /** All of an entry but its selection, which other hosts take away. */
  datatype Register = Absent | Present(entry: HostEntry)

  function Unselected(entry: HostEntry): HostEntry {
    entry.(selected := false)
  }

  function RegisterOf(entries: Entries, host: string): Register {
    if host in entries then Present(Unselected(entries[host])) else Absent
  }

  /** The effect of a committed mutation on the register of one host. */
  function Write(r: Register, host: string, m: Mutation): Register {
    if m.host != host then r
    else
      match m
      case Login(_, entry) =>
        Present(Unselected(entry).(contexts := (if r.Present? then r.entry.contexts else map[]) + entry.contexts))
      case Logout(_) => Absent
      case Use(_) => r
      case SetContext(_, name, value) =>
        if r.Present? then Present(r.entry.(contexts := r.entry.contexts[name := value])) else r
      case UnsetContext(_, name) =>
        if r.Present? then Present(r.entry.(contexts := r.entry.contexts - {name})) else r
      case Refresh(_, sent, token, now) =>
        if r.Present? && r.entry.oauthToken == sent.oauthToken && r.entry.oauthRefreshToken == sent.oauthRefreshToken
        then Present(Renewed(r.entry, token, if token.expiresIn > 0 then now + token.expiresIn else 0))
        else r
  }

  function Renewed(entry: HostEntry, token: Token, expiry: int): HostEntry {
    entry.(
      authType := "bearer",
      oauthToken := token.access,
      oauthRefreshToken := if token.refresh == "" then entry.oauthRefreshToken else token.refresh,
      oauthExpiresAt := expiry)
  }

  function Replayed(r: Register, host: string, history: seq<Commit>): Register {
    if history == [] then r
    else Write(Replayed(r, host, history[..|history| - 1]), host, history[|history| - 1].mutation)
  }

  lemma ApplyWritesRegister(m: Mutation, entries: Entries, host: string)
    requires Apply(m, entries).Some?
    ensures RegisterOf(Apply(m, entries).value, host) == Write(RegisterOf(entries, host), host, m)
  {
    if m.Login? && m.host == host && host !in entries {
      assert map[] + m.entry.contexts == m.entry.contexts;
    }
  }

  // ----- which names a host shares its entry with

  function Iterated(normalize: Normalizer, name: string, i: nat): string
    decreases i
  {
    if i == 0 then name else Iterated(normalize, normalize(name), i - 1)
  }

  /** The name becomes the host after some number of loads. */
  ghost predicate LeadsTo(normalize: Normalizer, name: string, host: string) {
    exists i: nat :: Iterated(normalize, name, i) == host
  }

  lemma LeadsOn(normalize: Normalizer, name: string, host: string)
    requires LeadsTo(normalize, normalize(name), host)
    ensures LeadsTo(normalize, name, host)
  {
    var i: nat :| Iterated(normalize, normalize(name), i) == host;
    assert Iterated(normalize, name, i + 1) == host;
  }

  lemma LeadsToNext(normalize: Normalizer, name: string, host: string)
    ensures host == name ==> LeadsTo(normalize, name, host)
    ensures host == normalize(name) ==> LeadsTo(normalize, name, host)
  {
    assert Iterated(normalize, name, 0) == name;
    assert Iterated(normalize, name, 1) == Iterated(normalize, normalize(name), 0) == normalize(name);
  }

  /** If the name leads to the host it is the host, and stays it. */
  ghost predicate Alone(normalize: Normalizer, name: string, host: string) {
    LeadsTo(normalize, name, host) ==> name == host == normalize(host)
  }

  ghost predicate AloneIn(entries: Entries, host: string, normalize: Normalizer) {
    forall name :: name in entries ==> Alone(normalize, name, host)
  }

  /** The same of a file that is still to be loaded for the first time. */
  ghost predicate AloneOnceLoaded(entries: Entries, host: string, normalize: Normalizer) {
    forall name :: name in entries ==> Alone(normalize, normalize(name), host)
  }

  ghost predicate AloneInHistory(history: seq<Commit>, host: string, normalize: Normalizer) {
    forall n :: 0 <= n < |history| ==> Alone(normalize, history[n].mutation.host, host)
  }

  lemma FirstLoad(raw: Entries, loaded: Entries, host: string, normalize: Normalizer)
    requires Rekeyed(raw, loaded, normalize) && AloneOnceLoaded(raw, host, normalize)
    ensures AloneIn(loaded, host, normalize)
  {
    forall name | name in loaded ensures Alone(normalize, name, host) {
      var k :| k in raw && normalize(k) == name;
    }
  }

  /** A load does not change the register of a host that no other name leads to. */
  lemma LaterLoad(raw: Entries, loaded: Entries, host: string, normalize: Normalizer)
    requires Rekeyed(raw, loaded, normalize) && AloneIn(raw, host, normalize)
    ensures AloneIn(loaded, host, normalize) && RegisterOf(loaded, host) == RegisterOf(raw, host)
  {
    forall name | name in loaded ensures Alone(normalize, name, host) {
      var k :| k in raw && normalize(k) == name;
      if LeadsTo(normalize, name, host) {
        LeadsOn(normalize, k, host);
        assert Alone(normalize, k, host);
      }
    }
    forall k | k in raw ensures normalize(k) == host <==> k == host {
      LeadsToNext(normalize, k, host);
      assert Alone(normalize, k, host);
    }
  }

  lemma ApplyKeepsAlone(m: Mutation, entries: Entries, host: string, normalize: Normalizer)
    requires Apply(m, entries).Some? && AloneIn(entries, host, normalize) && Alone(normalize, m.host, host)
    ensures AloneIn(Apply(m, entries).value, host, normalize)
  {
  }

  /** The file as the first commit loaded it. */
  ghost predicate LoadedAs(s: System, first: Entries) {
    s.history != [] ==> s.history[0].loaded == first
  }

  lemma {:induction false} VersionsReplay(s: System, first: Entries, n: nat, normalize: Normalizer, host: string)
    requires Serial(s, normalize) && 0 < n <= |s.history| && LoadedAs(s, first)
    requires AloneIn(first, host, normalize) && AloneInHistory(s.history, host, normalize)
    ensures AloneIn(Version(s, n), host, normalize)
    ensures RegisterOf(Version(s, n), host) == Replayed(RegisterOf(first, host), host, s.history[..n])
  {
    var c := s.history[n - 1];
    assert Committed(s, n - 1, normalize);
    assert s.history[..n][..n - 1] == s.history[..n - 1];
    if n == 1 {
    } else {
      VersionsReplay(s, first, n - 1, normalize, host);
      LaterLoad(Version(s, n - 1), c.loaded, host, normalize);
    }
    ApplyKeepsAlone(c.mutation, c.loaded, host, normalize);
    ApplyWritesRegister(c.mutation, c.loaded, host);
  }

  /** No name of the starting file or of a mutation becomes the host later, other than the host itself. */
  ghost predicate Undisturbed(start: Entries, history: seq<Commit>, host: string, normalize: Normalizer) {
    AloneOnceLoaded(start, host, normalize) && AloneInHistory(history, host, normalize)
  }

  /** In every interleaving, the credentials and contexts of every undisturbed host in the file are those of
      its register, as first loaded, after the committed mutations in lock order: no login, logout, context write
      or refresh is lost, whatever is stored under other names, normalised or not. */
  lemma StoreRefinesRegisters(run: seq<System>, start: Entries, normalize: Normalizer, i: nat) returns (first: Entries)
    requires IsRun(run, start, normalize) && i < |run|
    ensures if run[i].history == [] then run[i].file == first == start else Rekeyed(start, first, normalize)
    ensures forall host :: Undisturbed(start, run[i].history, host, normalize) ==>
              RegisterOf(run[i].file, host) == Replayed(RegisterOf(first, host), host, run[i].history)
  {
    RunsKeepInv(run, start, normalize, i);
    RunsKeepStart(run, start, normalize, i);
    var s := run[i];
    if s.history == [] {
      first := start;
    } else {
      assert Committed(s, 0, normalize);
      first := s.history[0].loaded;
      forall host | Undisturbed(start, s.history, host, normalize)
        ensures RegisterOf(s.file, host) == Replayed(RegisterOf(first, host), host, s.history)
      {
        FirstLoad(start, first, host, normalize);
        VersionsReplay(s, first, |s.history|, normalize, host);
        assert s.history[..|s.history|] == s.history;
      }
    }
  }

  lemma {:induction false} RunsKeepStart(run: seq<System>, start: Entries, normalize: Normalizer, i: nat)
    requires IsRun(run, start, normalize) && i < |run|
    ensures run[i].start == start
  {
    if i == 0 {
    } else {
      RunsKeepStart(run, start, normalize, i - 1);
      assert SomeStep(run[i - 1], run[i], normalize);
      var p: Pid :| Next(run[i - 1], run[i], p, normalize);
    }
  }

  /** A stable name leads to itself only. */
  lemma {:induction false} StableLeads(normalize: Normalizer, name: string, i: nat)
    requires normalize(name) == name
    ensures Iterated(normalize, name, i) == name
    decreases i
  {
    if i == 0 {
    } else {
      StableLeads(normalize, name, i - 1);
    }
  }

  /** Where all names are stable once normalised, every host is undisturbed. */
  lemma StableNamesDisturbNone(start: Entries, history: seq<Commit>, host: string, normalize: Normalizer)
    requires forall k :: k in start ==> normalize(normalize(k)) == normalize(k)
    requires forall n :: 0 <= n < |history| ==> normalize(history[n].mutation.host) == history[n].mutation.host
    ensures Undisturbed(start, history, host, normalize)
  {
    forall name | normalize(name) == name ensures Alone(normalize, name, host) {
      forall i: nat ensures Iterated(normalize, name, i) == name {
        StableLeads(normalize, name, i);
      }
    }
    forall k | k in start ensures Alone(normalize, normalize(k), host) {
      assert normalize(normalize(k)) == normalize(k);
    }
  }

  /** An entry committed under a name that is not stable is under that name in the next commit's copy exactly
      when another committed name normalises to it, whose entry it then is; under its normalised name there is
      an entry in any case. */
  lemma UnstableNameIsLost(run: seq<System>, start: Entries, normalize: Normalizer, i: nat, n: nat, name: string)
    requires IsRun(run, start, normalize) && i < |run| && n + 1 < |run[i].history|
    requires name in run[i].history[n].saved && normalize(name) != name
    ensures var saved, next := run[i].history[n].saved, run[i].history[n + 1].loaded;
            && (name in next <==> exists k :: k in saved && k != name && normalize(k) == name)
            && (name in next ==> exists k :: k in saved && k != name && normalize(k) == name && next[name] == saved[k])
            && normalize(name) in next
  {
    RunsKeepInv(run, start, normalize, i);
    assert Committed(run[i], n + 1, normalize);
    RekeyLoses(run[i].history[n].saved, run[i].history[n + 1].loaded, normalize, name);
  }

  lemma RekeyLoses(raw: Entries, loaded: Entries, normalize: Normalizer, name: string)
    requires name in raw && normalize(name) != name && Rekeyed(raw, loaded, normalize)
    ensures name in loaded <==> exists k :: k in raw && k != name && normalize(k) == name
    ensures name in loaded ==> exists k :: k in raw && k != name && normalize(k) == name && loaded[name] == raw[k]
    ensures normalize(name) in loaded
  {
  }

  /** A context value set in one commit is still there after any number of later commits that neither
      write it nor log the host in with it or out: in particular after refreshes that read earlier. */
  lemma {:induction false} ContextSurvives(r: Register, host: string, history: seq<Commit>, name: string, value: string)
    requires r.Present? && name in r.entry.contexts && r.entry.contexts[name] == value
    requires forall n :: 0 <= n < |history| ==> LeavesContext(history[n].mutation, host, name)
    ensures var after := Replayed(r, host, history);
            after.Present? && name in after.entry.contexts && after.entry.contexts[name] == value
  {
    if history == [] {
    } else {
      ContextSurvives(r, host, history[..|history| - 1], name, value);
      assert LeavesContext(history[|history| - 1].mutation, host, name);
    }
  }

  predicate LeavesContext(m: Mutation, host: string, name: string) {
    m.host == host ==>
      match m
      case Login(_, entry) => name !in entry.contexts
      case Logout(_) => false
      case SetContext(_, n, _) => n != name
      case UnsetContext(_, n) => n != name
      case _ => true
  }

  /** A host stays logged out until a login commits, whatever refreshes were in flight. */
  lemma {:induction false} LoggedOutStaysOut(host: string, history: seq<Commit>)
    requires forall n :: 0 <= n < |history| ==> !(history[n].mutation.Login? && history[n].mutation.host == host)
    ensures Replayed(Absent, host, history) == Absent
  {
    if history == [] {
    } else {
      LoggedOutStaysOut(host, history[..|history| - 1]);
    }
  }
}

/** Host name normalisation (pkg/config/hosts.go). */
module HostNames {
  import opened Text
  import opened HostStore
  import opened HostRegisters

  predicate IsSlash(c: char) {
    c == '/'
  }

  function TrimSlashes(s: string): (t: string)
    ensures t <= s
    ensures t == "" || t[|t| - 1] != '/'
  {
    RightEdgeStops(s, IsSlash, 0, |s|);
    s[..RightEdge(s, IsSlash, 0, |s|)]
  }

  function StripScheme(h: string): string {
    if "http://" <= h then h else TrimPrefix(h, "https://")
  }

  /** A name without the blanks around it and the slashes after it. */
  function BareName(s: string): string {
    TrimSlashes(TrimSpace(s))
  }

  /** https is the default and is stripped; an explicit http is kept. */
  function NormalizeHostname(s: string): string {
    StripScheme(BareName(s))
  }

  predicate HasScheme(h: string) {
    "https://" <= h
  }

  lemma SchemeStripped(h: string)
    ensures StripScheme(h) == if HasScheme(h) then h[8..] else h
  {
    if HasScheme(h) {
      assert h[4] == 's' && "http://"[4] == ':';
    }
  }

  lemma TrimSlashesNoop(t: string)
    requires t == "" || t[|t| - 1] != '/'
    ensures TrimSlashes(t) == t
  {
  }

  /** A scheme is followed by a name. */
  lemma SchemeHasName(s: string)
    ensures HasScheme(BareName(s)) ==> |BareName(s)| > 8
  {
    if HasScheme(BareName(s)) {
      assert BareName(s)[7] == '/';
    }
  }

  lemma BareNameEdges(s: string)
    ensures BareName(s) == "" || !IsSpace(BareName(s)[0])
  {
    TrimSpaceStops(s);
  }

  /** Normalising keeps a text exactly when it has no blank at either end, no slash at the end and no
      https scheme. */
  lemma NormalizedIff(t: string)
    ensures NormalizeHostname(t) == t
       <==> (t != "" ==> !IsSpace(t[0]) && !IsSpace(t[|t| - 1]) && t[|t| - 1] != '/') && !HasScheme(t)
  {
    TrimSpaceStops(t);
    SchemeStripped(BareName(t));
    SchemeStripped(t);
    assert |NormalizeHostname(t)| <= |BareName(t)| <= |TrimSpace(t)| <= |t|;
    if TrimSpace(t) == t && (t == "" || t[|t| - 1] != '/') {
      TrimSlashesNoop(t);
    }
    TrimmedLength(t);
  }

  lemma TrimmedLength(t: string)
    ensures |TrimSpace(t)| == |t| ==> TrimSpace(t) == t
  {
    var from, until := TrimSpaceBounds(t);
    assert t[0..|t|] == t;
  }

  /** One https scheme is left exactly when there were two. */
  lemma TwoSchemes(h: string)
    ensures HasScheme(StripScheme(h)) <==> "https://https://" <= h
  {
    SchemeStripped(h);
    assert "https://https://" == "https://" + "https://";
    if HasScheme(h) {
      var rest := h[8..];
      assert h == "https://" + rest;
      if HasScheme(rest) {
        assert h == "https://https://" + rest[8..];
      }
      if "https://https://" <= h {
        assert rest[..8] == h[8..16] == "https://";
      }
    }
  }

  predicate StableName(h: string) {
    && !("https://https://" <= h)
    && !(h != "" && IsSpace(h[|h| - 1]))
    && !(HasScheme(h) && |h| > 8 && IsSpace(h[8]))
  }

  /** Normalising twice changes nothing exactly when the bare name does not start with two https schemes,
      ends in no blank, and has no blank after its scheme. */
  lemma NormalizeIdempotentIff(s: string)
    ensures NormalizeHostname(NormalizeHostname(s)) == NormalizeHostname(s) <==> StableName(BareName(s))
  {
    var h := BareName(s);
    SchemeStripped(h);
    SchemeHasName(s);
    BareNameEdges(s);
    TwoSchemes(h);
    NormalizedIff(NormalizeHostname(s));
  }

  /** A login to a host given with two schemes is stored with one, and the next load loses it. */
  lemma TwoSchemesLost(name: string, entry: HostEntry, loaded: Entries)
    requires name != "" && !IsSpace(name[|name| - 1]) && name[|name| - 1] != '/'
    requires Rekeyed(map["https://" + name := entry], loaded, NormalizeHostname)
    ensures NormalizeHostname("https://" + ("https://" + name)) == "https://" + name
    ensures "https://" + name !in loaded && name in loaded
  {
    SchemeAdded(name);
    SchemeAdded("https://" + name);
    RekeyLoses(map["https://" + name := entry], loaded, NormalizeHostname, "https://" + name);
  }

  lemma SchemeAdded(name: string)
    requires name != "" && !IsSpace(name[|name| - 1]) && name[|name| - 1] != '/'
    ensures NormalizeHostname("https://" + name) == name
  {
    var full := "https://" + name;
    PlainBareName(full);
    SchemeStripped(full);
    assert full[8..] == name;
  }

  lemma PlainBareName(s: string)
    requires s != "" && !IsSpace(s[0]) && !IsSpace(s[|s| - 1]) && s[|s| - 1] != '/'
    ensures BareName(s) == s
  {
    TrimSpaceStops(s);
    TrimSlashesNoop(s);
  }
}
