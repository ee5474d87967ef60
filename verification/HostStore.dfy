/** The shared host store and the mutations committed to it (pkg/config/hosts.go, pkg/runtime/oauth.go,
    pkg/runtime/context.go, internal/auth). */
module HostStore {
  import opened Text
  import opened Wrappers

  datatype HostEntry = HostEntry(
    authType: string,
    loginType: string,
    loginProvider: string,
    user: string,
    oauthToken: string,
    oauthRefreshToken: string,
    oauthExpiresAt: int,
    apiKey: string,
    apiKeyHeader: string,
    basicUser: string,
    basicPassword: string,
    cloudflareAccess: bool,
    insecure: bool,
    selected: bool,
    contexts: map<string, string>)

  type Entries = map<string, HostEntry>

  /** How host names become keys; `HostNames.NormalizeHostname` in the program. */
  type Normalizer = string -> string

  // ----- selection

  predicate SomeSelected(entries: Entries) {
    exists name :: name in entries && entries[name].selected
  }

  predicate AtMostOneSelected(entries: Entries) {
    forall a, b :: a in entries && b in entries && entries[a].selected && entries[b].selected ==> a == b
  }

  predicate ExactlySelected(entries: Entries, host: string) {
    host in entries && forall name :: name in entries ==> (entries[name].selected <==> name == host)
  }

  /** Hosts.Selected returns "" when nothing is selected, and also when the host keyed "" is. */
  predicate ReportsNoSelection(entries: Entries) {
    !SomeSelected(entries) || ("" in entries && entries[""].selected)
  }

  /** The least of the selected names. */
  predicate FirstSelected(entries: Entries, host: string) {
    && host in entries && entries[host].selected
    && forall name :: name in entries && entries[name].selected ==> LessEq(host, name)
  }

  predicate Sorted(names: seq<string>) {
    forall i, j :: 0 <= i < j < |names| ==> LessEq(names[i], names[j])
  }

  lemma SortedSnoc(names: seq<string>, last: string)
    requires Sorted(names) && forall name :: name in names ==> LessEq(name, last)
    ensures Sorted(names + [last])
  {
  }

  method LeastOf(names: set<string>) returns (least: string)
    requires names != {}
    ensures least in names && forall name :: name in names ==> LessEq(least, name)
  {
    least :| least in names;
    LessEqOrder(least, least, least);
    var pending := names - {least};
    while pending != {}
      invariant pending <= names && least in names
      invariant forall name :: name in names - pending ==> LessEq(least, name)
    {
      var name :| name in pending;
      pending := pending - {name};
      LessEqOrder(least, name, name);
      if !LessEq(least, name) {
        forall other | other in names - pending ensures LessEq(name, other) {
          LessEqOrder(name, least, other);
          LessEqOrder(name, name, name);
        }
        least := name;
      }
    }
  }

  lemma FoundFirst(entries: Entries, names: seq<string>, i: nat)
    requires Sorted(names) && forall name :: name in names <==> name in entries
    requires i < |names| && entries[names[i]].selected && forall j :: 0 <= j < i ==> !entries[names[j]].selected
    ensures SomeSelected(entries) && FirstSelected(entries, names[i])
    ensures names[i] == "" <==> ReportsNoSelection(entries)
  {
    forall name | name in entries && entries[name].selected ensures LessEq(names[i], name) {
      var k :| 0 <= k < |names| && names[k] == name;
      LessEqOrder(name, name, name);
    }
  }

  lemma NoneFound(entries: Entries, names: seq<string>)
    requires forall name :: name in entries ==> name in names
    requires forall j :: 0 <= j < |names| ==> names[j] in entries && !entries[names[j]].selected
    ensures !SomeSelected(entries)
  {
    forall name | name in entries ensures !entries[name].selected {
      var k :| 0 <= k < |names| && names[k] == name;
    }
  }

  function WithSelection(entries: Entries, host: string): (after: Entries)
    ensures after.Keys == entries.Keys
  {
    map name | name in entries :: entries[name].(selected := name == host)
  }

  // ----- the mutations, on normalised host keys

  datatype Token = Token(access: string, refresh: string, expiresIn: int)

  datatype Mutation =
    | Login(host: string, entry: HostEntry)
    | Logout(host: string)
    | Use(host: string)
    | SetContext(host: string, name: string, value: string)
    | UnsetContext(host: string, name: string)
    | Refresh(host: string, sent: HostEntry, token: Token, now: int)

  function LoggedIn(entries: Entries, host: string, entry: HostEntry): HostEntry {
    if host in entries then
      entry.(contexts := entries[host].contexts + entry.contexts, selected := entries[host].selected)
    else entry.(selected := false)
  }

  predicate SamePair(a: HostEntry, b: HostEntry) {
    a.oauthToken == b.oauthToken && a.oauthRefreshToken == b.oauthRefreshToken
  }

  function Refreshed(current: HostEntry, token: Token, now: int): HostEntry {
    current.(
      authType := "bearer",
      oauthToken := token.access,
      oauthRefreshToken := if token.refresh != "" then token.refresh else current.oauthRefreshToken,
      oauthExpiresAt := if token.expiresIn > 0 then now + token.expiresIn else 0)
  }

  const REFRESH_SKEW := 60

  /** refreshHostAuthIfNeeded: whether a request at time `t` refreshes first. `refreshable` says that the
      login of the program has a refresh path. */
  predicate RefreshDue(entry: HostEntry, refreshable: bool, t: int) {
    if !refreshable || entry.oauthRefreshToken == "" then false
    else !(entry.oauthExpiresAt == 0 || t + REFRESH_SKEW < entry.oauthExpiresAt)
  }

  /** The closure of a mutation on the loaded entries: what is saved, or `None` when it returns an error. */
  function Apply(mutation: Mutation, entries: Entries): Option<Entries> {
    match mutation
    case Login(host, entry) =>
      var added := entries[host := LoggedIn(entries, host, entry)];
      Some(if ReportsNoSelection(added) then WithSelection(added, host) else added)
    case Logout(host) => if host in entries then Some(entries - {host}) else None
    case Use(host) => if host in entries then Some(WithSelection(entries, host)) else None
    case SetContext(host, name, value) =>
      if host in entries then Some(entries[host := entries[host].(contexts := entries[host].contexts[name := value])])
      else None
    case UnsetContext(host, name) =>
      if host in entries then Some(entries[host := entries[host].(contexts := entries[host].contexts - {name})])
      else None
    case Refresh(host, sent, token, now) =>
      if host !in entries then None
      else if !SamePair(entries[host], sent) then Some(entries)
      else Some(entries[host := Refreshed(entries[host], token, now)])
  }

  /** What refreshHostAuth returns to its caller after a commit. */
  function RefreshResult(mutation: Mutation, entries: Entries): HostEntry
    requires mutation.Refresh? && mutation.host in entries
  {
    if SamePair(entries[mutation.host], mutation.sent)
    then Refreshed(entries[mutation.host], mutation.token, mutation.now)
    else entries[mutation.host]
  }

  // ----- loading: the one-time rekey, for any iteration order

  /** `loaded` holds, under each normalised key, one of the entries stored under a key that normalises
      to it, and the canonical one when there is one. */
  ghost predicate Rekeyed(raw: Entries, loaded: Entries, normalize: Normalizer) {
    && (forall k :: k in raw ==> normalize(k) in loaded)
    && (forall n :: n in loaded ==> exists k :: k in raw && normalize(k) == n && loaded[n] == raw[k])
    && (forall n :: n in loaded && n in raw && normalize(n) == n ==> loaded[n] == raw[n])
  }

  ghost predicate CanonicalKeys(entries: Entries, normalize: Normalizer) {
    forall k :: k in entries ==> normalize(k) == k
  }

  lemma CanonicalRekey(raw: Entries, loaded: Entries, normalize: Normalizer)
    requires Rekeyed(raw, loaded, normalize) && CanonicalKeys(raw, normalize)
    ensures loaded == raw
  {
    forall n | n in loaded ensures n in raw {
      var k :| k in raw && normalize(k) == n;
    }
    forall k | k in raw ensures k in loaded && loaded[k] == raw[k] {
      assert normalize(k) == k;
    }
  }

  lemma RekeyKeepsAtMostOne(raw: Entries, loaded: Entries, normalize: Normalizer)
    requires Rekeyed(raw, loaded, normalize) && AtMostOneSelected(raw)
    ensures AtMostOneSelected(loaded)
  {
    forall a, b | a in loaded && b in loaded && loaded[a].selected && loaded[b].selected ensures a == b {
      var j :| j in raw && normalize(j) == a && loaded[a] == raw[j];
      var k :| k in raw && normalize(k) == b && loaded[b] == raw[k];
    }
  }

  // ----- what each mutation keeps

  lemma ApplyKeepsAtMostOne(mutation: Mutation, entries: Entries)
    requires AtMostOneSelected(entries) && Apply(mutation, entries).Some?
    ensures AtMostOneSelected(Apply(mutation, entries).value)
  {
  }

  /** A login or a use leaves exactly one host selected: the one used, and after a login the host that
      was selected before, or the new one when none was. */
  lemma ExactlyOneAfterLoginOrUse(mutation: Mutation, entries: Entries) returns (selected: string)
    requires AtMostOneSelected(entries) && Apply(mutation, entries).Some?
    requires mutation.Login? || mutation.Use?
    ensures ExactlySelected(Apply(mutation, entries).value, selected)
    ensures mutation.Use? ==> selected == mutation.host
    ensures mutation.Login? && !SomeSelected(entries) ==> selected == mutation.host
    ensures mutation.Login? && SomeSelected(entries) && !("" in entries && entries[""].selected) ==>
      selected in entries && entries[selected].selected
  {
    var after := Apply(mutation, entries).value;
    match mutation
    case Login(host, entry) =>
      var added := entries[host := LoggedIn(entries, host, entry)];
      if ReportsNoSelection(added) {
        selected := host;
        if SomeSelected(entries) {
          var name :| name in entries && entries[name].selected;
          assert added[name].selected;
        }
      } else {
        selected :| selected in added && added[selected].selected;
        assert selected in entries && entries[selected].selected;
      }
    case Use(host) =>
      selected := host;
    case _ =>
      selected := "";
  }

  /** What a refresh makes of the entry it finds: a bearer entry with the new tokens, the old refresh token
      where none is given, the expiry counted from `now` where a life time is given. Nothing else moves. */
  ghost predicate Renews(found: HostEntry, stored: HostEntry, token: Token, now: int) {
    && stored.authType == "bearer"
    && stored.oauthToken == token.access
    && (token.refresh != "" ==> stored.oauthRefreshToken == token.refresh)
    && (token.refresh == "" ==> stored.oauthRefreshToken == found.oauthRefreshToken)
    && (token.expiresIn > 0 ==> stored.oauthExpiresAt == now + token.expiresIn)
    && (token.expiresIn <= 0 ==> stored.oauthExpiresAt == 0)
    && stored.loginType == found.loginType && stored.loginProvider == found.loginProvider
    && stored.user == found.user && stored.apiKey == found.apiKey && stored.apiKeyHeader == found.apiKeyHeader
    && stored.basicUser == found.basicUser && stored.basicPassword == found.basicPassword
    && stored.cloudflareAccess == found.cloudflareAccess && stored.insecure == found.insecure
    && stored.selected == found.selected && stored.contexts == found.contexts
  }

  /** A refresh answers a compare-and-swap: the pair it sent is renewed, any other entry stays. */
  ghost predicate SwapsPair(found: HostEntry, stored: HostEntry, sent: HostEntry, token: Token, now: int) {
    if found.oauthToken == sent.oauthToken && found.oauthRefreshToken == sent.oauthRefreshToken
    then Renews(found, stored, token, now)
    else stored == found
  }

  /** A refresh replaces tokens only over the very pair it sent, and reports what is stored. It never
      adds or drops a host, and changes no other host. */
  lemma RefreshIsCompareAndSwap(mutation: Mutation, entries: Entries)
    requires mutation.Refresh?
    ensures var host := mutation.host;
            && (Apply(mutation, entries).None? <==> host !in entries)
            && (host in entries ==>
                 var after := Apply(mutation, entries).value;
                 && after.Keys == entries.Keys
                 && (forall other :: other in entries && other != host ==> after[other] == entries[other])
                 && after[host] == RefreshResult(mutation, entries)
                 && SwapsPair(entries[host], after[host], mutation.sent, mutation.token, mutation.now))
  {
  }

  /** After a refresh over the pair it sent, a further one is due exactly when there is a refresh token, the
      new tokens expire, and they expire within a minute. */
  lemma RefreshDueAfterRefresh(mutation: Mutation, entries: Entries, refreshable: bool, t: int)
    requires mutation.Refresh? && mutation.host in entries && SamePair(entries[mutation.host], mutation.sent)
    ensures var after := Apply(mutation, entries).value;
            var token, expiry := mutation.token, mutation.now + mutation.token.expiresIn;
            && (RefreshDue(after[mutation.host], refreshable, t) <==>
                 && refreshable
                 && (token.refresh != "" || entries[mutation.host].oauthRefreshToken != "")
                 && token.expiresIn > 0 && expiry != 0 && expiry <= t + 60)
            && (t + 60 < expiry ==> !RefreshDue(after[mutation.host], refreshable, t))
  {
    RefreshIsCompareAndSwap(mutation, entries);
  }

  /** What a login stores of the entry it is given, over the entry found or none: all of its fields, and its
      contexts win over those that stay. */
  ghost predicate Stores(entry: HostEntry, found: map<string, string>, stored: HostEntry) {
    && stored.(selected := entry.selected, contexts := entry.contexts) == entry
    && (forall name :: name in stored.contexts <==> name in entry.contexts || name in found)
    && (forall name :: name in entry.contexts ==> stored.contexts[name] == entry.contexts[name])
    && (forall name :: name in found && name !in entry.contexts ==> stored.contexts[name] == found[name])
  }

  lemma LoggedInStores(entries: Entries, host: string, entry: HostEntry)
    ensures Stores(entry, if host in entries then entries[host].contexts else map[], LoggedIn(entries, host, entry))
  {
  }

  /** Of the other hosts a login can change nothing but the selection. */
  lemma LoginStores(host: string, entry: HostEntry, entries: Entries)
    ensures Apply(Login(host, entry), entries).Some?
    ensures var after := Apply(Login(host, entry), entries).value;
            && after.Keys == entries.Keys + {host}
            && Stores(entry, if host in entries then entries[host].contexts else map[], after[host])
            && (forall other :: other in entries && other != host ==>
                  after[other].(selected := entries[other].selected) == entries[other])
  {
    LoggedInStores(entries, host, entry);
  }

  // ----- the store object

  class Hosts {
    const normalize: Normalizer
    var entries: Entries

    constructor (normalize: Normalizer)
      ensures this.normalize == normalize && entries == map[]
    {
      this.normalize := normalize;
      entries := map[];
    }

    /** The rekeying loop of loadHostsPath: `raw` is the parsed file, visited in any order. */
    constructor Load(raw: Entries, normalize: Normalizer)
      ensures this.normalize == normalize && Rekeyed(raw, entries, normalize)
    {
      this.normalize := normalize;
      entries := map[];
      new;
      var pending := raw.Keys;
      while pending != {}
        invariant pending <= raw.Keys
        invariant forall k :: k in raw && k !in pending ==> normalize(k) in entries
        invariant forall n :: n in entries ==>
          exists k :: k in raw && k !in pending && normalize(k) == n && entries[n] == raw[k]
        invariant forall n :: n in raw && n !in pending && normalize(n) == n ==> n in entries && entries[n] == raw[n]
        decreases pending
      {
        var k :| k in pending;
        pending := pending - {k};
        var norm := normalize(k);
        if norm !in entries || norm == k {
          entries := entries[norm := raw[k]];
        }
      }
    }

    method Set(hostname: string, entry: HostEntry)
      modifies this
      ensures entries == old(entries)[normalize(hostname) := entry]
    {
      entries := entries[normalize(hostname) := entry];
    }

    method Get(hostname: string) returns (entry: Option<HostEntry>)
      ensures entry == if normalize(hostname) in entries then Some(entries[normalize(hostname)]) else None
    {
      var key := normalize(hostname);
      return if key in entries then Some(entries[key]) else None;
    }

    method Delete(hostname: string) returns (deleted: bool)
      modifies this
      ensures deleted <==> normalize(hostname) in old(entries)
      ensures entries == old(entries) - {normalize(hostname)}
    {
      var key := normalize(hostname);
      if key !in entries {
        return false;
      }
      entries := entries - {key};
      return true;
    }

    /** All host names, sorted. */
    method Names() returns (names: seq<string>)
      ensures Sorted(names) && forall name :: name in names <==> name in entries
    {
      names := [];
      var pending := entries.Keys;
      while pending != {}
        invariant pending <= entries.Keys
        invariant forall name :: name in names <==> name in entries.Keys - pending
        invariant Sorted(names) && forall a, b :: a in names && b in pending ==> LessEq(a, b)
      {
        var least := LeastOf(pending);
        LessEqOrder(least, least, least);
        SortedSnoc(names, least);
        names, pending := names + [least], pending - {least};
      }
    }

    /** The first selected host in the order of the names, "" when there is none. */
    method Selected() returns (selected: string)
      ensures if SomeSelected(entries) then FirstSelected(entries, selected) else selected == ""
      ensures selected == "" <==> ReportsNoSelection(entries)
    {
      var names := Names();
      for i := 0 to |names|
        invariant forall j :: 0 <= j < i ==> !entries[names[j]].selected
      {
        if entries[names[i]].selected {
          FoundFirst(entries, names, i);
          return names[i];
        }
      }
      NoneFound(entries, names);
      return "";
    }

    method Select(hostname: string)
      modifies this
      ensures entries == WithSelection(old(entries), normalize(hostname))
    {
      var key, pending := normalize(hostname), entries.Keys;
      while pending != {}
        invariant pending <= old(entries).Keys
        invariant entries.Keys == old(entries).Keys
        invariant forall name :: name in entries ==>
          entries[name] == (if name in pending then old(entries)[name]
                            else old(entries)[name].(selected := name == key))
        decreases pending
      {
        var name :| name in pending;
        pending := pending - {name};
        entries := entries[name := entries[name].(selected := name == key)];
      }
    }

    /** The mutation closure of newLogin. */
    method LoginMutation(hostname: string, entry: HostEntry) returns (elected: bool)
      modifies this
      ensures Apply(Login(normalize(hostname), entry), old(entries)) == Some(entries)
      ensures elected <==> ReportsNoSelection(old(entries)[normalize(hostname) :=
                             LoggedIn(old(entries), normalize(hostname), entry)])
    {
      var current := Get(hostname);
      var contexts: map<string, string> := if current.Some? then current.value.contexts else map[];
      contexts := contexts + entry.contexts;
      Set(hostname, entry.(contexts := contexts, selected := current.Some? && current.value.selected));
      assert entries == old(entries)[normalize(hostname) := LoggedIn(old(entries), normalize(hostname), entry)] by {
        assert map[] + entry.contexts == entry.contexts;
      }
      var selected := Selected();
      elected := selected == "";
      if elected {
        Select(hostname);
      }
    }

    /** The mutation closure of refreshHostAuth; `updated` is what the refresh returns. */
    method RefreshMutation(hostname: string, sent: HostEntry, token: Token, now: int)
        returns (ok: bool, updated: HostEntry)
      modifies this
      ensures ok <==> normalize(hostname) in old(entries)
      ensures ok ==> SwapsPair(old(entries)[normalize(hostname)], updated, sent, token, now)
      ensures entries == if ok then old(entries)[normalize(hostname) := updated] else old(entries)
      ensures Apply(Refresh(normalize(hostname), sent, token, now), old(entries)) ==
              if ok then Some(entries) else None
    {
      var current := Get(hostname);
      if current.None? {
        return false, sent;
      }
      updated := current.value;
      if updated.oauthToken != sent.oauthToken || updated.oauthRefreshToken != sent.oauthRefreshToken {
        return true, updated;
      }
      updated := updated.(authType := "bearer", oauthToken := token.access);
      if token.refresh != "" {
        updated := updated.(oauthRefreshToken := token.refresh);
      }
      updated := updated.(oauthExpiresAt := if token.expiresIn > 0 then now + token.expiresIn else 0);
      Set(hostname, updated);
      return true, updated;
    }

    /** The mutation closure of persistOperationContext. */
    method ContextMutation(hostname: string, name: string, value: string) returns (ok: bool)
      modifies this
      ensures ok <==> Apply(SetContext(normalize(hostname), name, value), old(entries)).Some?
      ensures entries ==
        if ok then Apply(SetContext(normalize(hostname), name, value), old(entries)).value else old(entries)
    {
      var entry := Get(hostname);
      if entry.None? {
        return false;
      }
      Set(hostname, entry.value.(contexts := entry.value.contexts[name := value]));
      return true;
    }
  }
}
