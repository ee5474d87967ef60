/** Any number of processes sharing the host file: unlocked reads, remote calls, and locked
    load-mutate-save sequences, interleaved step by step (pkg/config/hosts.go, pkg/runtime/oauth.go). */
module HostProtocol {
  import opened Wrappers
  import opened HostStore

  type Pid(==, !new) = nat

  datatype Pc =
    | Idle
    | Asking(host: string, sent: HostEntry)           // the refresh request is at the server
    | Waiting(mutation: Mutation)                     // wants the lock
    | Holding(mutation: Mutation)                     // has the lock
    | Loaded(mutation: Mutation, copy: Entries)       // has read the file under the lock
    | Done                                            // saved or gave up, still has the lock

  datatype Commit = Commit(mutation: Mutation, loaded: Entries, saved: Entries)

  datatype System = System(file: Entries, pcs: map<Pid, Pc>, history: seq<Commit>, start: Entries)

  function PcOf(s: System, p: Pid): Pc {
    if p in s.pcs then s.pcs[p] else Idle
  }

  predicate HasLock(pc: Pc) {
    pc.Holding? || pc.Loaded? || pc.Done?
  }

  // ----- the steps of one process

  function Move(s: System, p: Pid, pc: Pc): System {
    s.(pcs := s.pcs[p := pc])
  }

  ghost predicate ReadFrom(file: Entries, host: string, sent: HostEntry, normalize: Normalizer) {
    exists view :: Rekeyed(file, view, normalize) && host in view && view[host] == sent
  }

  /** LoadHosts without the lock, then the request with the refresh token that was read. */
  ghost predicate ReadAndAsk(s: System, t: System, p: Pid, normalize: Normalizer) {
    && PcOf(s, p).Idle?
    && exists host, sent :: ReadFrom(s.file, host, sent, normalize) && t == Move(s, p, Asking(host, sent))
  }

  /** The server answers with a token, or the refresh is given up. */
  ghost predicate Answer(s: System, t: System, p: Pid) {
    && PcOf(s, p).Asking?
    && (|| t == Move(s, p, Idle)
        || exists token, now :: t == Move(s, p, Waiting(Refresh(PcOf(s, p).host, PcOf(s, p).sent, token, now))))
  }

  /** Login, logout, use and context writes come from outside, whatever happened before. */
  ghost predicate Decide(s: System, t: System, p: Pid) {
    && PcOf(s, p).Idle?
    && exists mutation: Mutation :: !mutation.Refresh? && t == Move(s, p, Waiting(mutation))
  }

  ghost predicate Acquire(s: System, t: System, p: Pid) {
    && PcOf(s, p).Waiting?
    && (forall q :: !HasLock(PcOf(s, q)))
    && t == Move(s, p, Holding(PcOf(s, p).mutation))
  }

  ghost predicate Load(s: System, t: System, p: Pid, normalize: Normalizer) {
    && PcOf(s, p).Holding?
    && exists copy :: Rekeyed(s.file, copy, normalize) && t == Move(s, p, Loaded(PcOf(s, p).mutation, copy))
  }

  /** The mutation succeeds and the file is replaced atomically, or it fails and nothing is written. */
  ghost predicate MutateAndSave(s: System, t: System, p: Pid) {
    && PcOf(s, p).Loaded?
    && var mutation, copy := PcOf(s, p).mutation, PcOf(s, p).copy;
       match Apply(mutation, copy)
       case Some(saved) => t == Move(s, p, Done).(file := saved, history := s.history + [Commit(mutation, copy, saved)])
       case None => t == Move(s, p, Done)
  }

  ghost predicate Release(s: System, t: System, p: Pid) {
    PcOf(s, p).Done? && t == Move(s, p, Idle)
  }

  /** A process may give up or die at any point; the operating system then drops its lock. */
  ghost predicate Crash(s: System, t: System, p: Pid) {
    t == Move(s, p, Idle)
  }

  ghost predicate Next(s: System, t: System, p: Pid, normalize: Normalizer) {
    || ReadAndAsk(s, t, p, normalize)
    || Answer(s, t, p)
    || Decide(s, t, p)
    || Acquire(s, t, p)
    || Load(s, t, p, normalize)
    || MutateAndSave(s, t, p)
    || Release(s, t, p)
    || Crash(s, t, p)
  }

  ghost predicate SomeStep(s: System, t: System, normalize: Normalizer) {
    exists p: Pid :: Next(s, t, p, normalize)
  }

  /** A run: any process takes the next step. */
  ghost predicate IsRun(run: seq<System>, start: Entries, normalize: Normalizer) {
    && run != []
    && run[0] == System(start, map[], [], start)
    && forall i :: 0 < i < |run| ==> SomeStep(run[i - 1], run[i], normalize)
  }

  // ----- the invariant

  /** The file after the first `n` commits. */
  function Version(s: System, n: nat): Entries
    requires n <= |s.history|
  {
    if n == 0 then s.start else s.history[n - 1].saved
  }

  /** The n-th commit: it loaded the version before it and saved what its mutation made of that. */
  ghost predicate Committed(s: System, n: nat, normalize: Normalizer)
    requires n < |s.history|
  {
    var c := s.history[n];
    Rekeyed(Version(s, n), c.loaded, normalize) && Apply(c.mutation, c.loaded) == Some(c.saved)
  }

  /** The file is the result of the committed mutations, run one after the other in lock order. */
  ghost predicate Serial(s: System, normalize: Normalizer) {
    && s.file == Version(s, |s.history|)
    && forall n :: 0 <= n < |s.history| ==> Committed(s, n, normalize)
  }

  ghost predicate MutualExclusion(s: System) {
    forall p, q :: HasLock(PcOf(s, p)) && HasLock(PcOf(s, q)) ==> p == q
  }

  /** Under the lock the loaded copy cannot become stale. */
  ghost predicate CopiesFresh(s: System, normalize: Normalizer) {
    forall p :: PcOf(s, p).Loaded? ==> Rekeyed(s.file, PcOf(s, p).copy, normalize)
  }

  /** What a refresh sends was once in the file. */
  ghost predicate WasStored(s: System, host: string, sent: HostEntry, normalize: Normalizer) {
    exists n: nat :: n <= |s.history| && ReadFrom(Version(s, n), host, sent, normalize)
  }

  /** A committed refresh had read its host from a version no later than the one it was applied to. */
  ghost predicate RefreshHadRead(s: System, n: nat, normalize: Normalizer)
    requires n < |s.history|
  {
    var m := s.history[n].mutation;
    m.Refresh? ==> exists k: nat :: k <= n && ReadFrom(Version(s, k), m.host, m.sent, normalize)
  }

  function PendingMutation(pc: Pc): Option<Mutation> {
    match pc
    case Waiting(m) => Some(m)
    case Holding(m) => Some(m)
    case Loaded(m, _) => Some(m)
    case _ => None
  }

  ghost predicate SentWasStored(s: System, normalize: Normalizer) {
    && (forall p :: PcOf(s, p).Asking? ==> WasStored(s, PcOf(s, p).host, PcOf(s, p).sent, normalize))
    && (forall p :: PendingMutation(PcOf(s, p)).Some? && PendingMutation(PcOf(s, p)).value.Refresh? ==>
          var m := PendingMutation(PcOf(s, p)).value;
          WasStored(s, m.host, m.sent, normalize))
    && (forall n :: 0 <= n < |s.history| ==> RefreshHadRead(s, n, normalize))
  }

  ghost predicate Inv(s: System, normalize: Normalizer) {
    Serial(s, normalize) && MutualExclusion(s) && CopiesFresh(s, normalize) && SentWasStored(s, normalize)
  }

  // ----- every step keeps the invariant

  lemma PcAfterMove(s: System, p: Pid, pc: Pc)
    ensures forall q :: PcOf(Move(s, p, pc), q) == if q == p then pc else PcOf(s, q)
  {
  }

  /** The new place of a process does not disturb the invariant. */
  ghost predicate Harmless(s: System, p: Pid, pc: Pc, normalize: Normalizer) {
    && (HasLock(pc) ==> HasLock(PcOf(s, p)) || forall q :: !HasLock(PcOf(s, q)))
    && (pc.Loaded? ==> Rekeyed(s.file, pc.copy, normalize))
    && (pc.Asking? ==> WasStored(s, pc.host, pc.sent, normalize))
    && (PendingMutation(pc).Some? && PendingMutation(pc).value.Refresh? ==>
          WasStored(s, PendingMutation(pc).value.host, PendingMutation(pc).value.sent, normalize))
  }

  /** A step that only moves one process and leaves the file alone. */
  lemma QuietStep(s: System, t: System, p: Pid, pc: Pc, normalize: Normalizer)
    requires Inv(s, normalize) && t == Move(s, p, pc) && Harmless(s, p, pc, normalize)
    ensures Inv(t, normalize)
  {
    PcAfterMove(s, p, pc);
    SameHistory(s, t, normalize);
  }

  lemma SameHistory(s: System, t: System, normalize: Normalizer)
    requires s.file == t.file && s.history == t.history && s.start == t.start
    ensures Serial(s, normalize) <==> Serial(t, normalize)
    ensures forall host, sent :: WasStored(s, host, sent, normalize) ==> WasStored(t, host, sent, normalize)
    ensures forall n :: 0 <= n < |s.history| ==> RefreshHadRead(s, n, normalize) == RefreshHadRead(t, n, normalize)
  {
    assert forall n :: 0 <= n <= |s.history| ==> Version(s, n) == Version(t, n);
    assert forall n :: 0 <= n < |s.history| ==> Committed(s, n, normalize) == Committed(t, n, normalize);
    forall n | 0 <= n < |s.history| ensures RefreshHadRead(s, n, normalize) == RefreshHadRead(t, n, normalize) {
      assert forall k: nat :: k <= n ==> Version(s, k) == Version(t, k);
    }
  }

  lemma LongerHistory(s: System, t: System, c: Commit, normalize: Normalizer)
    requires Serial(s, normalize)
    requires t.start == s.start && t.history == s.history + [c] && t.file == c.saved
    requires Rekeyed(s.file, c.loaded, normalize) && Apply(c.mutation, c.loaded) == Some(c.saved)
    ensures Serial(t, normalize)
    ensures forall host, sent :: WasStored(s, host, sent, normalize) ==> WasStored(t, host, sent, normalize)
  {
    assert forall n :: 0 <= n <= |s.history| ==> Version(s, n) == Version(t, n);
    forall n | 0 <= n < |t.history| ensures Committed(t, n, normalize) {
      if n < |s.history| {
        assert Committed(s, n, normalize);
      }
    }
  }

  lemma LongerRefreshHistory(s: System, t: System, c: Commit, normalize: Normalizer)
    requires t.start == s.start && t.history == s.history + [c]
    requires forall n :: 0 <= n < |s.history| ==> RefreshHadRead(s, n, normalize)
    requires c.mutation.Refresh? ==> WasStored(s, c.mutation.host, c.mutation.sent, normalize)
    ensures forall n :: 0 <= n < |t.history| ==> RefreshHadRead(t, n, normalize)
  {
    assert forall k :: 0 <= k <= |s.history| ==> Version(s, k) == Version(t, k);
    forall n | 0 <= n < |t.history| ensures RefreshHadRead(t, n, normalize) {
      var m := t.history[n].mutation;
      if m.Refresh? {
        if n < |s.history| {
          assert RefreshHadRead(s, n, normalize);
          var k: nat :| k <= n && ReadFrom(Version(s, k), m.host, m.sent, normalize);
          assert ReadFrom(Version(t, k), m.host, m.sent, normalize);
        } else {
          var k: nat :| k <= |s.history| && ReadFrom(Version(s, k), m.host, m.sent, normalize);
          assert ReadFrom(Version(t, k), m.host, m.sent, normalize);
        }
      }
    }
  }

  lemma SaveKeepsInv(s: System, t: System, p: Pid, normalize: Normalizer)
    requires Inv(s, normalize) && MutateAndSave(s, t, p)
    ensures Inv(t, normalize)
  {
    var mutation, copy := PcOf(s, p).mutation, PcOf(s, p).copy;
    if Apply(mutation, copy).Some? {
      var c := Commit(mutation, copy, Apply(mutation, copy).value);
      LongerHistory(s, t, c, normalize);
      LongerRefreshHistory(s, t, c, normalize);
      PcAfterMove(s, p, Done);
      assert forall q :: PcOf(t, q) == PcOf(Move(s, p, Done), q);
    } else {
      QuietStep(s, t, p, Done, normalize);
    }
  }

  lemma NowStored(s: System, host: string, sent: HostEntry, normalize: Normalizer)
    requires Serial(s, normalize) && ReadFrom(s.file, host, sent, normalize)
    ensures WasStored(s, host, sent, normalize)
  {
    assert ReadFrom(Version(s, |s.history|), host, sent, normalize);
  }

  lemma HarmlessAsking(s: System, p: Pid, host: string, sent: HostEntry, normalize: Normalizer)
    requires WasStored(s, host, sent, normalize)
    ensures Harmless(s, p, Asking(host, sent), normalize)
  {
  }

  lemma AskKeepsInv(s: System, t: System, p: Pid, host: string, sent: HostEntry, normalize: Normalizer)
    requires Inv(s, normalize) && ReadFrom(s.file, host, sent, normalize) && t == Move(s, p, Asking(host, sent))
    ensures Inv(t, normalize)
  {
    NowStored(s, host, sent, normalize);
    HarmlessAsking(s, p, host, sent, normalize);
    QuietStep(s, t, p, Asking(host, sent), normalize);
  }

  lemma ReadKeepsInv(s: System, t: System, p: Pid, normalize: Normalizer)
    requires Inv(s, normalize) && ReadAndAsk(s, t, p, normalize)
    ensures Inv(t, normalize)
  {
    var host, sent :| ReadFrom(s.file, host, sent, normalize) && t == Move(s, p, Asking(host, sent));
    AskKeepsInv(s, t, p, host, sent, normalize);
  }

  lemma SentStored(s: System, p: Pid, normalize: Normalizer)
    requires Inv(s, normalize) && PcOf(s, p).Asking?
    ensures WasStored(s, PcOf(s, p).host, PcOf(s, p).sent, normalize)
  {
  }

  lemma AnswerKeepsInv(s: System, t: System, p: Pid, token: Token, now: int, normalize: Normalizer)
    requires Inv(s, normalize) && PcOf(s, p).Asking?
    requires t == Move(s, p, Waiting(Refresh(PcOf(s, p).host, PcOf(s, p).sent, token, now)))
    ensures Inv(t, normalize)
  {
    SentStored(s, p, normalize);
    var pc := Waiting(Refresh(PcOf(s, p).host, PcOf(s, p).sent, token, now));
    assert Harmless(s, p, pc, normalize);
    QuietStep(s, t, p, pc, normalize);
  }

  lemma AskingKeepsInv(s: System, t: System, p: Pid, normalize: Normalizer)
    requires Inv(s, normalize) && (ReadAndAsk(s, t, p, normalize) || Answer(s, t, p))
    ensures Inv(t, normalize)
  {
    if ReadAndAsk(s, t, p, normalize) {
      ReadKeepsInv(s, t, p, normalize);
    } else if t == Move(s, p, Idle) {
      QuietStep(s, t, p, Idle, normalize);
    } else {
      var token, now :| t == Move(s, p, Waiting(Refresh(PcOf(s, p).host, PcOf(s, p).sent, token, now)));
      AnswerKeepsInv(s, t, p, token, now, normalize);
    }
  }

  lemma LockingKeepsInv(s: System, t: System, p: Pid, normalize: Normalizer)
    requires Inv(s, normalize) && (Acquire(s, t, p) || Load(s, t, p, normalize))
    ensures Inv(t, normalize)
  {
    if Acquire(s, t, p) {
      QuietStep(s, t, p, Holding(PcOf(s, p).mutation), normalize);
    } else {
      var copy :| Rekeyed(s.file, copy, normalize) && t == Move(s, p, Loaded(PcOf(s, p).mutation, copy));
      QuietStep(s, t, p, Loaded(PcOf(s, p).mutation, copy), normalize);
    }
  }

  lemma DecideKeepsInv(s: System, t: System, p: Pid, normalize: Normalizer)
    requires Inv(s, normalize) && (Decide(s, t, p) || Release(s, t, p) || Crash(s, t, p))
    ensures Inv(t, normalize)
  {
    if t == Move(s, p, Idle) {
      QuietStep(s, t, p, Idle, normalize);
    } else {
      var mutation: Mutation :| !mutation.Refresh? && t == Move(s, p, Waiting(mutation));
      QuietStep(s, t, p, Waiting(mutation), normalize);
    }
  }

  lemma NextKeepsInv(s: System, t: System, p: Pid, normalize: Normalizer)
    requires Inv(s, normalize) && Next(s, t, p, normalize)
    ensures Inv(t, normalize) && t.start == s.start
  {
    if ReadAndAsk(s, t, p, normalize) || Answer(s, t, p) {
      AskingKeepsInv(s, t, p, normalize);
    } else if Acquire(s, t, p) || Load(s, t, p, normalize) {
      LockingKeepsInv(s, t, p, normalize);
    } else if MutateAndSave(s, t, p) {
      SaveKeepsInv(s, t, p, normalize);
    } else {
      DecideKeepsInv(s, t, p, normalize);
    }
  }

  /** Every state of every run satisfies the invariant. */
  lemma {:induction false} RunsKeepInv(run: seq<System>, start: Entries, normalize: Normalizer, i: nat)
    requires IsRun(run, start, normalize) && i < |run|
    ensures Inv(run[i], normalize) && run[i].start == start
  {
    if i == 0 {
      StartInv(start, normalize);
    } else {
      RunsKeepInv(run, start, normalize, i - 1);
      assert SomeStep(run[i - 1], run[i], normalize);
      StepKeepsInv(run[i - 1], run[i], normalize);
    }
  }

  lemma StartInv(start: Entries, normalize: Normalizer)
    ensures Inv(System(start, map[], [], start), normalize)
  {
  }

  lemma StepKeepsInv(s: System, t: System, normalize: Normalizer)
    requires Inv(s, normalize) && SomeStep(s, t, normalize)
    ensures Inv(t, normalize) && t.start == s.start
  {
    var p: Pid :| Next(s, t, p, normalize);
    NextKeepsInv(s, t, p, normalize);
  }

  // ----- consequences

  lemma {:induction false} VersionsKeepAtMostOne(s: System, n: nat, normalize: Normalizer)
    requires Serial(s, normalize) && n <= |s.history| && AtMostOneSelected(s.start)
    ensures AtMostOneSelected(Version(s, n))
    ensures n < |s.history| ==> AtMostOneSelected(s.history[n].loaded)
  {
    if n == 0 {
    } else {
      VersionsKeepAtMostOne(s, n - 1, normalize);
      assert Committed(s, n - 1, normalize);
      ApplyKeepsAtMostOne(s.history[n - 1].mutation, s.history[n - 1].loaded);
    }
    if n < |s.history| {
      assert Committed(s, n, normalize);
      RekeyKeepsAtMostOne(Version(s, n), s.history[n].loaded, normalize);
    }
  }

  /** At most one host is selected in every state of every run, and exactly one in the file that a
      login or a use has just committed. */
  lemma SelectionInRuns(run: seq<System>, start: Entries, normalize: Normalizer, i: nat)
    requires IsRun(run, start, normalize) && i < |run| && AtMostOneSelected(start)
    ensures AtMostOneSelected(run[i].file)
    ensures var h := run[i].history;
            h != [] && (h[|h| - 1].mutation.Login? || h[|h| - 1].mutation.Use?) ==>
              exists host :: ExactlySelected(run[i].file, host)
  {
    RunsKeepInv(run, start, normalize, i);
    var s := run[i];
    VersionsKeepAtMostOne(s, |s.history|, normalize);
    if s.history != [] {
      var n := |s.history| - 1;
      VersionsKeepAtMostOne(s, n, normalize);
      assert Committed(s, n, normalize);
      if s.history[n].mutation.Login? || s.history[n].mutation.Use? {
        var host := ExactlyOneAfterLoginOrUse(s.history[n].mutation, s.history[n].loaded);
      }
    }
  }

  /** In every run: a committed refresh had read its entry from an earlier version, renewed the one it found
      where the token pair was still the one it had sent, and left it alone where not. It reports what it
      stored; hosts logged out meanwhile stay out, contexts written meanwhile stay, and no other host changes. */
  lemma RefreshesInRuns(run: seq<System>, start: Entries, normalize: Normalizer, i: nat, n: nat)
    requires IsRun(run, start, normalize) && i < |run| && n < |run[i].history|
    requires run[i].history[n].mutation.Refresh?
    ensures var c := run[i].history[n];
            var host, sent := c.mutation.host, c.mutation.sent;
            && RefreshHadRead(run[i], n, normalize)
            && host in c.loaded
            && c.saved.Keys == c.loaded.Keys
            && (forall other :: other in c.loaded && other != host ==> c.saved[other] == c.loaded[other])
            && c.saved[host] == RefreshResult(c.mutation, c.loaded)
            && SwapsPair(c.loaded[host], c.saved[host], sent, c.mutation.token, c.mutation.now)
  {
    RunsKeepInv(run, start, normalize, i);
    var c := run[i].history[n];
    assert Committed(run[i], n, normalize);
    RefreshIsCompareAndSwap(c.mutation, c.loaded);
  }
}
