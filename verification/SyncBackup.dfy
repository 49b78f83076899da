/**
  The one-time backup the sync engine takes before it first writes to a host directory.
 */
module SyncBackup {
  import opened Prelude
  import opened Sorting
  import opened Sync
  import opened SyncRuns
  import opened SyncArtifacts

  /** Mid-pass: the host is as the pass found it, or `p` is in the backup as the pass found it. */
  ghost predicate Recoverable(cfg: Config, w: Weather, start: State, s: State, p: Path) {
    if s.backupDone then w.backupFails || Lookup(s.host, BackupPath(w.stamp, p)) == Lookup(start.host, p)
    else s.host == start.host
  }

  lemma BackupRecovers(cfg: Config, w: Weather, start: State, s: State, p: Path)
    requires p in HostFiles(cfg, start.host) && !w.git && Recoverable(cfg, w, start, s, p)
    ensures Recoverable(cfg, w, start, EnsureBackup(cfg, w, s).0, p) && EnsureBackup(cfg, w, s).0.backupDone
  {
    if !s.backupDone && !w.backupFails {
      var copies := BackupOf(cfg, w.stamp, s.host);
      OriginalOfBackup(w.stamp);
      assert BackupPath(w.stamp, p) in copies && copies[BackupPath(w.stamp, p)] == s.host[p];
    }
  }

  lemma PullRecovers(cfg: Config, w: Weather, start: State, s: State, q: Path, p: Path)
    requires cfg.GuardsArtifacts() && !cfg.denied(q) && p in HostFiles(cfg, start.host) && !w.git
    requires Recoverable(cfg, w, start, s, p)
    ensures Recoverable(cfg, w, start, DoPull(cfg, w, s, q).0, p)
  {
    BackupRecovers(cfg, w, start, s, p);
    assert q != BackupPath(w.stamp, p);
  }

  lemma ConflictRecovers(cfg: Config, w: Weather, start: State, s: State, q: Path, p: Path, sandboxHash: Digest)
    requires cfg.GuardsArtifacts() && !cfg.denied(q) && p in HostFiles(cfg, start.host) && !w.git
    requires Recoverable(cfg, w, start, s, p)
    ensures Recoverable(cfg, w, start, DoConflict(cfg, w, s, q, sandboxHash).0, p)
  {
    BackupRecovers(cfg, w, start, s, p);
    BackupIsNotSibling(cfg, w.stamp, p, q);
  }

  lemma StepRecovers(cfg: Config, w: Weather, start: State, s: State, q: Path, p: Path,
                     host: map<Path, Digest>, sandbox: map<Path, Digest>)
    requires cfg.GuardsArtifacts() && !cfg.denied(q) && p in HostFiles(cfg, start.host) && !w.git
    requires Recoverable(cfg, w, start, s, p)
    ensures Recoverable(cfg, w, start, ReconcileOne(cfg, w, s, q, host, sandbox).0, p)
  {
    match Decide(Lookup(host, q), Lookup(sandbox, q), Lookup(s.base, q), q in s.tombstone)
    case Pull => PullRecovers(cfg, w, start, s, q, p);
    case RecordConflict => ConflictRecovers(cfg, w, start, s, q, p, sandbox[q]);
    case _ =>
  }

  lemma {:induction false} SettleRecovers(cfg: Config, w: Weather, start: State, s: State, paths: seq<Path>, p: Path,
                                          host: map<Path, Digest>, sandbox: map<Path, Digest>)
    requires cfg.GuardsArtifacts() && p in HostFiles(cfg, start.host) && !w.git && Recoverable(cfg, w, start, s, p)
    requires forall q :: q in paths ==> !cfg.denied(q)
    ensures Recoverable(cfg, w, start, Settle(cfg, w, s, paths, host, sandbox).0, p)
    decreases |paths|
  {
    if paths == [] {
    } else {
      StepRecovers(cfg, w, start, s, paths[0], p, host, sandbox);
      SettleRecovers(cfg, w, start, ReconcileOne(cfg, w, s, paths[0], host, sandbox).0, paths[1..], p, host, sandbox);
    }
  }

  lemma PassRecovers(cfg: Config, w: Weather, s: State, p: Path)
    requires cfg.GuardsArtifacts() && BaseAllowed(cfg, s) && !s.backupDone && !w.git && p in HostFiles(cfg, s.host)
    ensures Recoverable(cfg, w, s, Pass(cfg, w, s).0, p)
  {
    var paths := SortedSet(KnownPaths(cfg, s));
    forall q | q in paths ensures !cfg.denied(q) {
      assert q in Elements(paths);
      KnownAllowed(cfg, s, q);
    }
    SettleRecovers(cfg, w, s, s, paths, p, HostFiles(cfg, s.host), Manifest(cfg, s.sandbox));
  }

  /** In a directory that is not a git repository, the pass that first writes to the host
      leaves every file the walk could see recoverable from the backup, as it stood when the
      pass began, unless taking the backup failed. */
  lemma FirstWriteIsUndoable(cfg: Config, w: Weather, s: State, p: Path)
    requires cfg.GuardsArtifacts() && BaseAllowed(cfg, s) && !s.backupDone && !w.git && !w.backupFails
    requires p in s.host && !cfg.HostSkips(p)
    ensures var t := Pass(cfg, w, s).0;
            t.host == s.host || Lookup(t.host, BackupPath(w.stamp, p)) == Some(s.host[p])
  {
    PassRecovers(cfg, w, s, p);
  }

  /** Both sides of `p` agreed on [1]; the sandbox then wrote [2]. */
  function AgentEdited(cfg: Config, p: Path, backupDone: bool): State {
    State(map[p := [1]], map[p := [2]], map[p := cfg.sha([1])], {}, map[], backupDone)
  }

  /** The one step a pass over that state takes. */
  lemma AgentEditIsPulled(cfg: Config, w: Weather, p: Path, backupDone: bool)
    requires CollisionFree(cfg.sha) && !cfg.HostSkips(p)
    ensures Pass(cfg, w, AgentEdited(cfg, p, backupDone)) == DoPull(cfg, w, AgentEdited(cfg, p, backupDone), p)
  {
    var s := AgentEdited(cfg, p, backupDone);
    SameDigest(cfg, [1], [2]);
    assert KnownPaths(cfg, s) == {p};
    SinglePathPass(cfg, w, s, p);
    assert Decide(Some(cfg.sha([1])), Some(cfg.sha([2])), Some(cfg.sha([1])), false) == Pull;
  }

  lemma PullOfAgentEdit(cfg: Config, w: Weather, p: Path, backupDone: bool)
    requires CollisionFree(cfg.sha) && !cfg.HostSkips(p)
    requires p !in w.cut && p !in w.unwritable && !w.git
    ensures !backupDone && w.backupFails ==>
              Pass(cfg, w, AgentEdited(cfg, p, backupDone)).0 == AgentEdited(cfg, p, true)
    ensures backupDone ==> Pass(cfg, w, AgentEdited(cfg, p, backupDone)).0.host == map[p := [2]]
  {
    AgentEditIsPulled(cfg, w, p, backupDone);
  }

  lemma BackupIsKept(cfg: Config, w: Weather, s: State)
    requires cfg.GuardsArtifacts() && BaseAllowed(cfg, s) && !s.backupDone && !w.git && !w.backupFails
    ensures BackupKept(cfg, w, s)
  {
    forall p | p in s.host && !cfg.HostSkips(p)
      ensures Recoverable(cfg, w, s, Pass(cfg, w, s).0, p)
    {
      PassRecovers(cfg, w, s, p);
    }
  }

  /** The pass that attempts the backup left every file the walk could see in it. */
  ghost predicate BackupKept(cfg: Config, w: Weather, s: State) {
    var t := Pass(cfg, w, s).0;
    t.backupDone ==> forall p :: p in s.host && !cfg.HostSkips(p) ==>
      Lookup(t.host, BackupPath(w.stamp, p)) == Some(s.host[p])
  }

  /** Outside git, a pass that marks the backup as done has really made it, whatever the state
      it starts from, exactly if the backup does not fail. `q` is any file the pass can move. */
  lemma BackupKeptExactly(cfg: Config, w: Weather, q: Path)
    requires cfg.GuardsArtifacts() && CollisionFree(cfg.sha) && !w.git
    requires !cfg.HostSkips(q) && q !in w.cut && q !in w.unwritable
    ensures (forall s :: BaseAllowed(cfg, s) && !s.backupDone ==> BackupKept(cfg, w, s)) <==> !w.backupFails
  {
    if w.backupFails {
      var s := AgentEdited(cfg, q, false);
      PullOfAgentEdit(cfg, w, q, false);
      assert BackupPath(w.stamp, q) != q;
      assert q in s.host && BaseAllowed(cfg, s) && !BackupKept(cfg, w, s);
    } else {
      forall s | BaseAllowed(cfg, s) && !s.backupDone ensures BackupKept(cfg, w, s) {
        BackupIsKept(cfg, w, s);
      }
    }
  }

  const FAILING := Weather("20060102-150405", false, {}, {}, true)
  const FINE := Weather("20060102-150406", false, {}, {}, false)

  /** A backup that fails is not attempted again: the next pass replaces the operator's file
      with no copy of it kept anywhere on the host. */
  lemma FailedBackupIsNotRetried(cfg: Config, p: Path)
    requires CollisionFree(cfg.sha) && !cfg.HostSkips(p)
    ensures var start := State(map[p := [1]], map[], map[], {}, map[], false);
            var edited := Next(cfg, Next(cfg, start, Upload({p})), SandboxWrite(p, [2]));
            Fresh(start) && Pass(cfg, FINE, Pass(cfg, FAILING, edited).0).0.host == map[p := [2]]
  {
    AgentEditReached(cfg, p);
    PullOfAgentEdit(cfg, FAILING, p, false);
    PullOfAgentEdit(cfg, FINE, p, true);
  }

  lemma AgentEditReached(cfg: Config, p: Path)
    requires !cfg.HostSkips(p)
    ensures var start := State(map[p := [1]], map[], map[], {}, map[], false);
            Next(cfg, Next(cfg, start, Upload({p})), SandboxWrite(p, [2])) == AgentEdited(cfg, p, false)
  {
    var start := State(map[p := [1]], map[], map[], {}, map[], false);
    assert HostFiles(cfg, start.host).Keys * {p} == {p};
    assert CopyIn(cfg, start, {p}).sandbox == map[p := [1]];
    assert CopyIn(cfg, start, {p}).base == map[p := cfg.sha([1])];
  }

  // ---------------------------------------------------------------------------
  // Over whole runs
  // ---------------------------------------------------------------------------

  /** Nothing is written to the host short of the backup, nor when the backup fails. */
  ghost predicate Unwritten(w: Weather, s: State, t: State) {
    !t.backupDone || (!w.git && w.backupFails) ==> t.host == s.host
  }

  lemma StepBeforeBackup(cfg: Config, w: Weather, s: State, p: Path, host: map<Path, Digest>,
                         sandbox: map<Path, Digest>)
    requires !s.backupDone
    ensures var (t, ok) := ReconcileOne(cfg, w, s, p, host, sandbox);
            Unwritten(w, s, t) && (ok && !w.git && w.backupFails ==> !t.backupDone)
  {
  }

  lemma StepKeepsFlag(cfg: Config, w: Weather, s: State, p: Path, host: map<Path, Digest>, sandbox: map<Path, Digest>)
    requires s.backupDone
    ensures ReconcileOne(cfg, w, s, p, host, sandbox).0.backupDone
  {
  }

  lemma {:induction false} SettleKeepsFlag(cfg: Config, w: Weather, s: State, paths: seq<Path>,
                                           host: map<Path, Digest>, sandbox: map<Path, Digest>)
    requires s.backupDone
    ensures Settle(cfg, w, s, paths, host, sandbox).0.backupDone
    decreases |paths|
  {
    if paths == [] {
    } else {
      StepKeepsFlag(cfg, w, s, paths[0], host, sandbox);
      SettleKeepsFlag(cfg, w, ReconcileOne(cfg, w, s, paths[0], host, sandbox).0, paths[1..], host, sandbox);
    }
  }

  lemma {:induction false} SettleBeforeBackup(cfg: Config, w: Weather, s: State, paths: seq<Path>,
                                              host: map<Path, Digest>, sandbox: map<Path, Digest>)
    requires !s.backupDone
    ensures Unwritten(w, s, Settle(cfg, w, s, paths, host, sandbox).0)
    decreases |paths|
  {
    if paths == [] {
    } else {
      var (t, ok) := ReconcileOne(cfg, w, s, paths[0], host, sandbox);
      StepBeforeBackup(cfg, w, s, paths[0], host, sandbox);
      if !t.backupDone {
        SettleBeforeBackup(cfg, w, t, paths[1..], host, sandbox);
      } else {
        SettleKeepsFlag(cfg, w, t, paths[1..], host, sandbox);
      }
    }
  }

  /** No pass writes to the host before the backup was attempted, and the pass whose attempt
      fails writes nothing either. */
  lemma NothingWrittenBeforeBackup(cfg: Config, w: Weather, s: State)
    requires !s.backupDone
    ensures Unwritten(w, s, Pass(cfg, w, s).0)
  {
    SettleBeforeBackup(cfg, w, s, SortedSet(KnownPaths(cfg, s)), HostFiles(cfg, s.host), Manifest(cfg, s.sandbox));
  }

  lemma StepKeepsCopy(cfg: Config, w: Weather, s: State, q: Path, stamp: Stamp, p: Path,
                      host: map<Path, Digest>, sandbox: map<Path, Digest>)
    requires cfg.GuardsArtifacts() && s.backupDone && !cfg.denied(p) && !cfg.denied(q)
    ensures Lookup(ReconcileOne(cfg, w, s, q, host, sandbox).0.host, BackupPath(stamp, p)) ==
              Lookup(s.host, BackupPath(stamp, p))
  {
    assert q != BackupPath(stamp, p);
    BackupIsNotSibling(cfg, stamp, p, q);
  }

  lemma {:induction false} SettleKeepsCopy(cfg: Config, w: Weather, s: State, paths: seq<Path>, stamp: Stamp, p: Path,
                                           host: map<Path, Digest>, sandbox: map<Path, Digest>)
    requires cfg.GuardsArtifacts() && s.backupDone && !cfg.denied(p) && forall q :: q in paths ==> !cfg.denied(q)
    ensures Lookup(Settle(cfg, w, s, paths, host, sandbox).0.host, BackupPath(stamp, p)) ==
              Lookup(s.host, BackupPath(stamp, p))
    decreases |paths|
  {
    if paths == [] {
    } else {
      StepKeepsCopy(cfg, w, s, paths[0], stamp, p, host, sandbox);
      StepKeepsFlag(cfg, w, s, paths[0], host, sandbox);
      SettleKeepsCopy(cfg, w, ReconcileOne(cfg, w, s, paths[0], host, sandbox).0, paths[1..], stamp, p, host, sandbox);
    }
  }

  lemma PassKeepsCopy(cfg: Config, w: Weather, s: State, stamp: Stamp, p: Path)
    requires cfg.GuardsArtifacts() && BaseAllowed(cfg, s) && s.backupDone && !cfg.denied(p)
    ensures var t := Pass(cfg, w, s).0;
            t.backupDone && BaseAllowed(cfg, t) &&
              Lookup(t.host, BackupPath(stamp, p)) == Lookup(s.host, BackupPath(stamp, p))
  {
    var paths := SortedSet(KnownPaths(cfg, s));
    forall q | q in paths ensures !cfg.denied(q) {
      assert q in Elements(paths);
      KnownAllowed(cfg, s, q);
    }
    PassKeepsBaseAllowed(cfg, w, s);
    SettleKeepsFlag(cfg, w, s, paths, HostFiles(cfg, s.host), Manifest(cfg, s.sandbox));
    SettleKeepsCopy(cfg, w, s, paths, stamp, p, HostFiles(cfg, s.host), Manifest(cfg, s.sandbox));
  }

  lemma EventKeepsCopy(cfg: Config, s: State, e: Event, stamp: Stamp, p: Path)
    requires cfg.GuardsArtifacts() && BaseAllowed(cfg, s) && s.backupDone && !cfg.denied(p)
    requires !((e.HostWrite? || e.HostDelete?) && e.path == BackupPath(stamp, p))
    ensures var t := Next(cfg, s, e);
            t.backupDone && BaseAllowed(cfg, t) &&
              Lookup(t.host, BackupPath(stamp, p)) == Lookup(s.host, BackupPath(stamp, p))
  {
    if e.Reconcile? {
      PassKeepsCopy(cfg, e.weather, s, stamp, p);
    }
  }

  /** Once the backup was attempted, no later pass touches a copy in it. */
  lemma {:induction false} CopyLasts(cfg: Config, s: State, es: seq<Event>, stamp: Stamp, p: Path)
    requires cfg.GuardsArtifacts() && BaseAllowed(cfg, s) && s.backupDone && !cfg.denied(p)
    requires NobodyTouches(es, BackupPath(stamp, p))
    ensures var t := Run(cfg, s, es);
            t.backupDone && BaseAllowed(cfg, t) &&
              Lookup(t.host, BackupPath(stamp, p)) == Lookup(s.host, BackupPath(stamp, p))
    decreases |es|
  {
    if es == [] {
    } else {
      CopyLasts(cfg, s, es[..|es|-1], stamp, p);
      EventKeepsCopy(cfg, Run(cfg, s, es[..|es|-1]), es[|es|-1], stamp, p);
    }
  }

  /** The pass from `before` is the one that attempts the backup. */
  ghost predicate Attempts(cfg: Config, w: Weather, before: State) {
    !before.backupDone && Pass(cfg, w, before).0.backupDone
  }

  /** Through the events after the attempt, as long as nobody but the engine writes `p` or its
      copy, the version of `p` that the attempting pass found is still on the host. */
  ghost predicate Spared(cfg: Config, w: Weather, before: State, es: seq<Event>, p: Path) {
    var host := Run(cfg, Pass(cfg, w, before).0, es).host;
    p in before.host && !cfg.HostSkips(p) && NobodyTouches(es, p) && NobodyTouches(es, BackupPath(w.stamp, p)) ==>
      Lookup(host, p) == Some(before.host[p]) || Lookup(host, BackupPath(w.stamp, p)) == Some(before.host[p])
  }

  /** The copy of `p` was already in place, by whatever hand. */
  ghost predicate AlreadyCopied(cfg: Config, w: Weather, before: State, p: Path) {
    p in before.host && !cfg.HostSkips(p) ==> Lookup(before.host, BackupPath(w.stamp, p)) == Some(before.host[p])
  }

  /** A backup that was made keeps every visible file, as the attempting pass found it, through
      every later run that leaves the copy alone. */
  lemma BackupOutlivesRun(cfg: Config, w: Weather, before: State, es: seq<Event>, p: Path)
    requires cfg.GuardsArtifacts() && BaseAllowed(cfg, before) && Attempts(cfg, w, before) && !w.git
    requires !w.backupFails || AlreadyCopied(cfg, w, before, p)
    requires p in before.host && !cfg.HostSkips(p) && NobodyTouches(es, BackupPath(w.stamp, p))
    ensures Lookup(Run(cfg, Pass(cfg, w, before).0, es).host, BackupPath(w.stamp, p)) == Some(before.host[p])
  {
    var t := Pass(cfg, w, before).0;
    if w.backupFails {
      NothingWrittenBeforeBackup(cfg, w, before);
    } else {
      PassRecovers(cfg, w, before, p);
    }
    PassKeepsBaseAllowed(cfg, w, before);
    CopyLasts(cfg, t, es, w.stamp, p);
  }

  lemma RunGrows(cfg: Config, s: State, es: seq<Event>, e: Event)
    ensures Run(cfg, s, es + [e]) == Next(cfg, Run(cfg, s, es), e)
  {
    assert (es + [e])[..|es|] == es;
  }

  function Written(s: State, p: Path, c: Content): State {
    s.(sandbox := s.sandbox[p := c])
  }

  ghost predicate HostAlone(es: seq<Event>) {
    forall k :: 0 <= k < |es| ==> !es[k].HostWrite? && !es[k].HostDelete?
  }

  /** The agent writes `p` and a fair pass follows. */
  lemma WriteThenPass(cfg: Config, s: State, es: seq<Event>, p: Path, c: Content) returns (longer: seq<Event>)
    requires HostAlone(es)
    ensures HostAlone(longer)
    ensures Run(cfg, s, longer) == Pass(cfg, CALM, Written(Run(cfg, s, es), p, c)).0
  {
    RunGrows(cfg, s, es, SandboxWrite(p, c));
    RunGrows(cfg, s, es + [SandboxWrite(p, c)], Reconcile(CALM));
    longer := es + [SandboxWrite(p, c)] + [Reconcile(CALM)];
  }

  /** Both sides come to hold the host's `p`; then the agent edits it, and a pass brings the
      edit over. */
  lemma AgentReplaces(cfg: Config, s: State, p: Path) returns (es: seq<Event>)
    requires cfg.GuardsArtifacts() && CollisionFree(cfg.sha) && BaseAllowed(cfg, s) && p in s.host && !cfg.HostSkips(p)
    ensures HostAlone(es)
    ensures Lookup(Run(cfg, s, es).host, p) == Some(s.host[p] + [0])
  {
    var c := s.host[p];
    es := WriteThenPass(cfg, s, [], p, c);
    var synced := SyncAgrees(cfg, Written(s, p, c), p);
    es := WriteThenPass(cfg, s, es, p, c + [0]);
    PullsEdit(cfg, Written(synced, p, c + [0]), p, c);
  }

  lemma SyncAgrees(cfg: Config, s: State, p: Path) returns (t: State)
    requires cfg.GuardsArtifacts() && BaseAllowed(cfg, s) && p in s.host && !cfg.HostSkips(p)
    requires Lookup(s.sandbox, p) == Some(s.host[p])
    ensures t == Pass(cfg, CALM, s).0 && BaseAllowed(cfg, t)
    ensures Lookup(t.host, p) == Some(s.host[p]) && Lookup(t.base, p) == Some(cfg.sha(s.host[p]))
  {
    t := Pass(cfg, CALM, s).0;
    FairPassCompletes(cfg, CALM, s);
    PassKeepsBaseAllowed(cfg, CALM, s);
    PassAt(cfg, CALM, s, p);
    assert Decision(cfg, p, At(s, p)) == Converge;
    assert At(t, p) == At(s, p).(base := Digested(cfg, At(s, p).host));
  }

  lemma PullsEdit(cfg: Config, s: State, p: Path, c: Content)
    requires cfg.GuardsArtifacts() && CollisionFree(cfg.sha) && BaseAllowed(cfg, s) && !cfg.HostSkips(p)
    requires Lookup(s.host, p) == Some(c) && Lookup(s.sandbox, p) == Some(c + [0]) &&
               Lookup(s.base, p) == Some(cfg.sha(c))
    ensures Lookup(Pass(cfg, CALM, s).0.host, p) == Some(c + [0])
  {
    var t := Pass(cfg, CALM, s).0;
    FairPassCompletes(cfg, CALM, s);
    PassAt(cfg, CALM, s, p);
    SameDigest(cfg, c, c + [0]);
    assert |c| != |c + [0]|;
    assert Decision(cfg, p, At(s, p)) == Pull;
    assert At(t, p).host == At(s, p).sandbox;
  }

  lemma LostAfterFailure(cfg: Config, w: Weather, before: State, p: Path) returns (es: seq<Event>)
    requires cfg.GuardsArtifacts() && CollisionFree(cfg.sha) && BaseAllowed(cfg, before) && Attempts(cfg, w, before)
    requires !w.git && w.backupFails && !AlreadyCopied(cfg, w, before, p)
    ensures !Spared(cfg, w, before, es, p)
  {
    var t := Pass(cfg, w, before).0;
    NothingWrittenBeforeBackup(cfg, w, before);
    PassKeepsBaseAllowed(cfg, w, before);
    es := AgentReplaces(cfg, t, p);
    CopyLasts(cfg, t, es, w.stamp, p);
    assert |before.host[p]| != |before.host[p] + [0]|;
  }

  /** In every run outside git, from the pass that attempts the backup on, every file that pass
      could see is spared through everything that follows, exactly if the attempt did not fail
      or the copies were already there: a failure is never made good. */
  lemma BackupSparesExactly(cfg: Config, s: State, es: seq<Event>, w: Weather)
    requires cfg.GuardsArtifacts() && CollisionFree(cfg.sha) && Fresh(s)
    requires Attempts(cfg, w, Run(cfg, s, es)) && !w.git
    ensures (forall later, p :: Spared(cfg, w, Run(cfg, s, es), later, p)) <==>
              !w.backupFails || forall p :: AlreadyCopied(cfg, w, Run(cfg, s, es), p)
  {
    var before := Run(cfg, s, es);
    RunKeepsBaseAllowed(cfg, s, es);
    if !w.backupFails || forall p :: AlreadyCopied(cfg, w, before, p) {
      forall later, p ensures Spared(cfg, w, before, later, p) {
        if p in before.host && !cfg.HostSkips(p) && NobodyTouches(later, BackupPath(w.stamp, p)) {
          BackupOutlivesRun(cfg, w, before, later, p);
        }
      }
    } else {
      var p :| !AlreadyCopied(cfg, w, before, p);
      var later := LostAfterFailure(cfg, w, before, p);
    }
  }
}
