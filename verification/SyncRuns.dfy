/**
  What the sync engine keeps over whole runs: arbitrary edits on either side, uploads,
  and reconcile passes that may fail half way.
 */
module SyncRuns {
  import opened Prelude
  import opened Sorting
  import opened Sync

  datatype Event =
    | HostWrite(path: Path, content: Content)
    | HostDelete(path: Path)
    | SandboxWrite(path: Path, content: Content)
    | SandboxDelete(path: Path)
    | Upload(done: set<Path>)
    | Reconcile(weather: Weather)

  ghost function Next(cfg: Config, s: State, e: Event): State {
    match e
    case HostWrite(p, c) => s.(host := s.host[p := c])
    case HostDelete(p) => s.(host := s.host - {p})
    case SandboxWrite(p, c) => s.(sandbox := s.sandbox[p := c])
    case SandboxDelete(p) => s.(sandbox := s.sandbox - {p})
    case Upload(done) => CopyIn(cfg, s, done)
    case Reconcile(w) => Pass(cfg, w, s).0
  }

  ghost function Run(cfg: Config, s: State, es: seq<Event>): State
    decreases |es|
  {
    if es == [] then s else Next(cfg, Run(cfg, s, es[..|es|-1]), es[|es|-1])
  }

  /** A new engine; the two sides hold whatever they hold. */
  ghost predicate Fresh(s: State) {
    s.base == map[] && s.tombstone == {} && s.lastConflict == map[] && !s.backupDone
  }

  ghost predicate Both(s: State, p: Path, c: Content) {
    Lookup(s.host, p) == Some(c) && Lookup(s.sandbox, p) == Some(c)
  }

  /** At some moment of the run both sides held content `c` at `p`. */
  ghost predicate HeldTogether(cfg: Config, s: State, es: seq<Event>, p: Path, c: Content) {
    exists k: nat :: k <= |es| && Both(Run(cfg, s, es[..k]), p, c)
  }

  lemma HeldNow(cfg: Config, s: State, es: seq<Event>, p: Path, c: Content)
    requires Both(Run(cfg, s, es), p, c)
    ensures HeldTogether(cfg, s, es, p, c)
  {
    assert es[..|es|] == es;
  }

  lemma HeldBefore(cfg: Config, s: State, es: seq<Event>, n: nat, p: Path, c: Content)
    requires n <= |es| && HeldTogether(cfg, s, es[..n], p, c)
    ensures HeldTogether(cfg, s, es, p, c)
  {
    var k: nat :| k <= n && Both(Run(cfg, s, es[..n][..k]), p, c);
    assert es[..n][..k] == es[..k];
  }

  // ---------------------------------------------------------------------------
  // No edit the other side has not seen is overwritten
  // ---------------------------------------------------------------------------

  lemma SameDigest(cfg: Config, a: Content, b: Content)
    requires CollisionFree(cfg.sha)
    ensures cfg.sha(a) == cfg.sha(b) ==> a == b
  {
  }

  /** A settled path either keeps its merge base, loses it, or has one both sides hold. */
  lemma SettledBase(cfg: Config, p: Path, v: View)
    requires CollisionFree(cfg.sha)
    ensures var after := Settled(cfg, p, v);
            after.base == v.base || after.base == None
            || (after.host.Some? && after.host == after.sandbox && after.base == Some(cfg.sha(after.host.value)))
  {
    if Decision(cfg, p, v).Converge? {
      SameDigest(cfg, v.host.value, v.sandbox.value);
    }
  }

  lemma StepBase(cfg: Config, s: State, e: Event, p: Path)
    requires cfg.GuardsArtifacts() && CollisionFree(cfg.sha) && !cfg.denied(p)
    ensures var after := At(Next(cfg, s, e), p);
            after.base == Lookup(s.base, p) || after.base == None
            || (after.host.Some? && after.host == after.sandbox && after.base == Some(cfg.sha(after.host.value)))
  {
    if e.Reconcile? {
      PassAt(cfg, e.weather, s, p);
      SettledBase(cfg, p, At(s, p));
    }
  }

  /** The merge base of a path is always a content both sides once held together. */
  lemma {:induction false} BaseWasHeld(cfg: Config, s: State, es: seq<Event>, p: Path) returns (c: Content)
    requires cfg.GuardsArtifacts() && CollisionFree(cfg.sha) && Fresh(s) && !cfg.denied(p)
    requires p in Run(cfg, s, es).base
    ensures cfg.sha(c) == Run(cfg, s, es).base[p] && HeldTogether(cfg, s, es, p, c)
    decreases |es|
  {
    var n := |es| - 1;
    StepBase(cfg, Run(cfg, s, es[..n]), es[n], p);
    if Lookup(Run(cfg, s, es).base, p) == Lookup(Run(cfg, s, es[..n]).base, p) {
      c := BaseWasHeld(cfg, s, es[..n], p);
      HeldBefore(cfg, s, es, n, p, c);
    } else {
      c := Run(cfg, s, es).host[p];
      HeldNow(cfg, s, es, p, c);
    }
  }

  lemma SettledOverwrites(cfg: Config, p: Path, v: View)
    ensures var after := Settled(cfg, p, v);
            && (!cfg.ignored(p) && v.host.Some? && after.host != v.host ==>
                 after.host == v.sandbox && v.base == Digested(cfg, v.host))
            && (v.sandbox.Some? && after.sandbox != v.sandbox ==>
                 after.sandbox == v.host && v.base == Digested(cfg, v.sandbox))
  {
  }

  /** A pass replaces content only by the other side's, and only where it equals the merge base. */
  lemma PassOverwrites(cfg: Config, w: Weather, s: State, p: Path)
    requires cfg.GuardsArtifacts() && !cfg.denied(p)
    ensures var v, after := At(s, p), At(Pass(cfg, w, s).0, p);
            && (!cfg.ignored(p) && v.host.Some? && after.host != v.host ==>
                 after.host == v.sandbox && v.base == Digested(cfg, v.host))
            && (v.sandbox.Some? && after.sandbox != v.sandbox ==>
                 after.sandbox == v.host && v.base == Digested(cfg, v.sandbox))
  {
    PassAt(cfg, w, s, p);
    SettledOverwrites(cfg, p, At(s, p));
  }

  /** Whatever host content at `p` the next pass replaces was once held by both sides. */
  ghost predicate HostEditsSafe(cfg: Config, s: State, es: seq<Event>, w: Weather, p: Path) {
    var before := Run(cfg, s, es);
    var after := Pass(cfg, w, before).0;
    p in before.host && Lookup(after.host, p) != Some(before.host[p]) ==>
      HeldTogether(cfg, s, es, p, before.host[p]) && Lookup(after.host, p) == Lookup(before.sandbox, p)
  }

  ghost predicate SandboxEditsSafe(cfg: Config, s: State, es: seq<Event>, w: Weather, p: Path) {
    var before := Run(cfg, s, es);
    var after := Pass(cfg, w, before).0;
    p in before.sandbox && Lookup(after.sandbox, p) != Some(before.sandbox[p]) ==>
      HeldTogether(cfg, s, es, p, before.sandbox[p]) && Lookup(after.sandbox, p) == Lookup(before.host, p)
  }

  // What a pass leaves alone among the paths the deny-list covers.

  /** `p` is where the engine saves the sandbox's version of a conflicting file. */
  ghost predicate IsSibling(cfg: Config, p: Path) {
    exists q :: !cfg.HostSkips(q) && SiblingOf(q) == p
  }

  /** `p` is where some backup would copy a file. */
  ghost predicate IsBackupCopy(cfg: Config, p: Path) {
    exists stamp: Stamp, q :: !cfg.HostSkips(q) && BackupPath(stamp, q) == p
  }

  lemma BackupKey(cfg: Config, stamp: Stamp, host: map<Path, Content>, k: Path)
    requires forall q :: q in HostFiles(cfg, host) ==> BackupPath(stamp, q) != k
    ensures k !in BackupOf(cfg, stamp, host)
  {
  }

  lemma BackupMissesOthers(cfg: Config, w: Weather, s: State, p: Path)
    requires !IsBackupCopy(cfg, p)
    ensures Lookup(EnsureBackup(cfg, w, s).0.host, p) == Lookup(s.host, p)
  {
    forall q | q in HostFiles(cfg, s.host) ensures BackupPath(w.stamp, q) != p {
      assert !cfg.HostSkips(q);
    }
    BackupKey(cfg, w.stamp, s.host, p);
  }

  lemma PullMissesOthers(cfg: Config, w: Weather, s: State, q: Path, p: Path)
    requires q != p && !IsBackupCopy(cfg, p)
    ensures Lookup(DoPull(cfg, w, s, q).0.host, p) == Lookup(s.host, p)
  {
    BackupMissesOthers(cfg, w, s, p);
  }

  lemma ConflictMissesOthers(cfg: Config, w: Weather, s: State, q: Path, p: Path, sandboxHash: Digest)
    requires SiblingOf(q) != p && !IsBackupCopy(cfg, p)
    ensures Lookup(DoConflict(cfg, w, s, q, sandboxHash).0.host, p) == Lookup(s.host, p)
  {
    BackupMissesOthers(cfg, w, s, p);
  }

  lemma StepMissesOthers(cfg: Config, w: Weather, s: State, q: Path, p: Path,
                         host: map<Path, Digest>, sandbox: map<Path, Digest>)
    requires cfg.denied(p) && !IsSibling(cfg, p) && !IsBackupCopy(cfg, p)
    requires (q in host ==> !cfg.HostSkips(q)) && (q in sandbox ==> !cfg.denied(q))
    ensures Lookup(ReconcileOne(cfg, w, s, q, host, sandbox).0.host, p) == Lookup(s.host, p)
  {
    match Decide(Lookup(host, q), Lookup(sandbox, q), Lookup(s.base, q), q in s.tombstone)
    case Pull => PullMissesOthers(cfg, w, s, q, p);
    case RecordConflict => ConflictMissesOthers(cfg, w, s, q, p, sandbox[q]);
    case _ =>
  }

  lemma {:induction false} SettleMissesOthers(cfg: Config, w: Weather, s: State, paths: seq<Path>, p: Path,
                                              host: map<Path, Digest>, sandbox: map<Path, Digest>)
    requires cfg.denied(p) && !IsSibling(cfg, p) && !IsBackupCopy(cfg, p)
    requires (forall q :: q in host ==> !cfg.HostSkips(q)) && (forall q :: q in sandbox ==> !cfg.denied(q))
    ensures Lookup(Settle(cfg, w, s, paths, host, sandbox).0.host, p) == Lookup(s.host, p)
    decreases |paths|
  {
    if paths == [] {
    } else {
      StepMissesOthers(cfg, w, s, paths[0], p, host, sandbox);
      SettleMissesOthers(cfg, w, ReconcileOne(cfg, w, s, paths[0], host, sandbox).0, paths[1..], p, host, sandbox);
    }
  }

  /** A deny-listed host file is never written, unless it is one of the engine's own. */
  lemma PassMissesOthers(cfg: Config, w: Weather, s: State, p: Path)
    requires cfg.denied(p) && !IsSibling(cfg, p) && !IsBackupCopy(cfg, p)
    ensures Lookup(Pass(cfg, w, s).0.host, p) == Lookup(s.host, p)
  {
    SettleMissesOthers(cfg, w, s, SortedSet(KnownPaths(cfg, s)), p, HostFiles(cfg, s.host), Manifest(cfg, s.sandbox));
  }

  /** The operator's file at `p` is out of the reach of blind writes: the two filters agree on
      it, and it is not a place where the engine keeps its own files. */
  ghost predicate Shielded(cfg: Config, p: Path) {
    if cfg.denied(p) then !IsSibling(cfg, p) && !IsBackupCopy(cfg, p) else !cfg.ignored(p)
  }

  lemma VisibleEditsSafe(cfg: Config, s: State, es: seq<Event>, w: Weather, p: Path)
    requires cfg.GuardsArtifacts() && CollisionFree(cfg.sha) && Fresh(s) && !cfg.denied(p)
    ensures !cfg.ignored(p) ==> HostEditsSafe(cfg, s, es, w, p)
    ensures SandboxEditsSafe(cfg, s, es, w, p)
  {
    var before := Run(cfg, s, es);
    PassOverwrites(cfg, w, before, p);
    if p in before.base {
      var c := BaseWasHeld(cfg, s, es, p);
      if p in before.host {
        SameDigest(cfg, c, before.host[p]);
      }
      if p in before.sandbox {
        SameDigest(cfg, c, before.sandbox[p]);
      }
    }
  }

  lemma DeniedEditsSafe(cfg: Config, s: State, es: seq<Event>, w: Weather, p: Path)
    requires cfg.denied(p)
    ensures Shielded(cfg, p) ==> HostEditsSafe(cfg, s, es, w, p)
    ensures SandboxEditsSafe(cfg, s, es, w, p)
  {
    var before := Run(cfg, s, es);
    if Shielded(cfg, p) {
      PassMissesOthers(cfg, w, before, p);
    }
    SkippedNeverUploaded(cfg, before, Reconcile(w), p);
  }

  /** In every run, no pass overwrites an edit the other side has never held: neither the
      operator's, on any shielded path, nor the agent's, on any path at all. */
  lemma NoUnseenEditLost(cfg: Config, s: State, es: seq<Event>, w: Weather, p: Path)
    requires cfg.GuardsArtifacts() && CollisionFree(cfg.sha) && Fresh(s)
    ensures Shielded(cfg, p) ==> HostEditsSafe(cfg, s, es, w, p)
    ensures SandboxEditsSafe(cfg, s, es, w, p)
  {
    if cfg.denied(p) {
      DeniedEditsSafe(cfg, s, es, w, p);
    } else {
      VisibleEditsSafe(cfg, s, es, w, p);
    }
  }

  const CALM := Weather("20060102-150405", true, {}, {}, false)

  lemma SingletonSorted(p: Path)
    ensures SortedSet({p}) == [p]
  {
    var out := SortedSet({p});
    assert p in Elements(out);
    DistinctFits(out, {p});
    assert out[0] in Elements(out);
  }

  lemma SinglePathPass(cfg: Config, w: Weather, s: State, p: Path)
    requires KnownPaths(cfg, s) == {p}
    ensures Pass(cfg, w, s) == ReconcileOne(cfg, w, s, p, HostFiles(cfg, s.host), Manifest(cfg, s.sandbox))
  {
    var host, sandbox := HostFiles(cfg, s.host), Manifest(cfg, s.sandbox);
    var (t, ok) := ReconcileOne(cfg, w, s, p, host, sandbox);
    SingletonSorted(p);
    assert [p][1..] == [] && [p][0] == p;
    assert Settle(cfg, w, t, [], host, sandbox) == (t, true);
    assert Settle(cfg, w, s, [p], host, sandbox) == (t, ok);
  }

  /** A file the host's ignore file hides but the deny-list does not: the sandbox's file of
      that name lands on top of it. */
  lemma IgnoredFileIsOverwritten(cfg: Config, p: Path)
    requires cfg.GuardsArtifacts() && CollisionFree(cfg.sha) && !cfg.denied(p) && cfg.ignored(p)
    ensures !HostEditsSafe(cfg, State(map[p := [1]], map[p := [2]], map[], {}, map[], false), [], CALM, p)
  {
    var s := State(map[p := [1]], map[p := [2]], map[], {}, map[], false);
    SinglePathPass(cfg, CALM, s, p);
    assert Run(cfg, s, []) == s;
  }

  /** Both sides brought their own `q`, and the operator keeps a file at `other`. */
  function Diverged(q: Path, other: Path): State {
    State(map[q := [1], other := [9]], map[q := [2]], map[], {}, map[], false)
  }

  lemma DivergedConflicts(cfg: Config, w: Weather, q: Path, other: Path)
    requires CollisionFree(cfg.sha) && !cfg.HostSkips(q) && cfg.denied(other)
    ensures Pass(cfg, w, Diverged(q, other)) == DoConflict(cfg, w, Diverged(q, other), q, cfg.sha([2]))
  {
    SameDigest(cfg, [1], [2]);
    assert KnownPaths(cfg, Diverged(q, other)) == {q};
    SinglePathPass(cfg, w, Diverged(q, other), q);
  }

  /** The operator's own file under the name of a conflict sibling is replaced. */
  lemma SiblingIsOverwritten(cfg: Config, q: Path)
    requires cfg.GuardsArtifacts() && CollisionFree(cfg.sha) && !cfg.HostSkips(q)
    ensures Fresh(Diverged(q, SiblingOf(q))) && !HostEditsSafe(cfg, Diverged(q, SiblingOf(q)), [], CALM, SiblingOf(q))
  {
    DivergedConflicts(cfg, CALM, q, SiblingOf(q));
    assert Run(cfg, Diverged(q, SiblingOf(q)), []) == Diverged(q, SiblingOf(q));
  }

  lemma CopyIsMade(cfg: Config, stamp: Stamp, host: map<Path, Content>, p: Path)
    requires p in host && !cfg.HostSkips(p)
    ensures Lookup(BackupOf(cfg, stamp, host), BackupPath(stamp, p)) == Some(host[p])
  {
    OriginalOfBackup(stamp);
  }

  lemma ConflictBacksUp(cfg: Config, w: Weather, s: State, q: Path, sandboxHash: Digest, p: Path)
    requires cfg.GuardsArtifacts() && p in s.host && !cfg.HostSkips(p)
    requires !s.backupDone && !w.git && !w.backupFails && q in s.sandbox && q !in w.cut && q !in s.lastConflict
    ensures Lookup(DoConflict(cfg, w, s, q, sandboxHash).0.host, BackupPath(w.stamp, p)) == Some(s.host[p])
  {
    CopyIsMade(cfg, w.stamp, s.host, p);
    BackupIsNotSibling(cfg, w.stamp, p, q);
  }

  /** So is one under the name of a backup copy. */
  lemma BackupCopyIsOverwritten(cfg: Config, stamp: Stamp, q: Path)
    requires cfg.GuardsArtifacts() && CollisionFree(cfg.sha) && !cfg.HostSkips(q)
    ensures var copy, w := BackupPath(stamp, q), Weather(stamp, false, {}, {}, false);
            Fresh(Diverged(q, copy)) && !HostEditsSafe(cfg, Diverged(q, copy), [], w, copy)
  {
    var copy, w := BackupPath(stamp, q), Weather(stamp, false, {}, {}, false);
    DivergedConflicts(cfg, w, q, copy);
    ConflictBacksUp(cfg, w, Diverged(q, copy), q, cfg.sha([2]), q);
    assert Run(cfg, Diverged(q, copy), []) == Diverged(q, copy);
  }

  /** Exactly when the operator's edits at a path, any path, are safe in every run: when the two
      filters agree on it, and it is not a conflict sibling or backup copy of a visible file. */
  lemma HostEditsSafeExactly(cfg: Config, p: Path)
    requires cfg.GuardsArtifacts() && CollisionFree(cfg.sha)
    ensures (forall s, es, w :: Fresh(s) ==> HostEditsSafe(cfg, s, es, w, p)) <==> Shielded(cfg, p)
  {
    if Shielded(cfg, p) {
      forall s, es, w | Fresh(s) ensures HostEditsSafe(cfg, s, es, w, p) {
        NoUnseenEditLost(cfg, s, es, w, p);
      }
    } else {
      var s, w := UnsafeStart(cfg, p);
      assert Fresh(s) && !HostEditsSafe(cfg, s, [], w, p);
    }
  }

  lemma UnsafeStart(cfg: Config, p: Path) returns (s: State, w: Weather)
    requires cfg.GuardsArtifacts() && CollisionFree(cfg.sha) && !Shielded(cfg, p)
    ensures Fresh(s) && !HostEditsSafe(cfg, s, [], w, p)
  {
    if !cfg.denied(p) {
      IgnoredFileIsOverwritten(cfg, p);
      s, w := State(map[p := [1]], map[p := [2]], map[], {}, map[], false), CALM;
    } else if IsSibling(cfg, p) {
      var q :| !cfg.HostSkips(q) && SiblingOf(q) == p;
      SiblingIsOverwritten(cfg, q);
      s, w := Diverged(q, SiblingOf(q)), CALM;
    } else {
      var stamp: Stamp, q :| !cfg.HostSkips(q) && BackupPath(stamp, q) == p;
      BackupCopyIsOverwritten(cfg, stamp, q);
      s, w := Diverged(q, BackupPath(stamp, q)), Weather(stamp, false, {}, {}, false);
    }
  }

  // ---------------------------------------------------------------------------
  // Three-way merge
  // ---------------------------------------------------------------------------

  /** What three-way merge asks of one path: where exactly one side moved away from the last
      common content both end up with that side's version; where both moved, neither changes;
      a file new on one side reaches the other; a deletion is not undone. */
  ghost predicate Merged(cfg: Config, v: View, after: View) {
    && (v.host.Some? && v.sandbox.Some? ==>
          (after.host, after.sandbox) ==
            if v.base == Digested(cfg, v.sandbox) then (v.host, v.host)
            else if v.base == Digested(cfg, v.host) then (v.sandbox, v.sandbox)
            else (v.host, v.sandbox))
    && (v.host.Some? != v.sandbox.Some? ==>
          (after.host, after.sandbox) ==
            if v.tombstoned || v.base.Some? then (v.host, v.sandbox)
            else if v.host.Some? then (v.host, v.host) else (v.sandbox, v.sandbox))
    && (v.host.None? && v.sandbox.None? ==> after.host.None? && after.sandbox.None?)
  }

  lemma SettledMerges(cfg: Config, p: Path, v: View)
    requires CollisionFree(cfg.sha) && !cfg.ignored(p)
    ensures Merged(cfg, v, Settled(cfg, p, v))
  {
    if Decision(cfg, p, v).Converge? {
      SameDigest(cfg, v.host.value, v.sandbox.value);
    }
  }

  /** A completed pass is a three-way merge at every path both filters let through. */
  lemma PassMerges(cfg: Config, w: Weather, s: State, p: Path)
    requires cfg.GuardsArtifacts() && CollisionFree(cfg.sha) && !cfg.HostSkips(p)
    requires Pass(cfg, w, s).1
    ensures Merged(cfg, At(s, p), At(Pass(cfg, w, s).0, p))
  {
    PassAt(cfg, w, s, p);
    SettledMerges(cfg, p, At(s, p));
  }

  /** Nothing outside the engine goes wrong. */
  predicate Fair(w: Weather) {
    w.cut == {} && w.unwritable == {} && !w.backupFails
  }

  lemma FairStep(cfg: Config, w: Weather, s: State, p: Path, host: map<Path, Digest>, sandbox: map<Path, Digest>)
    requires Fair(w) && !cfg.denied(p) && SnapshotAgrees(cfg, s, p, host, sandbox)
    ensures ReconcileOne(cfg, w, s, p, host, sandbox).1
  {
    DecisionAgrees(cfg, s, p, host, sandbox);
  }

  lemma {:induction false} FairSettle(cfg: Config, w: Weather, s: State, paths: seq<Path>, host: map<Path, Digest>,
                                      sandbox: map<Path, Digest>)
    requires cfg.GuardsArtifacts() && Fair(w) && Distinct(paths)
    requires forall p :: p in paths ==> !cfg.denied(p) && SnapshotAgrees(cfg, s, p, host, sandbox)
    ensures Settle(cfg, w, s, paths, host, sandbox).1
    decreases |paths|
  {
    if paths == [] {
    } else {
      var t := ReconcileOne(cfg, w, s, paths[0], host, sandbox).0;
      FairStep(cfg, w, s, paths[0], host, sandbox);
      forall p | p in paths[1..] ensures !cfg.denied(p) && SnapshotAgrees(cfg, t, p, host, sandbox) {
        OtherPathsUntouched(cfg, w, s, paths[0], p, host, sandbox);
        SnapshotMoves(cfg, s, t, p, host, sandbox);
      }
      FairSettle(cfg, w, t, paths[1..], host, sandbox);
    }
  }

  lemma SnapshotMoves(cfg: Config, s: State, t: State, p: Path, host: map<Path, Digest>, sandbox: map<Path, Digest>)
    requires SnapshotAgrees(cfg, s, p, host, sandbox) && At(t, p) == At(s, p)
    ensures SnapshotAgrees(cfg, t, p, host, sandbox)
  {
    assert Lookup(t.host, p) == Lookup(s.host, p) && Lookup(t.sandbox, p) == Lookup(s.sandbox, p);
  }

  /** A pass completes whenever no transfer, host write or backup fails: the engine's own steps
      never make a later step of the same pass fail. */
  lemma FairPassCompletes(cfg: Config, w: Weather, s: State)
    requires cfg.GuardsArtifacts() && BaseAllowed(cfg, s) && Fair(w)
    ensures Pass(cfg, w, s).1
  {
    var paths := SortedSet(KnownPaths(cfg, s));
    forall p | p in paths ensures !cfg.denied(p) {
      assert p in Elements(paths);
      KnownAllowed(cfg, s, p);
    }
    FairSettle(cfg, w, s, paths, HostFiles(cfg, s.host), Manifest(cfg, s.sandbox));
  }

  // ---------------------------------------------------------------------------
  // Deletions
  // ---------------------------------------------------------------------------

  ghost predicate NothingRemoved(s: State, t: State) {
    s.host.Keys <= t.host.Keys && s.sandbox.Keys <= t.sandbox.Keys
  }

  lemma BackupRemovesNothing(cfg: Config, w: Weather, s: State)
    ensures NothingRemoved(s, EnsureBackup(cfg, w, s).0)
    ensures EnsureBackup(cfg, w, s).0.sandbox == s.sandbox
  {
  }

  lemma WriteRemovesNothing(s: State, p: Path, c: Content)
    ensures NothingRemoved(s, s.(host := s.host[p := c]))
  {
  }

  lemma PullRemovesNothing(cfg: Config, w: Weather, s: State, p: Path)
    ensures NothingRemoved(s, DoPull(cfg, w, s, p).0)
    ensures DoPull(cfg, w, s, p).0.sandbox == s.sandbox
  {
    BackupRemovesNothing(cfg, w, s);
    if p in s.sandbox {
      WriteRemovesNothing(EnsureBackup(cfg, w, s).0, p, s.sandbox[p]);
    }
  }

  lemma ConflictRemovesNothing(cfg: Config, w: Weather, s: State, p: Path, sandboxHash: Digest)
    ensures NothingRemoved(s, DoConflict(cfg, w, s, p, sandboxHash).0)
    ensures DoConflict(cfg, w, s, p, sandboxHash).0.sandbox == s.sandbox
  {
    BackupRemovesNothing(cfg, w, s);
    if p in s.sandbox {
      WriteRemovesNothing(EnsureBackup(cfg, w, s).0, SiblingOf(p), s.sandbox[p]);
    }
  }

  lemma StepRemovesNothing(cfg: Config, w: Weather, s: State, p: Path, host: map<Path, Digest>,
                           sandbox: map<Path, Digest>)
    ensures NothingRemoved(s, ReconcileOne(cfg, w, s, p, host, sandbox).0)
  {
    match Decide(Lookup(host, p), Lookup(sandbox, p), Lookup(s.base, p), p in s.tombstone)
    case Pull => PullRemovesNothing(cfg, w, s, p);
    case RecordConflict => ConflictRemovesNothing(cfg, w, s, p, sandbox[p]);
    case _ =>
  }

  lemma {:induction false} SettleRemovesNothing(cfg: Config, w: Weather, s: State, paths: seq<Path>,
                                                host: map<Path, Digest>, sandbox: map<Path, Digest>)
    ensures NothingRemoved(s, Settle(cfg, w, s, paths, host, sandbox).0)
    decreases |paths|
  {
    if paths == [] {
    } else {
      StepRemovesNothing(cfg, w, s, paths[0], host, sandbox);
      SettleRemovesNothing(cfg, w, ReconcileOne(cfg, w, s, paths[0], host, sandbox).0, paths[1..], host, sandbox);
    }
  }

  /** No pass, complete or not, removes a file from either side. */
  lemma PassRemovesNothing(cfg: Config, w: Weather, s: State)
    ensures NothingRemoved(s, Pass(cfg, w, s).0)
  {
    SettleRemovesNothing(cfg, w, s, SortedSet(KnownPaths(cfg, s)), HostFiles(cfg, s.host), Manifest(cfg, s.sandbox));
  }

  lemma {:induction false} SettleUploadsSeen(cfg: Config, w: Weather, s: State, paths: seq<Path>, p: Path,
                                             host: map<Path, Digest>, sandbox: map<Path, Digest>)
    requires p !in host
    ensures Lookup(Settle(cfg, w, s, paths, host, sandbox).0.sandbox, p) == Lookup(s.sandbox, p)
    decreases |paths|
  {
    if paths == [] {
    } else {
      StepUploadsSeen(cfg, w, s, paths[0], p, host, sandbox);
      SettleUploadsSeen(cfg, w, ReconcileOne(cfg, w, s, paths[0], host, sandbox).0, paths[1..], p, host, sandbox);
    }
  }

  lemma StepUploadsSeen(cfg: Config, w: Weather, s: State, q: Path, p: Path, host: map<Path, Digest>,
                        sandbox: map<Path, Digest>)
    requires p !in host
    ensures Lookup(ReconcileOne(cfg, w, s, q, host, sandbox).0.sandbox, p) == Lookup(s.sandbox, p)
  {
    match Decide(Lookup(host, q), Lookup(sandbox, q), Lookup(s.base, q), q in s.tombstone)
    case Pull => PullRemovesNothing(cfg, w, s, q);
    case RecordConflict => ConflictRemovesNothing(cfg, w, s, q, sandbox[q]);
    case _ =>
  }

  /** A path either filter covers never crosses into the sandbox, by upload or by pass. */
  lemma SkippedNeverUploaded(cfg: Config, s: State, e: Event, p: Path)
    requires cfg.HostSkips(p) && (e.Reconcile? || e.Upload?)
    ensures Lookup(Next(cfg, s, e).sandbox, p) == Lookup(s.sandbox, p)
  {
    if e.Reconcile? {
      SettleUploadsSeen(cfg, e.weather, s, SortedSet(KnownPaths(cfg, s)), p, HostFiles(cfg, s.host),
        Manifest(cfg, s.sandbox));
    }
  }

  ghost predicate OnOneSide(s: State, p: Path) {
    (p in s.host) != (p in s.sandbox)
  }

  /** In none of these events does someone other than a pass put `p` where it is missing. */
  ghost predicate LeavesGap(es: seq<Event>, p: Path, missingOnHost: bool) {
    forall k :: 0 <= k < |es| ==>
      && !(es[k].Upload? && p in es[k].done)
      && !(missingOnHost && es[k].HostWrite? && es[k].path == p)
      && !(!missingOnHost && es[k].SandboxWrite? && es[k].path == p)
  }

  ghost predicate HasCopy(s: State, p: Path, onHost: bool) {
    p in (if onHost then s.host else s.sandbox)
  }

  ghost predicate KeepsCopy(cfg: Config, s: State, es: seq<Event>, p: Path, onHost: bool) {
    forall k: nat :: k <= |es| ==> HasCopy(Run(cfg, s, es[..k]), p, onHost)
  }

  /** A path once synced and now missing on one side. */
  ghost predicate Gap(v: View, missingOnHost: bool) {
    (v.tombstoned || v.base.Some?) && v.host.Some? == !missingOnHost && v.sandbox.Some? == missingOnHost
  }

  lemma SettledKeepsGap(cfg: Config, p: Path, v: View, missingOnHost: bool)
    requires !cfg.ignored(p) && Gap(v, missingOnHost)
    ensures Gap(Settled(cfg, p, v), missingOnHost) && Settled(cfg, p, v).tombstoned
  {
  }

  lemma PassKeepsGap(cfg: Config, w: Weather, s: State, p: Path, missingOnHost: bool)
    requires cfg.GuardsArtifacts() && !cfg.HostSkips(p) && Gap(At(s, p), missingOnHost)
    ensures var (t, ok) := Pass(cfg, w, s);
            Gap(At(t, p), missingOnHost) && (ok || p in s.tombstone ==> At(t, p).tombstoned)
  {
    PassAt(cfg, w, s, p);
    SettledKeepsGap(cfg, p, At(s, p), missingOnHost);
  }

  lemma GapStep(cfg: Config, s: State, e: Event, p: Path, missingOnHost: bool)
    requires cfg.GuardsArtifacts() && !cfg.HostSkips(p) && Gap(At(s, p), missingOnHost)
    requires LeavesGap([e], p, missingOnHost)
    requires HasCopy(Next(cfg, s, e), p, !missingOnHost)
    ensures Gap(At(Next(cfg, s, e), p), missingOnHost)
    ensures p in s.tombstone || (e.Reconcile? && Pass(cfg, e.weather, s).1) ==> At(Next(cfg, s, e), p).tombstoned
  {
    assert [e][0] == e;
    if e.Reconcile? {
      PassKeepsGap(cfg, e.weather, s, p, missingOnHost);
    }
  }

  /** Some pass of the run completed. */
  ghost predicate SomePassCompletes(cfg: Config, s: State, es: seq<Event>) {
    exists n :: 0 <= n < |es| && CompletesAt(cfg, s, es, n)
  }

  ghost predicate CompletesAt(cfg: Config, s: State, es: seq<Event>, n: nat)
    requires n < |es|
  {
    es[n].Reconcile? && Pass(cfg, es[n].weather, Run(cfg, s, es[..n])).1
  }

  /** A synced path found missing on one side is not recreated there by any later pass, complete
      or aborted, for as long as the other side keeps its copy, whatever is written to that copy
      meanwhile; and it is tombstoned from the first completed pass on. */
  lemma {:induction false} DeletionIsRespected(cfg: Config, s: State, es: seq<Event>, p: Path)
    requires cfg.GuardsArtifacts() && !cfg.HostSkips(p) && p in s.base && OnOneSide(s, p)
    requires LeavesGap(es, p, p !in s.host) && KeepsCopy(cfg, s, es, p, p in s.host)
    ensures var t := Run(cfg, s, es);
            && (p in t.host) == (p in s.host) && (p in t.sandbox) == (p in s.sandbox)
            && (SomePassCompletes(cfg, s, es) ==> p in t.tombstone)
  {
    GapRun(cfg, s, es, p, p !in s.host);
    assert Gap(At(Run(cfg, s, es), p), p !in s.host);
  }

  lemma CompletedBefore(cfg: Config, s: State, es: seq<Event>)
    requires es != [] && SomePassCompletes(cfg, s, es) && !CompletesAt(cfg, s, es, |es| - 1)
    ensures SomePassCompletes(cfg, s, es[..|es|-1])
  {
    var n :| 0 <= n < |es| && CompletesAt(cfg, s, es, n);
    assert es[..|es|-1][..n] == es[..n];
    assert CompletesAt(cfg, s, es[..|es|-1], n);
  }

  lemma {:induction false} GapRun(cfg: Config, s: State, es: seq<Event>, p: Path, missingOnHost: bool)
    requires cfg.GuardsArtifacts() && !cfg.HostSkips(p) && Gap(At(s, p), missingOnHost)
    requires LeavesGap(es, p, missingOnHost) && KeepsCopy(cfg, s, es, p, !missingOnHost)
    ensures Gap(At(Run(cfg, s, es), p), missingOnHost)
    ensures SomePassCompletes(cfg, s, es) ==> At(Run(cfg, s, es), p).tombstoned
    decreases |es|
  {
    if es == [] {
    } else {
      var n := |es| - 1;
      KeepsCopyPrefix(cfg, s, es, p, !missingOnHost);
      GapRun(cfg, s, es[..n], p, missingOnHost);
      assert es[..|es|] == es;
      GapStep(cfg, Run(cfg, s, es[..n]), es[n], p, missingOnHost);
      if SomePassCompletes(cfg, s, es) && !CompletesAt(cfg, s, es, n) {
        CompletedBefore(cfg, s, es);
      }
    }
  }

  lemma KeepsCopyPrefix(cfg: Config, s: State, es: seq<Event>, p: Path, onHost: bool)
    requires es != [] && KeepsCopy(cfg, s, es, p, onHost)
    ensures KeepsCopy(cfg, s, es[..|es|-1], p, onHost)
  {
    var prefix := es[..|es|-1];
    forall k: nat {:trigger prefix[..k]} | k <= |prefix|
      ensures HasCopy(Run(cfg, s, prefix[..k]), p, onHost)
    {
      assert prefix[..k] == es[..k];
    }
  }

  /** Tombstoned and without a merge base. */
  ghost predicate Buried(s: State, p: Path) {
    p in s.tombstone && p !in s.base
  }

  /** At every pass of the run the two sides differ at `p`, and no upload covers it. */
  ghost predicate NeverMeets(cfg: Config, s: State, es: seq<Event>, p: Path) {
    forall k: nat :: k < |es| ==>
      && (es[k].Reconcile? ==> forall c :: !Both(Run(cfg, s, es[..k]), p, c))
      && !(es[k].Upload? && p in es[k].done)
  }

  lemma SettledBuried(cfg: Config, p: Path, v: View)
    requires CollisionFree(cfg.sha) && v.tombstoned && v.base.None? && (v.host.Some? ==> v.host != v.sandbox)
    requires (v.host.Some? && !cfg.ignored(p)) || v.sandbox.Some?
    ensures Settled(cfg, p, v) == v.(recorded := Settled(cfg, p, v).recorded)
  {
    if Decision(cfg, p, v).Converge? {
      SameDigest(cfg, v.host.value, v.sandbox.value);
    }
  }

  lemma BuriedThroughPass(cfg: Config, w: Weather, s: State, p: Path)
    requires cfg.GuardsArtifacts() && CollisionFree(cfg.sha) && !cfg.denied(p)
    requires Buried(s, p) && forall c :: !Both(s, p, c)
    ensures var t := Pass(cfg, w, s).0;
            At(t, p) == At(s, p).(recorded := At(t, p).recorded)
  {
    PassAt(cfg, w, s, p);
    if p in s.host {
      assert !Both(s, p, s.host[p]);
    }
    if (p in s.host && !cfg.ignored(p)) || p in s.sandbox {
      SettledBuried(cfg, p, At(s, p));
    } else {
      assert p !in KnownPaths(cfg, s);
    }
  }

  lemma NeverMeetsPrefix(cfg: Config, s: State, es: seq<Event>, p: Path)
    requires es != [] && NeverMeets(cfg, s, es, p)
    ensures NeverMeets(cfg, s, es[..|es|-1], p)
  {
    var n := |es| - 1;
    forall k: nat | k < n
      ensures es[..n][k].Reconcile? ==> forall c :: !Both(Run(cfg, s, es[..n][..k]), p, c)
      ensures !(es[..n][k].Upload? && p in es[..n][k].done)
    {
      assert es[..n][..k] == es[..k] && es[..n][k] == es[k];
    }
  }

  /** A buried path stays frozen: neither deleting it everywhere and creating it anew, nor any
      other edit, makes a pass carry it across, until a pass finds equal content on both sides. */
  lemma {:induction false} BuriedIsFrozen(cfg: Config, s: State, es: seq<Event>, p: Path)
    requires cfg.GuardsArtifacts() && CollisionFree(cfg.sha) && !cfg.denied(p)
    requires Buried(s, p) && NeverMeets(cfg, s, es, p)
    ensures Buried(Run(cfg, s, es), p)
    ensures es != [] && es[|es|-1].Reconcile? ==>
              var before, after := At(Run(cfg, s, es[..|es|-1]), p), At(Run(cfg, s, es), p);
              after.host == before.host && after.sandbox == before.sandbox
    decreases |es|
  {
    if es == [] {
    } else {
      var n := |es| - 1;
      NeverMeetsPrefix(cfg, s, es, p);
      BuriedIsFrozen(cfg, s, es[..n], p);
      BuriedStep(cfg, Run(cfg, s, es[..n]), es[n], p);
    }
  }

  lemma BuriedStep(cfg: Config, s: State, e: Event, p: Path)
    requires cfg.GuardsArtifacts() && CollisionFree(cfg.sha) && !cfg.denied(p) && Buried(s, p)
    requires e.Reconcile? ==> forall c :: !Both(s, p, c)
    requires !(e.Upload? && p in e.done)
    ensures Buried(Next(cfg, s, e), p)
    ensures e.Reconcile? ==>
              At(Next(cfg, s, e), p).host == At(s, p).host && At(Next(cfg, s, e), p).sandbox == At(s, p).sandbox
  {
    if e.Reconcile? {
      BuriedThroughPass(cfg, e.weather, s, p);
      assert At(Pass(cfg, e.weather, s).0, p).tombstoned && At(Pass(cfg, e.weather, s).0, p).base.None?;
    }
  }

  lemma SettledForgets(cfg: Config, p: Path, v: View)
    requires v.host.None? && v.sandbox.None?
    ensures !Settled(cfg, p, v).tombstoned
  {
  }

  /** When a path is gone from both sides, a completed pass clears its tombstone exactly if a
      merge base was left to bring the path to the pass's attention. */
  lemma TombstoneClearedExactly(cfg: Config, w: Weather, s: State, p: Path)
    requires cfg.GuardsArtifacts() && !cfg.denied(p) && Pass(cfg, w, s).1
    requires p !in s.host && p !in s.sandbox
    ensures At(Pass(cfg, w, s).0, p).tombstoned <==> p in s.tombstone && p !in s.base
  {
    PassAt(cfg, w, s, p);
    SettledForgets(cfg, p, At(s, p));
  }

  // ---------------------------------------------------------------------------
  // Repeating a pass
  // ---------------------------------------------------------------------------

  /** A path at which a pass has nothing left to do. */
  ghost predicate QuietView(cfg: Config, p: Path, v: View) {
    Settled(cfg, p, v) == v && !Decision(cfg, p, v).Pull? && !Decision(cfg, p, v).Push?
  }

  ghost predicate Quiet(cfg: Config, s: State, p: Path) {
    QuietView(cfg, p, At(s, p))
  }

  lemma QuietStep(cfg: Config, w: Weather, s: State, p: Path)
    requires !cfg.denied(p) && Quiet(cfg, s, p)
    ensures ReconcileOne(cfg, w, s, p, HostFiles(cfg, s.host), Manifest(cfg, s.sandbox)) == (s, true)
  {
    match Decision(cfg, p, At(s, p))
    case Converge => assert s.base[p := HostFiles(cfg, s.host)[p]] == s.base;
    case RecordConflict => assert Lookup(s.lastConflict, p) == Some(Manifest(cfg, s.sandbox)[p]);
    case Forget =>
      assert s.base - {p} == s.base && s.tombstone - {p} == s.tombstone;
    case _ =>
  }

  lemma {:induction false} QuietSettle(cfg: Config, w: Weather, s: State, paths: seq<Path>)
    requires forall p :: p in paths ==> !cfg.denied(p) && Quiet(cfg, s, p)
    ensures Settle(cfg, w, s, paths, HostFiles(cfg, s.host), Manifest(cfg, s.sandbox)) == (s, true)
    decreases |paths|
  {
    if paths == [] {
    } else {
      QuietStep(cfg, w, s, paths[0]);
      QuietSettle(cfg, w, s, paths[1..]);
    }
  }

  /** Only paths the deny-list lets through ever have a merge base. */
  ghost predicate BaseAllowed(cfg: Config, s: State) {
    forall p :: p in s.base ==> !cfg.denied(p)
  }

  lemma KnownAllowed(cfg: Config, s: State, p: Path)
    requires BaseAllowed(cfg, s) && p in KnownPaths(cfg, s)
    ensures !cfg.denied(p)
  {
  }

  lemma OneKeepsBaseAllowed(cfg: Config, w: Weather, s: State, p: Path, host: map<Path, Digest>,
                            sandbox: map<Path, Digest>)
    requires BaseAllowed(cfg, s) && !cfg.denied(p)
    ensures BaseAllowed(cfg, ReconcileOne(cfg, w, s, p, host, sandbox).0)
  {
  }

  lemma {:induction false} SettleKeepsBaseAllowed(cfg: Config, w: Weather, s: State, paths: seq<Path>,
                                                  host: map<Path, Digest>, sandbox: map<Path, Digest>)
    requires BaseAllowed(cfg, s) && forall p :: p in paths ==> !cfg.denied(p)
    ensures BaseAllowed(cfg, Settle(cfg, w, s, paths, host, sandbox).0)
    decreases |paths|
  {
    if paths == [] {
    } else {
      OneKeepsBaseAllowed(cfg, w, s, paths[0], host, sandbox);
      SettleKeepsBaseAllowed(cfg, w, ReconcileOne(cfg, w, s, paths[0], host, sandbox).0, paths[1..], host, sandbox);
    }
  }

  lemma PassKeepsBaseAllowed(cfg: Config, w: Weather, s: State)
    requires BaseAllowed(cfg, s)
    ensures BaseAllowed(cfg, Pass(cfg, w, s).0)
  {
    var paths := SortedSet(KnownPaths(cfg, s));
    forall p | p in paths ensures !cfg.denied(p) {
      assert p in Elements(paths);
    }
    SettleKeepsBaseAllowed(cfg, w, s, paths, HostFiles(cfg, s.host), Manifest(cfg, s.sandbox));
  }

  lemma {:induction false} RunKeepsBaseAllowed(cfg: Config, s: State, es: seq<Event>)
    requires BaseAllowed(cfg, s)
    ensures BaseAllowed(cfg, Run(cfg, s, es))
    decreases |es|
  {
    if es == [] {
    } else {
      RunKeepsBaseAllowed(cfg, s, es[..|es|-1]);
      if es[|es|-1].Reconcile? {
        PassKeepsBaseAllowed(cfg, es[|es|-1].weather, Run(cfg, s, es[..|es|-1]));
      }
    }
  }

  ghost predicate BlindPull(cfg: Config, p: Path, v: View) {
    v.sandbox.Some? && cfg.ignored(p) && !v.tombstoned && v.base.None?
  }

  /** A sandbox file that the host walk will not see again once it has been pulled. */
  ghost predicate PullsIntoIgnored(cfg: Config, s: State, p: Path) {
    !cfg.denied(p) && BlindPull(cfg, p, At(s, p))
  }

  lemma SettledIsQuiet(cfg: Config, p: Path, v: View)
    requires CollisionFree(cfg.sha)
    ensures var after := Settled(cfg, p, v);
            && (BlindPull(cfg, p, v) ==> after.base.Some? && after.sandbox.Some? && Decision(cfg, p, after) == Entomb)
            && !BlindPull(cfg, p, after)
            && (!BlindPull(cfg, p, v) ==> QuietView(cfg, p, after))
  {
  }

  /** After a completed pass every path is quiet, except one pulled into the blind spot. */
  lemma PassIsQuiet(cfg: Config, w: Weather, s: State, p: Path)
    requires cfg.GuardsArtifacts() && CollisionFree(cfg.sha) && Pass(cfg, w, s).1 && !cfg.denied(p)
    ensures var after := At(Pass(cfg, w, s).0, p);
            && (BlindPull(cfg, p, At(s, p)) ==>
                 after.base.Some? && after.sandbox.Some? && Decision(cfg, p, after) == Entomb)
            && !BlindPull(cfg, p, after)
            && (!BlindPull(cfg, p, At(s, p)) && p in KnownPaths(cfg, Pass(cfg, w, s).0) ==> QuietView(cfg, p, after))
  {
    PassAt(cfg, w, s, p);
    SettledIsQuiet(cfg, p, At(s, p));
    KnownSame(cfg, s, Pass(cfg, w, s).0, p);
  }

  lemma KnownSame(cfg: Config, s: State, t: State, p: Path)
    requires At(s, p) == At(t, p) || p in KnownPaths(cfg, s)
    ensures p in KnownPaths(cfg, t) ==> p in KnownPaths(cfg, s)
  {
  }

  /** Repeating a completed pass with no edit in between needs no transfer, so it cannot fail,
      and it changes nothing exactly when the first pass did not pull a file into the blind
      spot between the two filters. */
  lemma SecondPassExactly(cfg: Config, w: Weather, w': Weather, s: State)
    requires cfg.GuardsArtifacts() && CollisionFree(cfg.sha) && BaseAllowed(cfg, s) && Pass(cfg, w, s).1
    ensures var t := Pass(cfg, w, s).0;
            && Pass(cfg, w', t).1
            && (Pass(cfg, w', t).0 == t <==> forall p :: !PullsIntoIgnored(cfg, s, p))
  {
    var t := Pass(cfg, w, s).0;
    PassKeepsBaseAllowed(cfg, w, s);
    var paths := SortedSet(KnownPaths(cfg, t));
    forall p | p in paths
      ensures !cfg.denied(p) && (Quiet(cfg, t, p) || Decision(cfg, p, At(t, p)) == Entomb)
      ensures Quiet(cfg, t, p) || PullsIntoIgnored(cfg, s, p)
    {
      assert p in Elements(paths);
      KnownAllowed(cfg, t, p);
      PassIsQuiet(cfg, w, s, p);
    }
    NoTransferSettle(cfg, w', t, t, paths);
    if forall p :: !PullsIntoIgnored(cfg, s, p) {
      QuietSettle(cfg, w', t, paths);
    } else {
      var p :| PullsIntoIgnored(cfg, s, p);
      PassIsQuiet(cfg, w, s, p);
      PassEntombs(cfg, w', t, p);
    }
  }

  lemma PassEntombs(cfg: Config, w: Weather, s: State, p: Path)
    requires cfg.GuardsArtifacts() && !cfg.denied(p) && Pass(cfg, w, s).1
    requires p in s.base && Decision(cfg, p, At(s, p)) == Entomb
    ensures At(Pass(cfg, w, s).0, p) != At(s, p)
  {
    PassAt(cfg, w, s, p);
    assert Settled(cfg, p, At(s, p)).base == None;
  }

  lemma NoTransferStep(cfg: Config, w: Weather, snap: State, s: State, p: Path)
    requires s.host == snap.host && s.sandbox == snap.sandbox && s.lastConflict == snap.lastConflict
    requires At(s, p) == At(snap, p) && !cfg.denied(p)
    requires Quiet(cfg, snap, p) || Decision(cfg, p, At(snap, p)) == Entomb
    ensures var (t, ok) := ReconcileOne(cfg, w, s, p, HostFiles(cfg, snap.host), Manifest(cfg, snap.sandbox));
            && ok && t.host == s.host && t.sandbox == s.sandbox && t.lastConflict == s.lastConflict
            && forall q :: q != p ==> At(t, q) == At(s, q)
  {
    if Decision(cfg, p, At(s, p)) != Entomb {
      QuietStep(cfg, w, s, p);
    }
  }

  /** A list of paths that are quiet or only need a tombstone settles without any transfer. */
  lemma {:induction false} NoTransferSettle(cfg: Config, w: Weather, snap: State, s: State, paths: seq<Path>)
    requires Distinct(paths) && s.host == snap.host && s.sandbox == snap.sandbox && s.lastConflict == snap.lastConflict
    requires forall p :: p in paths ==>
      && At(s, p) == At(snap, p) && !cfg.denied(p)
      && (Quiet(cfg, snap, p) || Decision(cfg, p, At(snap, p)) == Entomb)
    ensures Settle(cfg, w, s, paths, HostFiles(cfg, snap.host), Manifest(cfg, snap.sandbox)).1
    decreases |paths|
  {
    if paths == [] {
    } else {
      var t := ReconcileOne(cfg, w, s, paths[0], HostFiles(cfg, snap.host), Manifest(cfg, snap.sandbox)).0;
      NoTransferStep(cfg, w, snap, s, paths[0]);
      forall p | p in paths[1..] ensures At(t, p) == At(s, p) {
        assert p != paths[0];
      }
      NoTransferSettle(cfg, w, snap, t, paths[1..]);
    }
  }

  /** Two completed passes always reach a state that further passes leave alone. */
  lemma ThirdPassIsIdle(cfg: Config, w: Weather, w': Weather, w'': Weather, s: State)
    requires cfg.GuardsArtifacts() && CollisionFree(cfg.sha) && BaseAllowed(cfg, s) && Pass(cfg, w, s).1
    ensures var t := Pass(cfg, w', Pass(cfg, w, s).0).0;
            Pass(cfg, w'', t) == (t, true)
  {
    var t := Pass(cfg, w, s).0;
    SecondPassExactly(cfg, w, w', s);
    PassKeepsBaseAllowed(cfg, w, s);
    forall p ensures !PullsIntoIgnored(cfg, t, p) {
      if !cfg.denied(p) {
        PassIsQuiet(cfg, w, s, p);
      }
    }
    SecondPassExactly(cfg, w', w'', t);
  }
}
