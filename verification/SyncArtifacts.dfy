/**
  The conflict siblings the sync engine leaves for the operator.
 */
module SyncArtifacts {
  import opened Prelude
  import opened Sorting
  import opened Sync
  import opened SyncRuns

  lemma SiblingInjective(p: Path, q: Path)
    ensures SiblingOf(p) == SiblingOf(q) ==> p == q
  {
    assert SiblingOf(p)[..|SiblingOf(p)| - |CONFLICT_SUFFIX|] == p;
    assert SiblingOf(q)[..|SiblingOf(q)| - |CONFLICT_SUFFIX|] == q;
  }

  // ---------------------------------------------------------------------------
  // Conflict siblings
  // ---------------------------------------------------------------------------

  /** A recorded conflict at `p` has its sandbox version in the sibling file. */
  ghost predicate Preserved(cfg: Config, s: State, p: Path) {
    p in s.lastConflict ==> SiblingOf(p) in s.host && cfg.sha(s.host[SiblingOf(p)]) == s.lastConflict[p]
  }

  lemma BackupPreserves(cfg: Config, w: Weather, s: State, p: Path)
    requires cfg.GuardsArtifacts()
    ensures var t := EnsureBackup(cfg, w, s).0;
            Lookup(t.host, SiblingOf(p)) == Lookup(s.host, SiblingOf(p)) && t.lastConflict == s.lastConflict
  {
    forall q | q in HostFiles(cfg, s.host) ensures BackupPath(w.stamp, q) != SiblingOf(p) {
      BackupIsNotSibling(cfg, w.stamp, q, p);
    }
    BackupKey(cfg, w.stamp, s.host, SiblingOf(p));
  }

  lemma PullPreserves(cfg: Config, w: Weather, s: State, q: Path, p: Path)
    requires cfg.GuardsArtifacts() && !cfg.denied(q) && Preserved(cfg, s, p)
    ensures Preserved(cfg, DoPull(cfg, w, s, q).0, p)
  {
    BackupPreserves(cfg, w, s, p);
  }

  lemma ConflictPreserves(cfg: Config, w: Weather, s: State, q: Path, p: Path, sandboxHash: Digest)
    requires cfg.GuardsArtifacts() && Preserved(cfg, s, p)
    requires q in s.sandbox ==> sandboxHash == cfg.sha(s.sandbox[q])
    ensures Preserved(cfg, DoConflict(cfg, w, s, q, sandboxHash).0, p)
  {
    BackupPreserves(cfg, w, s, p);
    SiblingInjective(p, q);
  }

  lemma StepPreserves(cfg: Config, w: Weather, s: State, q: Path, p: Path, host: map<Path, Digest>,
                      sandbox: map<Path, Digest>)
    requires cfg.GuardsArtifacts() && !cfg.denied(q) && SnapshotAgrees(cfg, s, q, host, sandbox) && Preserved(cfg, s, p)
    ensures Preserved(cfg, ReconcileOne(cfg, w, s, q, host, sandbox).0, p)
  {
    match Decide(Lookup(host, q), Lookup(sandbox, q), Lookup(s.base, q), q in s.tombstone)
    case Pull => PullPreserves(cfg, w, s, q, p);
    case RecordConflict => ConflictPreserves(cfg, w, s, q, p, sandbox[q]);
    case _ =>
  }

  lemma {:induction false} SettlePreserves(cfg: Config, w: Weather, s: State, paths: seq<Path>, p: Path,
                                           host: map<Path, Digest>, sandbox: map<Path, Digest>)
    requires cfg.GuardsArtifacts() && Distinct(paths) && Preserved(cfg, s, p)
    requires forall q :: q in paths ==> !cfg.denied(q) && SnapshotAgrees(cfg, s, q, host, sandbox)
    ensures Preserved(cfg, Settle(cfg, w, s, paths, host, sandbox).0, p)
    decreases |paths|
  {
    if paths == [] {
    } else {
      var t := ReconcileOne(cfg, w, s, paths[0], host, sandbox).0;
      StepPreserves(cfg, w, s, paths[0], p, host, sandbox);
      forall q | q in paths[1..] ensures !cfg.denied(q) && SnapshotAgrees(cfg, t, q, host, sandbox) {
        OtherPathsUntouched(cfg, w, s, paths[0], q, host, sandbox);
        SnapshotMoves(cfg, s, t, q, host, sandbox);
      }
      SettlePreserves(cfg, w, t, paths[1..], p, host, sandbox);
    }
  }

  lemma PassPreserves(cfg: Config, w: Weather, s: State, p: Path)
    requires cfg.GuardsArtifacts() && BaseAllowed(cfg, s) && Preserved(cfg, s, p)
    ensures Preserved(cfg, Pass(cfg, w, s).0, p)
  {
    var paths := SortedSet(KnownPaths(cfg, s));
    forall q | q in paths ensures !cfg.denied(q) {
      assert q in Elements(paths);
      KnownAllowed(cfg, s, q);
    }
    SettlePreserves(cfg, w, s, paths, p, HostFiles(cfg, s.host), Manifest(cfg, s.sandbox));
  }

  ghost predicate NobodyTouches(es: seq<Event>, p: Path) {
    forall k :: 0 <= k < |es| ==> !((es[k].HostWrite? || es[k].HostDelete?) && es[k].path == p)
  }

  lemma EventPreserves(cfg: Config, s: State, e: Event, p: Path)
    requires cfg.GuardsArtifacts() && BaseAllowed(cfg, s) && Preserved(cfg, s, p)
    requires !((e.HostWrite? || e.HostDelete?) && e.path == SiblingOf(p))
    ensures Preserved(cfg, Next(cfg, s, e), p) && BaseAllowed(cfg, Next(cfg, s, e))
  {
    if e.Reconcile? {
      PassPreserves(cfg, e.weather, s, p);
      PassKeepsBaseAllowed(cfg, e.weather, s);
    }
  }

  lemma {:induction false} RunPreserves(cfg: Config, s: State, es: seq<Event>, p: Path)
    requires cfg.GuardsArtifacts() && Fresh(s) && NobodyTouches(es, SiblingOf(p))
    ensures Preserved(cfg, Run(cfg, s, es), p) && BaseAllowed(cfg, Run(cfg, s, es))
    decreases |es|
  {
    if es == [] {
    } else {
      var n := |es| - 1;
      RunPreserves(cfg, s, es[..n], p);
      EventPreserves(cfg, Run(cfg, s, es[..n]), es[n], p);
    }
  }

  datatype Standing = Agreed | Waiting | Conflicted | Gone | Unsettled

  /** How a path stands: the two sides and the merge base agree; the file is on one side and
      tombstoned; the sides differ and the sandbox version is recorded; or it is nowhere. */
  ghost function StandingOf(cfg: Config, v: View): Standing {
    if v.host.Some? && v.host == v.sandbox && v.base == Digested(cfg, v.host) then Agreed
    else if v.host.Some? != v.sandbox.Some? && v.tombstoned then Waiting
    else if v.host.Some? && v.sandbox.Some? && v.host != v.sandbox && v.recorded == Digested(cfg, v.sandbox) then
      Conflicted
    else if v.host.None? && v.sandbox.None? && v.base.None? then Gone
    else Unsettled
  }

  lemma SettledStands(cfg: Config, p: Path, v: View)
    requires CollisionFree(cfg.sha) && !cfg.ignored(p)
    ensures StandingOf(cfg, Settled(cfg, p, v)) != Unsettled
  {
    if Decision(cfg, p, v).Converge? {
      SameDigest(cfg, v.host.value, v.sandbox.value);
    }
  }

  /** After a completed pass no path is left unsettled; and a conflicting sandbox version is
      in its sibling file, provided only the engine ever wrote that file. */
  lemma EveryPathStands(cfg: Config, s: State, es: seq<Event>, w: Weather, p: Path)
    requires cfg.GuardsArtifacts() && CollisionFree(cfg.sha) && Fresh(s) && !cfg.HostSkips(p)
    requires Pass(cfg, w, Run(cfg, s, es)).1
    ensures var t := Pass(cfg, w, Run(cfg, s, es)).0;
            var standing := StandingOf(cfg, At(t, p));
            && standing != Unsettled
            && (standing == Conflicted && NobodyTouches(es, SiblingOf(p)) ==>
                  Lookup(t.host, SiblingOf(p)) == Lookup(t.sandbox, p))
  {
    var before := Run(cfg, s, es);
    var t := Pass(cfg, w, before).0;
    PassStands(cfg, w, before, p);
    if StandingOf(cfg, At(t, p)) == Conflicted && NobodyTouches(es, SiblingOf(p)) {
      RunPreserves(cfg, s, es, p);
      PassPreserves(cfg, w, before, p);
      assert Lookup(t.lastConflict, p) == Digested(cfg, Lookup(t.sandbox, p));
      SameDigest(cfg, t.host[SiblingOf(p)], t.sandbox[p]);
    }
  }

  lemma PassStands(cfg: Config, w: Weather, s: State, p: Path)
    requires cfg.GuardsArtifacts() && CollisionFree(cfg.sha) && !cfg.HostSkips(p) && Pass(cfg, w, s).1
    ensures StandingOf(cfg, At(Pass(cfg, w, s).0, p)) != Unsettled
  {
    PassAt(cfg, w, s, p);
    SettledStands(cfg, p, At(s, p));
    if p !in KnownPaths(cfg, s) {
      assert StandingOf(cfg, At(s, p)) == Gone;
    }
  }

  lemma PullMissesSibling(cfg: Config, w: Weather, s: State, q: Path, p: Path)
    requires cfg.GuardsArtifacts() && !cfg.denied(q)
    ensures Lookup(DoPull(cfg, w, s, q).0.host, SiblingOf(p)) == Lookup(s.host, SiblingOf(p))
  {
    BackupPreserves(cfg, w, s, p);
    assert q != SiblingOf(p);
  }

  lemma ConflictMissesSibling(cfg: Config, w: Weather, s: State, q: Path, p: Path, sandboxHash: Digest)
    requires cfg.GuardsArtifacts() && q != p
    ensures Lookup(DoConflict(cfg, w, s, q, sandboxHash).0.host, SiblingOf(p)) == Lookup(s.host, SiblingOf(p))
  {
    BackupPreserves(cfg, w, s, p);
    SiblingInjective(p, q);
  }

  lemma OtherSiblingUntouched(cfg: Config, w: Weather, s: State, q: Path, p: Path, host: map<Path, Digest>,
                              sandbox: map<Path, Digest>)
    requires cfg.GuardsArtifacts() && !cfg.denied(q) && q != p
    ensures Lookup(ReconcileOne(cfg, w, s, q, host, sandbox).0.host, SiblingOf(p)) == Lookup(s.host, SiblingOf(p))
  {
    match Decide(Lookup(host, q), Lookup(sandbox, q), Lookup(s.base, q), q in s.tombstone)
    case Pull => PullMissesSibling(cfg, w, s, q, p);
    case RecordConflict => ConflictMissesSibling(cfg, w, s, q, p, sandbox[q]);
    case _ =>
  }

  lemma {:induction false} SiblingElsewhere(cfg: Config, w: Weather, s: State, paths: seq<Path>, p: Path,
                                            host: map<Path, Digest>, sandbox: map<Path, Digest>)
    requires cfg.GuardsArtifacts() && p !in paths && forall q :: q in paths ==> !cfg.denied(q)
    ensures Lookup(Settle(cfg, w, s, paths, host, sandbox).0.host, SiblingOf(p)) == Lookup(s.host, SiblingOf(p))
    decreases |paths|
  {
    if paths == [] {
    } else {
      OtherSiblingUntouched(cfg, w, s, paths[0], p, host, sandbox);
      SiblingElsewhere(cfg, w, ReconcileOne(cfg, w, s, paths[0], host, sandbox).0, paths[1..], p, host, sandbox);
    }
  }

  /** What the sibling of a conflicting path holds once the path is settled: a version already
      recorded is not written again. */
  ghost function SiblingAfter(cfg: Config, s: State, p: Path): Option<Content> {
    if Lookup(s.lastConflict, p) == Digested(cfg, Lookup(s.sandbox, p))
    then Lookup(s.host, SiblingOf(p))
    else Lookup(s.sandbox, p)
  }

  lemma OwnSibling(cfg: Config, w: Weather, s: State, p: Path, host: map<Path, Digest>, sandbox: map<Path, Digest>)
    requires !cfg.denied(p) && SnapshotAgrees(cfg, s, p, host, sandbox) && Decision(cfg, p, At(s, p)).RecordConflict?
    requires ReconcileOne(cfg, w, s, p, host, sandbox).1
    ensures Lookup(ReconcileOne(cfg, w, s, p, host, sandbox).0.host, SiblingOf(p)) == SiblingAfter(cfg, s, p)
  {
  }

  lemma {:induction false} SiblingSettles(cfg: Config, w: Weather, s: State, paths: seq<Path>, p: Path,
                                          host: map<Path, Digest>, sandbox: map<Path, Digest>)
    requires cfg.GuardsArtifacts() && Distinct(paths) && p in paths && forall q :: q in paths ==> !cfg.denied(q)
    requires SnapshotAgrees(cfg, s, p, host, sandbox) && Decision(cfg, p, At(s, p)).RecordConflict?
    requires Settle(cfg, w, s, paths, host, sandbox).1
    ensures Lookup(Settle(cfg, w, s, paths, host, sandbox).0.host, SiblingOf(p)) == SiblingAfter(cfg, s, p)
    decreases |paths|
  {
    var t := ReconcileOne(cfg, w, s, paths[0], host, sandbox).0;
    if paths[0] == p {
      OwnSibling(cfg, w, s, p, host, sandbox);
      SiblingElsewhere(cfg, w, t, paths[1..], p, host, sandbox);
    } else {
      OtherPathsUntouched(cfg, w, s, paths[0], p, host, sandbox);
      OtherSiblingUntouched(cfg, w, s, paths[0], p, host, sandbox);
      SnapshotMoves(cfg, s, t, p, host, sandbox);
      assert SiblingAfter(cfg, t, p) == SiblingAfter(cfg, s, p);
      SiblingSettles(cfg, w, t, paths[1..], p, host, sandbox);
    }
  }

  lemma SiblingAfterPass(cfg: Config, w: Weather, s: State, p: Path)
    requires cfg.GuardsArtifacts() && BaseAllowed(cfg, s) && !cfg.denied(p)
    requires Pass(cfg, w, s).1 && Decision(cfg, p, At(s, p)).RecordConflict?
    ensures Lookup(Pass(cfg, w, s).0.host, SiblingOf(p)) == SiblingAfter(cfg, s, p)
  {
    var paths := SortedSet(KnownPaths(cfg, s));
    forall q | q in paths ensures !cfg.denied(q) {
      assert q in Elements(paths);
      KnownAllowed(cfg, s, q);
    }
    assert p in Elements(paths);
    SiblingSettles(cfg, w, s, paths, p, HostFiles(cfg, s.host), Manifest(cfg, s.sandbox));
  }

  lemma SettledKeepsSandbox(cfg: Config, p: Path, v: View)
    requires Decision(cfg, p, v).RecordConflict?
    ensures Settled(cfg, p, v).sandbox == v.sandbox
  {
  }

  lemma ConflictKeepsSandbox(cfg: Config, w: Weather, s: State, p: Path)
    requires cfg.GuardsArtifacts() && !cfg.denied(p) && Decision(cfg, p, At(s, p)).RecordConflict?
    ensures Lookup(Pass(cfg, w, s).0.sandbox, p) == Lookup(s.sandbox, p)
  {
    PassAt(cfg, w, s, p);
    SettledKeepsSandbox(cfg, p, At(s, p));
    assert At(Pass(cfg, w, s).0, p).sandbox == At(s, p).sandbox;
  }

  /** A completed pass that finds `p` in conflict leaves the sandbox's version in the sibling
      exactly if that version was not recorded before or the sibling still held it: a sibling
      the operator deleted or edited is not written anew. */
  lemma SiblingHoldsExactly(cfg: Config, w: Weather, s: State, p: Path)
    requires cfg.GuardsArtifacts() && BaseAllowed(cfg, s) && !cfg.denied(p)
    requires Pass(cfg, w, s).1 && Decision(cfg, p, At(s, p)).RecordConflict?
    ensures var t := Pass(cfg, w, s).0;
            Lookup(t.host, SiblingOf(p)) == Lookup(t.sandbox, p) <==>
              Lookup(s.lastConflict, p) != Digested(cfg, Lookup(s.sandbox, p)) ||
                Lookup(s.host, SiblingOf(p)) == Lookup(s.sandbox, p)
  {
    SiblingAfterPass(cfg, w, s, p);
    ConflictKeepsSandbox(cfg, w, s, p);
  }
}
