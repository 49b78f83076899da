/**
  What one pass does, written out: for each path by the contents on the two sides and the three
  records, when it completes, and what it touches besides.
 */
module SyncTable {
  import opened Prelude
  import opened Sorting
  import opened Sync
  import opened SyncRuns

  /** A path before and after it is settled. `seen` is what the host walk finds there. */
  ghost predicate Row(cfg: Config, seen: Option<Content>, v: View, after: View) {
    match (seen, v.sandbox)
    case (Some(x), Some(y)) =>
      if x == y then after == View(v.host, v.sandbox, Some(cfg.sha(x)), v.tombstoned, v.recorded)
      else if v.base == Some(cfg.sha(y)) then after == View(Some(x), Some(x), Some(cfg.sha(x)), false, v.recorded)
      else if v.base == Some(cfg.sha(x)) then after == View(Some(y), Some(y), Some(cfg.sha(y)), false, v.recorded)
      else after == View(v.host, v.sandbox, v.base, v.tombstoned, Some(cfg.sha(y)))
    case (Some(x), None) =>
      if v.tombstoned then after == v
      else if v.base.Some? then after == View(v.host, None, None, true, v.recorded)
      else after == View(Some(x), Some(x), Some(cfg.sha(x)), false, v.recorded)
    case (None, Some(y)) =>
      if v.tombstoned then after == v
      else if v.base.Some? then after == View(v.host, Some(y), None, true, v.recorded)
      else after == View(Some(y), Some(y), Some(cfg.sha(y)), false, v.recorded)
    case (None, None) =>
      if v.base.Some? then after == View(v.host, None, None, false, v.recorded) else after == v
  }

  /** The row of one path of a pass from `s` to `t`. */
  ghost predicate RowAt(cfg: Config, s: State, t: State, p: Path) {
    Row(cfg, if cfg.ignored(p) then None else Lookup(s.host, p), At(s, p), At(t, p))
  }

  lemma SettledIsRow(cfg: Config, p: Path, v: View)
    requires CollisionFree(cfg.sha)
    requires v.base.Some? || (v.host.Some? && !cfg.ignored(p)) || v.sandbox.Some?
    ensures Row(cfg, if cfg.ignored(p) then None else v.host, v, Settled(cfg, p, v))
  {
    if !cfg.ignored(p) && v.host.Some? && v.sandbox.Some? {
      SameDigest(cfg, v.host.value, v.sandbox.value);
    }
  }

  /** What a completed pass leaves of every path the deny-list lets through. */
  lemma PassTable(cfg: Config, w: Weather, s: State, p: Path)
    requires cfg.GuardsArtifacts() && CollisionFree(cfg.sha) && !cfg.denied(p) && Pass(cfg, w, s).1
    ensures RowAt(cfg, s, Pass(cfg, w, s).0, p)
  {
    PassAt(cfg, w, s, p);
    if p in KnownPaths(cfg, s) {
      SettledIsRow(cfg, p, At(s, p));
    }
  }

  // ---------------------------------------------------------------------------
  // When a pass completes
  // ---------------------------------------------------------------------------

  /** Both sides hold the path, with different contents. */
  ghost predicate Differ(cfg: Config, v: View, ignored: bool) {
    !ignored && v.host.Some? && v.sandbox.Some? && v.host != v.sandbox
  }

  /** The path is on one side only, and nothing says it was ever on the other. */
  ghost predicate New(v: View, side: Option<Content>, other: Option<Content>) {
    side.Some? && other.None? && !v.tombstoned && v.base.None?
  }

  ghost predicate NeedsPush(cfg: Config, v: View, ignored: bool) {
    || (Differ(cfg, v, ignored) && v.base == Some(cfg.sha(v.sandbox.value)))
    || (!ignored && New(v, v.host, v.sandbox))
  }

  ghost predicate NeedsPull(cfg: Config, v: View, ignored: bool) {
    || (Differ(cfg, v, ignored) && v.base == Some(cfg.sha(v.host.value)))
    || New(v, v.sandbox, if ignored then None else v.host)
  }

  /** Both moved, and the sandbox's version is not yet saved. */
  ghost predicate NeedsSaving(cfg: Config, v: View, ignored: bool) {
    && Differ(cfg, v, ignored)
    && v.base != Some(cfg.sha(v.sandbox.value)) && v.base != Some(cfg.sha(v.host.value))
    && v.recorded != Some(cfg.sha(v.sandbox.value))
  }

  ghost predicate BackupOk(w: Weather, s: State) {
    s.backupDone || w.git || !w.backupFails
  }

  /** Nothing that settling the path needs fails: a push its upload; a pull its download, the
      backup and the write; a new conflict its download, the backup and the sibling. */
  ghost predicate Settles(cfg: Config, w: Weather, s: State, p: Path) {
    var v := At(s, p);
    && (NeedsPush(cfg, v, cfg.ignored(p)) ==> p !in w.cut)
    && (NeedsPull(cfg, v, cfg.ignored(p)) ==> p !in w.cut && BackupOk(w, s) && p !in w.unwritable)
    && (NeedsSaving(cfg, v, cfg.ignored(p)) ==> p !in w.cut && BackupOk(w, s) && SiblingOf(p) !in w.unwritable)
  }

  lemma DecisionNeeds(cfg: Config, p: Path, v: View)
    requires CollisionFree(cfg.sha)
    ensures Decision(cfg, p, v).Push? <==> NeedsPush(cfg, v, cfg.ignored(p))
    ensures Decision(cfg, p, v).Pull? <==> NeedsPull(cfg, v, cfg.ignored(p))
    ensures Decision(cfg, p, v).RecordConflict? && v.recorded != Digested(cfg, v.sandbox) <==>
              NeedsSaving(cfg, v, cfg.ignored(p))
  {
    if !cfg.ignored(p) && v.host.Some? && v.sandbox.Some? {
      SameDigest(cfg, v.host.value, v.sandbox.value);
    }
  }

  lemma StepSettles(cfg: Config, w: Weather, s: State, p: Path, host: map<Path, Digest>, sandbox: map<Path, Digest>)
    requires CollisionFree(cfg.sha) && !cfg.denied(p) && SnapshotAgrees(cfg, s, p, host, sandbox)
    ensures ReconcileOne(cfg, w, s, p, host, sandbox).1 <==> Settles(cfg, w, s, p)
  {
    DecisionAgrees(cfg, s, p, host, sandbox);
    DecisionNeeds(cfg, p, At(s, p));
  }

  lemma StepKeepsBackupOk(cfg: Config, w: Weather, s: State, p: Path, host: map<Path, Digest>,
                          sandbox: map<Path, Digest>)
    requires ReconcileOne(cfg, w, s, p, host, sandbox).1
    ensures BackupOk(w, ReconcileOne(cfg, w, s, p, host, sandbox).0) == BackupOk(w, s)
  {
  }

  /** The listed paths are as they were when the pass began. */
  ghost predicate Untouched(cfg: Config, w: Weather, start: State, s: State, paths: seq<Path>,
                            host: map<Path, Digest>, sandbox: map<Path, Digest>)
  {
    && BackupOk(w, s) == BackupOk(w, start)
    && forall q :: q in paths ==>
         !cfg.denied(q) && At(s, q) == At(start, q) && SnapshotAgrees(cfg, s, q, host, sandbox)
  }

  lemma StepLeavesRest(cfg: Config, w: Weather, start: State, s: State, paths: seq<Path>,
                       host: map<Path, Digest>, sandbox: map<Path, Digest>)
    requires cfg.GuardsArtifacts() && paths != [] && Distinct(paths)
    requires Untouched(cfg, w, start, s, paths, host, sandbox)
    requires ReconcileOne(cfg, w, s, paths[0], host, sandbox).1
    ensures Untouched(cfg, w, start, ReconcileOne(cfg, w, s, paths[0], host, sandbox).0, paths[1..], host, sandbox)
  {
    var t := ReconcileOne(cfg, w, s, paths[0], host, sandbox).0;
    StepKeepsBackupOk(cfg, w, s, paths[0], host, sandbox);
    forall q | q in paths[1..]
      ensures !cfg.denied(q) && At(t, q) == At(start, q) && SnapshotAgrees(cfg, t, q, host, sandbox)
    {
      assert q in paths;
      OtherPathsUntouched(cfg, w, s, paths[0], q, host, sandbox);
      SnapshotMoves(cfg, s, t, q, host, sandbox);
    }
  }

  /** How far a pass gets through the listed paths: up to the first that does not settle. */
  function Reach(paths: seq<Path>, settles: Path -> bool): (k: nat)
    ensures k <= |paths|
    decreases |paths|
  {
    if paths == [] || !settles(paths[0]) then 0 else 1 + Reach(paths[1..], settles)
  }

  lemma {:induction false} SettleReaches(cfg: Config, w: Weather, start: State, s: State, paths: seq<Path>,
                                         host: map<Path, Digest>, sandbox: map<Path, Digest>, settles: Path -> bool)
    requires cfg.GuardsArtifacts() && CollisionFree(cfg.sha) && Distinct(paths)
    requires Untouched(cfg, w, start, s, paths, host, sandbox)
    requires forall q :: settles(q) == Settles(cfg, w, start, q)
    ensures var (t, ok) := Settle(cfg, w, s, paths, host, sandbox);
            var k := Reach(paths, settles);
            && (ok <==> k == |paths|)
            && (forall j :: 0 <= j < k ==> At(t, paths[j]) == Settled(cfg, paths[j], At(start, paths[j])))
            && (forall j :: k <= j < |paths| ==> At(t, paths[j]) == At(start, paths[j]))
    decreases |paths|
  {
    if paths == [] {
    } else {
      var p, rest := paths[0], paths[1..];
      var (u, ok) := ReconcileOne(cfg, w, s, p, host, sandbox);
      StepSettles(cfg, w, s, p, host, sandbox);
      OnePathSettles(cfg, w, s, p, host, sandbox);
      assert Settles(cfg, w, s, p) == Settles(cfg, w, start, p);
      if ok {
        StepLeavesRest(cfg, w, start, s, paths, host, sandbox);
        SettleReaches(cfg, w, start, u, rest, host, sandbox, settles);
        SettleElsewhere(cfg, w, u, rest, p, host, sandbox);
        assert forall j :: 0 < j < |paths| ==> paths[j] == rest[j-1];
      } else {
        forall j | 0 <= j < |paths| ensures At(u, paths[j]) == At(start, paths[j]) {
          if j > 0 {
            OtherPathsUntouched(cfg, w, s, p, paths[j], host, sandbox);
          }
        }
      }
    }
  }

  lemma {:induction false} ReachFacts(paths: seq<Path>, settles: Path -> bool)
    ensures var k := Reach(paths, settles);
            && (forall j :: 0 <= j < k ==> settles(paths[j]))
            && (k < |paths| ==> !settles(paths[k]))
    decreases |paths|
  {
    if paths == [] {
    } else {
      ReachFacts(paths[1..], settles);
    }
  }

  /** `p` comes strictly before `q` in the order a pass takes. */
  predicate Before(p: Path, q: Path) { p != q && LexLe(p, q) }

  /** `p` in a pass from `s` to `t` that stops at `f`: settled if it comes before, else not touched. */
  ghost predicate UpTo(cfg: Config, w: Weather, s: State, t: State, f: Path, p: Path) {
    if Before(p, f) then Settles(cfg, w, s, p) && RowAt(cfg, s, t, p) else At(t, p) == At(s, p)
  }

  ghost predicate StoppedAt(cfg: Config, w: Weather, s: State, t: State, f: Path) {
    && f in KnownPaths(cfg, s) && !Settles(cfg, w, s, f)
    && forall p :: p in KnownPaths(cfg, s) ==> UpTo(cfg, w, s, t, f, p)
  }

  /** The paths of a pass, in order. */
  lemma PassReaches(cfg: Config, w: Weather, s: State, settles: Path -> bool) returns (paths: seq<Path>, k: nat)
    requires cfg.GuardsArtifacts() && CollisionFree(cfg.sha) && BaseAllowed(cfg, s)
    requires forall q :: settles(q) == Settles(cfg, w, s, q)
    ensures SortedBy(paths, LexLe) && Distinct(paths) && forall q :: q in paths <==> q in KnownPaths(cfg, s)
    ensures k <= |paths| && (Pass(cfg, w, s).1 <==> k == |paths|)
    ensures forall j :: 0 <= j < k ==>
      Settles(cfg, w, s, paths[j]) && At(Pass(cfg, w, s).0, paths[j]) == Settled(cfg, paths[j], At(s, paths[j]))
    ensures k < |paths| ==> !Settles(cfg, w, s, paths[k])
    ensures forall j :: k <= j < |paths| ==> At(Pass(cfg, w, s).0, paths[j]) == At(s, paths[j])
  {
    paths := SortedSet(KnownPaths(cfg, s));
    forall q ensures q in paths <==> q in KnownPaths(cfg, s) {
      assert q in paths <==> q in Elements(paths);
    }
    forall q | q in paths ensures !cfg.denied(q) {
      KnownAllowed(cfg, s, q);
    }
    SettleReaches(cfg, w, s, s, paths, HostFiles(cfg, s.host), Manifest(cfg, s.sandbox), settles);
    ReachFacts(paths, settles);
    k := Reach(paths, settles);
    forall j | 0 <= j < k ensures Settles(cfg, w, s, paths[j]) {
      assert settles(paths[j]);
    }
  }

  lemma KnownRow(cfg: Config, s: State, t: State, p: Path)
    requires CollisionFree(cfg.sha) && p in KnownPaths(cfg, s) && At(t, p) == Settled(cfg, p, At(s, p))
    ensures RowAt(cfg, s, t, p)
  {
    SettledIsRow(cfg, p, At(s, p));
  }

  /** A pass completes exactly if nothing any known path needs fails, and otherwise stops, in path
      order, at the first path that needs what fails. */
  lemma PassCompletesExactly(cfg: Config, w: Weather, s: State)
    requires cfg.GuardsArtifacts() && CollisionFree(cfg.sha) && BaseAllowed(cfg, s)
    ensures var (t, ok) := Pass(cfg, w, s);
            && (ok <==> forall p :: p in KnownPaths(cfg, s) ==> Settles(cfg, w, s, p))
            && (!ok ==> exists f :: StoppedAt(cfg, w, s, t, f))
  {
    var paths, k := PassReaches(cfg, w, s, (p: Path) => Settles(cfg, w, s, p));
    var t := Pass(cfg, w, s).0;
    if k == |paths| {
      forall p | p in KnownPaths(cfg, s) ensures Settles(cfg, w, s, p) {
        var j :| 0 <= j < |paths| && paths[j] == p;
      }
    } else {
      assert paths[k] in paths;
      forall p | p in KnownPaths(cfg, s) ensures UpTo(cfg, w, s, t, paths[k], p) {
        var j :| 0 <= j < |paths| && paths[j] == p;
        BeforeByIndex(paths, j, k);
        if j < k {
          KnownRow(cfg, s, t, p);
        }
      }
      assert StoppedAt(cfg, w, s, t, paths[k]);
    }
  }

  lemma BeforeByIndex(paths: seq<Path>, j: nat, k: nat)
    requires SortedBy(paths, LexLe) && Distinct(paths) && j < |paths| && k < |paths|
    ensures Before(paths[j], paths[k]) <==> j < k
  {
    LexOrder();
    if j > k {
      assert LexLe(paths[k], paths[j]);
    }
  }

  // ---------------------------------------------------------------------------
  // What a pass touches besides
  // ---------------------------------------------------------------------------

  /** The two sides hold `q` with different contents, both in view. */
  ghost predicate Clashes(cfg: Config, s: State, q: Path) {
    !cfg.HostSkips(q) && Differ(cfg, At(s, q), cfg.ignored(q))
  }

  /** Why a pass may write the host file `k` that no side syncs. */
  ghost predicate MayWrite(cfg: Config, w: Weather, s: State, k: Path) {
    || (exists q :: Clashes(cfg, s, q) && SiblingOf(q) == k)
    || (!s.backupDone && !w.git && !w.backupFails
        && exists q :: !cfg.HostSkips(q) && BackupPath(w.stamp, q) == k)
  }

  lemma BackupWrites(cfg: Config, w: Weather, start: State, s: State, k: Path)
    requires !MayWrite(cfg, w, start, k) && (start.backupDone ==> s.backupDone)
    ensures Lookup(EnsureBackup(cfg, w, s).0.host, k) == Lookup(s.host, k)
  {
    if !s.backupDone && !w.git && !w.backupFails {
      forall q | q in HostFiles(cfg, s.host) ensures BackupPath(w.stamp, q) != k {
        assert !cfg.HostSkips(q);
      }
      BackupKey(cfg, w.stamp, s.host, k);
    }
  }

  lemma ConflictWrites(cfg: Config, w: Weather, start: State, s: State, q: Path, k: Path, sandboxHash: Digest)
    requires !MayWrite(cfg, w, start, k) && (start.backupDone ==> s.backupDone) && SiblingOf(q) != k
    ensures Lookup(DoConflict(cfg, w, s, q, sandboxHash).0.host, k) == Lookup(s.host, k)
  {
    BackupWrites(cfg, w, start, s, k);
  }

  lemma PullWrites(cfg: Config, w: Weather, start: State, s: State, q: Path, k: Path)
    requires !MayWrite(cfg, w, start, k) && (start.backupDone ==> s.backupDone) && q != k
    ensures Lookup(DoPull(cfg, w, s, q).0.host, k) == Lookup(s.host, k)
  {
    BackupWrites(cfg, w, start, s, k);
  }

  lemma ConflictClashes(cfg: Config, start: State, q: Path, base: Option<Digest>, tombstoned: bool)
    requires Decide(Lookup(HostFiles(cfg, start.host), q), Lookup(Manifest(cfg, start.sandbox), q), base, tombstoned)
             .RecordConflict?
    ensures Clashes(cfg, start, q)
  {
  }

  /** A step writes the host only by a pull or a conflict. */
  lemma StepIs(cfg: Config, w: Weather, s: State, q: Path, host: map<Path, Digest>, sandbox: map<Path, Digest>)
    ensures var t := ReconcileOne(cfg, w, s, q, host, sandbox).0;
            match Decide(Lookup(host, q), Lookup(sandbox, q), Lookup(s.base, q), q in s.tombstone)
            case Pull => t == DoPull(cfg, w, s, q).0
            case RecordConflict => t == DoConflict(cfg, w, s, q, sandbox[q]).0
            case _ => t.host == s.host
  {
  }

  lemma StepWrites(cfg: Config, w: Weather, start: State, s: State, q: Path, k: Path)
    requires cfg.denied(k) && !MayWrite(cfg, w, start, k) && (start.backupDone ==> s.backupDone)
    ensures var t := ReconcileOne(cfg, w, s, q, HostFiles(cfg, start.host), Manifest(cfg, start.sandbox)).0;
            Lookup(t.host, k) == Lookup(s.host, k)
  {
    var host, sandbox := HostFiles(cfg, start.host), Manifest(cfg, start.sandbox);
    StepIs(cfg, w, s, q, host, sandbox);
    var decision := Decide(Lookup(host, q), Lookup(sandbox, q), Lookup(s.base, q), q in s.tombstone);
    if decision.Pull? {
      PullWrites(cfg, w, start, s, q, k);
    } else if decision.RecordConflict? {
      ConflictClashes(cfg, start, q, Lookup(s.base, q), q in s.tombstone);
      assert SiblingOf(q) != k;
      ConflictWrites(cfg, w, start, s, q, k, sandbox[q]);
    }
  }

  lemma FlagStays(cfg: Config, w: Weather, s: State, q: Path, host: map<Path, Digest>, sandbox: map<Path, Digest>)
    requires s.backupDone
    ensures ReconcileOne(cfg, w, s, q, host, sandbox).0.backupDone
  {
  }

  lemma {:induction false} SettleWrites(cfg: Config, w: Weather, start: State, s: State, paths: seq<Path>, k: Path)
    requires cfg.denied(k) && !MayWrite(cfg, w, start, k) && (start.backupDone ==> s.backupDone)
    ensures var t := Settle(cfg, w, s, paths, HostFiles(cfg, start.host), Manifest(cfg, start.sandbox)).0;
            Lookup(t.host, k) == Lookup(s.host, k)
    decreases |paths|
  {
    if paths == [] {
    } else {
      var t := ReconcileOne(cfg, w, s, paths[0], HostFiles(cfg, start.host), Manifest(cfg, start.sandbox)).0;
      StepWrites(cfg, w, start, s, paths[0], k);
      if s.backupDone {
        FlagStays(cfg, w, s, paths[0], HostFiles(cfg, start.host), Manifest(cfg, start.sandbox));
      }
      SettleWrites(cfg, w, start, t, paths[1..], k);
    }
  }

  /** Of the files no side syncs, a pass writes on the host only siblings of paths whose two sides
      differ, and copies of a backup not yet taken, outside git, that does not fail. */
  lemma PassWritesOnly(cfg: Config, w: Weather, s: State, k: Path)
    requires cfg.denied(k) && Lookup(Pass(cfg, w, s).0.host, k) != Lookup(s.host, k)
    ensures MayWrite(cfg, w, s, k)
  {
    if !MayWrite(cfg, w, s, k) {
      SettleWrites(cfg, w, s, s, SortedSet(KnownPaths(cfg, s)), k);
    }
  }

  /** The upload that seeds the merge base, path by path. */
  lemma CopyInExactly(cfg: Config, s: State, done: set<Path>, p: Path)
    ensures var t := CopyIn(cfg, s, done);
            At(t, p) ==
              if p in done && p in s.host && !cfg.denied(p) && !cfg.ignored(p)
              then View(Some(s.host[p]), Some(s.host[p]), Some(cfg.sha(s.host[p])), p in s.tombstone,
                        Lookup(s.lastConflict, p))
              else At(s, p)
    ensures CopyIn(cfg, s, done).host == s.host && CopyIn(cfg, s, done).backupDone == s.backupDone
  {
  }

  // ---------------------------------------------------------------------------
  // A tombstone beside a merge base
  // ---------------------------------------------------------------------------

  /** A tombstoned path on one side only is left alone by every pass, complete or aborted: no
      side, no record of it changes, its merge base included. */
  lemma TombstonedIsLeftAlone(cfg: Config, w: Weather, s: State, p: Path)
    requires cfg.GuardsArtifacts() && !cfg.HostSkips(p) && p in s.tombstone && OnOneSide(s, p)
    ensures At(Pass(cfg, w, s).0, p) == At(s, p)
  {
    PassAt(cfg, w, s, p);
    SettledLeaves(cfg, p, At(s, p));
  }

  lemma SettledLeaves(cfg: Config, p: Path, v: View)
    requires !cfg.ignored(p) && v.tombstoned && v.host.Some? != v.sandbox.Some?
    ensures Settled(cfg, p, v) == v
  {
  }

  lemma EventLeavesRecords(cfg: Config, s: State, e: Event, p: Path, missingOnHost: bool)
    requires cfg.GuardsArtifacts() && !cfg.HostSkips(p) && p in s.tombstone && Gap(At(s, p), missingOnHost)
    requires LeavesGap([e], p, missingOnHost)
    ensures p in Next(cfg, s, e).tombstone && Lookup(Next(cfg, s, e).base, p) == Lookup(s.base, p)
  {
    assert [e][0] == e;
    if e.Reconcile? {
      TombstonedIsLeftAlone(cfg, e.weather, s, p);
      assert At(Next(cfg, s, e), p) == At(s, p);
    }
  }

  lemma {:induction false} RecordsWait(cfg: Config, s: State, es: seq<Event>, p: Path, missingOnHost: bool)
    requires cfg.GuardsArtifacts() && !cfg.HostSkips(p) && p in s.tombstone && Gap(At(s, p), missingOnHost)
    requires LeavesGap(es, p, missingOnHost) && KeepsCopy(cfg, s, es, p, !missingOnHost)
    ensures Gap(At(Run(cfg, s, es), p), missingOnHost)
    ensures p in Run(cfg, s, es).tombstone && Lookup(Run(cfg, s, es).base, p) == Lookup(s.base, p)
    decreases |es|
  {
    GapRun(cfg, s, es, p, missingOnHost);
    if es == [] {
    } else {
      var n := |es| - 1;
      KeepsCopyPrefix(cfg, s, es, p, !missingOnHost);
      RecordsWait(cfg, s, es[..n], p, missingOnHost);
      EventLeavesRecords(cfg, Run(cfg, s, es[..n]), es[n], p, missingOnHost);
    }
  }

  /** The last copy of a path is deleted. */
  function Gone(s: State, p: Path): State {
    s.(host := s.host - {p}, sandbox := s.sandbox - {p})
  }

  /** Nothing is known of the path. */
  ghost predicate Forgotten(s: State, p: Path) {
    p !in s.host && p !in s.sandbox && p !in s.base && p !in s.tombstone
  }

  /** A path tombstoned beside a merge base, missing on one side through any run, and then gone
      from both: the next completed pass forgets it. */
  lemma {:induction false} GoneIsForgotten(cfg: Config, s: State, es: seq<Event>, p: Path, w: Weather)
    requires cfg.GuardsArtifacts() && CollisionFree(cfg.sha) && !cfg.HostSkips(p)
    requires p in s.tombstone && p in s.base && OnOneSide(s, p)
    requires LeavesGap(es, p, p !in s.host) && KeepsCopy(cfg, s, es, p, p in s.host)
    requires Pass(cfg, w, Gone(Run(cfg, s, es), p)).1
    ensures Forgotten(Pass(cfg, w, Gone(Run(cfg, s, es), p)).0, p)
  {
    RecordsWait(cfg, s, es, p, p !in s.host);
    var gone := Gone(Run(cfg, s, es), p);
    PassTable(cfg, w, gone, p);
    assert At(Pass(cfg, w, gone).0, p) == View(None, None, None, false, At(gone, p).recorded);
  }

  /** A file newly made on the host where nothing is known crosses over with a completed pass. */
  lemma NewFileCrosses(cfg: Config, w: Weather, s: State, p: Path, c: Content)
    requires cfg.GuardsArtifacts() && CollisionFree(cfg.sha) && !cfg.HostSkips(p)
    requires Forgotten(s, p) && Pass(cfg, w, Next(cfg, s, HostWrite(p, c))).1
    ensures var t := Pass(cfg, w, Next(cfg, s, HostWrite(p, c))).0;
            Both(t, p, c) && Lookup(t.base, p) == Some(cfg.sha(c))
  {
    PassTable(cfg, w, Next(cfg, s, HostWrite(p, c)), p);
    assert At(Next(cfg, s, HostWrite(p, c)), p) == View(Some(c), None, None, false, Lookup(s.lastConflict, p));
  }
}
