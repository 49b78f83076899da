/**
  The decision logic of the host <-> sandbox sync engine, as functions on values.
  Workspace.dfy holds the class that performs it; SyncRuns.dfy proves what whole runs keep.

  A pass takes a snapshot of both sides and then settles every known path against it.
  Edits by the operator and the agent fall between passes, never inside one.
 */
module Sync {
  import opened Prelude
  import opened Sorting

  type Path = string
  type Content = Bytes

  const CONFLICT_SUFFIX: string := ".opslify-conflict"
  const BACKUP_PREFIX: string := ".opslify-backup-"

  /** The local time a backup is named after, as year, month, day, a dash, and time of day. */
  predicate IsStamp(s: string) {
    |s| == 15 && forall i :: 0 <= i < 15 ==> if i == 8 then s[i] == '-' else '0' <= s[i] <= '9'
  }

  type Stamp = s: string | IsStamp(s) witness "20060102-150405"

  /** `denied` is the shared deny-list, applied on both sides; `ignored` is what the host
      directory's own ignore file adds, applied to the host walk only. */
  datatype Config = Config(sha: Content -> Digest, denied: Path -> bool, ignored: Path -> bool) {
    predicate HostSkips(p: Path) { denied(p) || ignored(p) }

    /** What the deny-list guarantees about the engine's own artifacts. */
    ghost predicate GuardsArtifacts() {
      && (forall p :: denied(SiblingOf(p)))
      && (forall stamp: Stamp, p :: !denied(p) ==> denied(BackupPath(stamp, p)))
    }
  }

  function SiblingOf(p: Path): Path { p + CONFLICT_SUFFIX }

  function BackupPath(stamp: Stamp, p: Path): Path { BACKUP_PREFIX + stamp + "/" + p }

  /** The names a pass writes under. */
  lemma NamesExactly(stamp: string, p: Path)
    ensures SiblingOf(p) == p + ".opslify-conflict"
    ensures IsStamp(stamp) <==>
              |stamp| == 15 && stamp[8] == '-' && forall i :: 0 <= i < 15 && i != 8 ==> stamp[i] in "0123456789"
    ensures IsStamp(stamp) ==> BackupPath(stamp, p) == ".opslify-backup-" + stamp + "/" + p
  {
    forall i | 0 <= i < |stamp| ensures stamp[i] in "0123456789" <==> '0' <= stamp[i] <= '9' {
      Digits(stamp[i]);
    }
  }

  lemma Digits(c: char)
    ensures c in "0123456789" <==> '0' <= c <= '9'
  {
    if '0' <= c <= '9' {
      assert "0123456789"[c as int - '0' as int] == c;
    }
  }

  datatype State = State(
    host: map<Path, Content>,
    sandbox: map<Path, Content>,
    base: map<Path, Digest>,
    tombstone: set<Path>,
    lastConflict: map<Path, Digest>,
    backupDone: bool)

  /** What the surroundings do to one pass: the clock stamp of a backup, whether the host
      directory is a git repository, and which transfers and host writes fail. */
  datatype Weather = Weather(stamp: Stamp, git: bool, cut: set<Path>, unwritable: set<Path>, backupFails: bool)

  function HostFiles(cfg: Config, host: map<Path, Content>): map<Path, Digest> {
    map p | p in host && !cfg.HostSkips(p) :: cfg.sha(host[p])
  }

  function Manifest(cfg: Config, sandbox: map<Path, Content>): map<Path, Digest> {
    map p | p in sandbox && !cfg.denied(p) :: cfg.sha(sandbox[p])
  }

  datatype Action = Converge | Push | Pull | RecordConflict | LeaveAlone | Entomb | Forget

  /** The three-way decision for one path. */
  function Decide(host: Option<Digest>, sandbox: Option<Digest>, base: Option<Digest>, tombstoned: bool): Action {
    match (host, sandbox)
    case (Some(h), Some(b)) =>
      if h == b then Converge
      else
        var hostChanged := base != Some(h);
        var sandboxChanged := base != Some(b);
        if hostChanged && !sandboxChanged then Push
        else if sandboxChanged && !hostChanged then Pull
        else RecordConflict
    case (Some(_), None) => if tombstoned then LeaveAlone else if base.Some? then Entomb else Push
    case (None, Some(_)) => if tombstoned then LeaveAlone else if base.Some? then Entomb else Pull
    case (None, None) => Forget
  }

  /** The path a backup copy was taken from. */
  function OriginalOf(stamp: Stamp, k: Path): Path {
    var n := |BackupPath(stamp, [])|;
    if n <= |k| then k[n..] else k
  }

  lemma OriginalOfBackup(stamp: Stamp)
    ensures forall p :: OriginalOf(stamp, BackupPath(stamp, p)) == p
  {
  }

  /** Copies of the given host files, keyed by where they are copied to. */
  function CopiesOf(stamp: Stamp, host: map<Path, Content>, files: set<Path>): map<Path, Content>
    requires files <= host.Keys
  {
    OriginalOfBackup(stamp);
    var keys := set p | p in files :: BackupPath(stamp, p);
    map k | k in keys :: host[OriginalOf(stamp, k)]
  }

  function BackupOf(cfg: Config, stamp: Stamp, host: map<Path, Content>): map<Path, Content> {
    CopiesOf(stamp, host, HostFiles(cfg, host).Keys)
  }

  /** The one-time snapshot before the first write to the host. The flag is set before the
      snapshot is attempted, so a failed snapshot is not retried. */
  function EnsureBackup(cfg: Config, w: Weather, s: State): (State, bool) {
    if s.backupDone then (s, true)
    else
      var s := s.(backupDone := true);
      if w.git then (s, true)
      else if w.backupFails then (s, false)
      else (s.(host := s.host + BackupOf(cfg, w.stamp, s.host)), true)
  }

  function DoPush(cfg: Config, w: Weather, s: State, p: Path, snapshot: map<Path, Digest>): (State, bool)
    requires p in snapshot
  {
    if p !in s.host || p in w.cut then (s, false)
    else
      (s.(sandbox := s.sandbox[p := s.host[p]], base := s.base[p := snapshot[p]], tombstone := s.tombstone - {p}), true)
  }

  function DoPull(cfg: Config, w: Weather, s: State, p: Path): (State, bool) {
    if p !in s.sandbox || p in w.cut then (s, false)
    else
      var content := s.sandbox[p];
      var (s, ok) := EnsureBackup(cfg, w, s);
      if !ok || p in w.unwritable then (s, false)
      else
        (s.(host := s.host[p := content], base := s.base[p := cfg.sha(content)], tombstone := s.tombstone - {p}), true)
  }

  function DoConflict(cfg: Config, w: Weather, s: State, p: Path, sandboxHash: Digest): (State, bool) {
    if Lookup(s.lastConflict, p) == Some(sandboxHash) then (s, true)
    else if p !in s.sandbox || p in w.cut then (s, false)
    else
      var content := s.sandbox[p];
      var (s, ok) := EnsureBackup(cfg, w, s);
      if !ok || SiblingOf(p) in w.unwritable then (s, false)
      else (s.(host := s.host[SiblingOf(p) := content], lastConflict := s.lastConflict[p := sandboxHash]), true)
  }

  /** One path of a pass, against the snapshots taken when the pass began. */
  function ReconcileOne(cfg: Config, w: Weather, s: State, p: Path,
                        host: map<Path, Digest>, sandbox: map<Path, Digest>): (State, bool)
  {
    match Decide(Lookup(host, p), Lookup(sandbox, p), Lookup(s.base, p), p in s.tombstone)
    case Converge => (s.(base := s.base[p := host[p]]), true)
    case Push => DoPush(cfg, w, s, p, host)
    case Pull => DoPull(cfg, w, s, p)
    case RecordConflict => DoConflict(cfg, w, s, p, sandbox[p])
    case LeaveAlone => (s, true)
    case Entomb => (s.(base := s.base - {p}, tombstone := s.tombstone + {p}), true)
    case Forget => (s.(base := s.base - {p}, tombstone := s.tombstone - {p}), true)
  }

  /** Settle the listed paths in order; the first error ends the pass. */
  function Settle(cfg: Config, w: Weather, s: State, paths: seq<Path>,
                  host: map<Path, Digest>, sandbox: map<Path, Digest>): (State, bool)
    decreases |paths|
  {
    if paths == [] then (s, true)
    else
      var (t, ok) := ReconcileOne(cfg, w, s, paths[0], host, sandbox);
      if ok then Settle(cfg, w, t, paths[1..], host, sandbox) else (t, false)
  }

  function KnownPaths(cfg: Config, s: State): set<Path> {
    HostFiles(cfg, s.host).Keys + Manifest(cfg, s.sandbox).Keys + s.base.Keys
  }

  /** A whole reconcile pass. */
  ghost function Pass(cfg: Config, w: Weather, s: State): (State, bool) {
    Settle(cfg, w, s, SortedSet(KnownPaths(cfg, s)), HostFiles(cfg, s.host), Manifest(cfg, s.sandbox))
  }

  function Contents(tree: map<Path, Content>, files: set<Path>): map<Path, Content>
    requires files <= tree.Keys
  {
    map p | p in files :: tree[p]
  }

  function Digests(cfg: Config, tree: map<Path, Content>, files: set<Path>): map<Path, Digest>
    requires files <= tree.Keys
  {
    map p | p in files :: cfg.sha(tree[p])
  }

  /** The upload that seeds the merge base; `done` are the files it got to. */
  function CopyIn(cfg: Config, s: State, done: set<Path>): State {
    var files := HostFiles(cfg, s.host).Keys * done;
    s.(sandbox := s.sandbox + Contents(s.host, files), base := s.base + Digests(cfg, s.host, files))
  }

  // ---------------------------------------------------------------------------
  // One path at a time
  // ---------------------------------------------------------------------------

  /** Everything a state says about one path. */
  datatype View = View(host: Option<Content>, sandbox: Option<Content>, base: Option<Digest>, tombstoned: bool,
    recorded: Option<Digest>)

  function At(s: State, p: Path): View {
    View(Lookup(s.host, p), Lookup(s.sandbox, p), Lookup(s.base, p), p in s.tombstone, Lookup(s.lastConflict, p))
  }

  function Digested(cfg: Config, c: Option<Content>): Option<Digest> {
    if c.Some? then Some(cfg.sha(c.value)) else None
  }

  /** The decision a pass takes for a path the deny-list lets through. */
  function Decision(cfg: Config, p: Path, v: View): Action {
    Decide(if cfg.ignored(p) then None else Digested(cfg, v.host), Digested(cfg, v.sandbox), v.base, v.tombstoned)
  }

  /** What a completed action leaves at its path. */
  function Settled(cfg: Config, p: Path, v: View): View {
    match Decision(cfg, p, v)
    case Converge => v.(base := Digested(cfg, v.host))
    case Push => v.(sandbox := v.host, base := Digested(cfg, v.host), tombstoned := false)
    case Pull => v.(host := v.sandbox, base := Digested(cfg, v.sandbox), tombstoned := false)
    case RecordConflict => v.(recorded := Digested(cfg, v.sandbox))
    case LeaveAlone => v
    case Entomb => v.(base := None, tombstoned := true)
    case Forget => v.(base := None, tombstoned := false)
  }

  ghost predicate SnapshotAgrees(cfg: Config, s: State, p: Path, host: map<Path, Digest>, sandbox: map<Path, Digest>) {
    && Lookup(host, p) == Lookup(HostFiles(cfg, s.host), p)
    && Lookup(sandbox, p) == Lookup(Manifest(cfg, s.sandbox), p)
  }

  /** A backup writes below its own directory only, which the deny-list covers. */
  lemma BackupMissesPath(cfg: Config, w: Weather, s: State, q: Path)
    requires cfg.GuardsArtifacts() && !cfg.denied(q)
    ensures At(EnsureBackup(cfg, w, s).0, q) == At(s, q)
    ensures EnsureBackup(cfg, w, s).0.sandbox == s.sandbox
  {
  }

  /** A backup never lands on a conflict sibling: a backed-up path does not itself end in the
      sibling suffix, and the suffix holds no slash. */
  lemma BackupIsNotSibling(cfg: Config, stamp: Stamp, p: Path, q: Path)
    requires cfg.GuardsArtifacts() && !cfg.denied(p)
    ensures BackupPath(stamp, p) != SiblingOf(q)
  {
    var n := |CONFLICT_SUFFIX|;
    var b := BackupPath(stamp, p);
    assert b == SiblingOf(q) ==> b[|b| - n..] == CONFLICT_SUFFIX;
    if n <= |p| {
      assert b[|b| - n..] == p[|p| - n..];
      assert p[|p| - n..] == CONFLICT_SUFFIX ==> p == SiblingOf(p[..|p| - n]);
    } else {
      assert b[|b| - n..][n - |p| - 1] == '/';
    }
  }

  lemma PullAt(cfg: Config, w: Weather, s: State, p: Path, q: Path)
    requires cfg.GuardsArtifacts() && !cfg.denied(q)
    ensures var (t, ok) := DoPull(cfg, w, s, p);
            At(t, q) ==
              if ok && p == q
              then At(s, q).(host := At(s, q).sandbox, base := Digested(cfg, At(s, q).sandbox), tombstoned := false)
              else At(s, q)
  {
    BackupMissesPath(cfg, w, s, q);
  }

  lemma ConflictAt(cfg: Config, w: Weather, s: State, p: Path, q: Path, sandboxHash: Digest)
    requires cfg.GuardsArtifacts() && !cfg.denied(q)
    ensures var (t, ok) := DoConflict(cfg, w, s, p, sandboxHash);
            At(t, q) == if ok && p == q then At(s, q).(recorded := Some(sandboxHash)) else At(s, q)
  {
    BackupMissesPath(cfg, w, s, q);
    assert q != SiblingOf(p);
  }

  /** Settling one path leaves every other syncable path as it was. */
  lemma OtherPathsUntouched(cfg: Config, w: Weather, s: State, p: Path, q: Path,
                            host: map<Path, Digest>, sandbox: map<Path, Digest>)
    requires cfg.GuardsArtifacts() && !cfg.denied(q) && p != q
    ensures At(ReconcileOne(cfg, w, s, p, host, sandbox).0, q) == At(s, q)
  {
    match Decide(Lookup(host, p), Lookup(sandbox, p), Lookup(s.base, p), p in s.tombstone)
    case Pull => PullAt(cfg, w, s, p, q);
    case RecordConflict => ConflictAt(cfg, w, s, p, q, sandbox[p]);
    case _ =>
  }

  lemma DecisionAgrees(cfg: Config, s: State, p: Path, host: map<Path, Digest>, sandbox: map<Path, Digest>)
    requires !cfg.denied(p) && SnapshotAgrees(cfg, s, p, host, sandbox)
    ensures Decide(Lookup(host, p), Lookup(sandbox, p), Lookup(s.base, p), p in s.tombstone) ==
              Decision(cfg, p, At(s, p))
  {
  }

  lemma PushAt(cfg: Config, w: Weather, s: State, p: Path, host: map<Path, Digest>)
    requires p in host && Lookup(host, p) == Lookup(HostFiles(cfg, s.host), p)
    ensures var (t, ok) := DoPush(cfg, w, s, p, host);
            At(t, p) ==
              if ok
              then At(s, p).(sandbox := At(s, p).host, base := Digested(cfg, At(s, p).host), tombstoned := false)
              else At(s, p)
  {
  }

  lemma OnePathSettles(cfg: Config, w: Weather, s: State, p: Path, host: map<Path, Digest>, sandbox: map<Path, Digest>)
    requires cfg.GuardsArtifacts() && !cfg.denied(p) && SnapshotAgrees(cfg, s, p, host, sandbox)
    ensures var (t, ok) := ReconcileOne(cfg, w, s, p, host, sandbox);
            At(t, p) == if ok then Settled(cfg, p, At(s, p)) else At(s, p)
  {
    DecisionAgrees(cfg, s, p, host, sandbox);
    match Decision(cfg, p, At(s, p))
    case Push => PushAt(cfg, w, s, p, host);
    case Pull => PullAt(cfg, w, s, p, p);
    case RecordConflict => ConflictAt(cfg, w, s, p, p, sandbox[p]);
    case _ =>
  }

  /** The effect of settling a list of paths, path by path: each listed path is settled once
      against what it held at the start, or, if the pass stopped early, may be untouched. */
  lemma {:induction false} SettleAt(cfg: Config, w: Weather, s: State, paths: seq<Path>, p: Path,
                                    host: map<Path, Digest>, sandbox: map<Path, Digest>)
    requires cfg.GuardsArtifacts() && !cfg.denied(p) && Distinct(paths) && SnapshotAgrees(cfg, s, p, host, sandbox)
    ensures var (t, ok) := Settle(cfg, w, s, paths, host, sandbox);
            && (At(t, p) == At(s, p) || (p in paths && At(t, p) == Settled(cfg, p, At(s, p))))
            && (ok && p in paths ==> At(t, p) == Settled(cfg, p, At(s, p)))
    decreases |paths|
  {
    if paths == [] {
    } else {
      var (t, ok) := ReconcileOne(cfg, w, s, paths[0], host, sandbox);
      if paths[0] == p {
        OnePathSettles(cfg, w, s, p, host, sandbox);
        if ok {
          SettleElsewhere(cfg, w, t, paths[1..], p, host, sandbox);
        }
      } else {
        OtherPathsUntouched(cfg, w, s, paths[0], p, host, sandbox);
        if ok {
          SettleAt(cfg, w, t, paths[1..], p, host, sandbox);
        }
      }
    }
  }

  lemma {:induction false} SettleElsewhere(cfg: Config, w: Weather, s: State, paths: seq<Path>, p: Path,
                                           host: map<Path, Digest>, sandbox: map<Path, Digest>)
    requires cfg.GuardsArtifacts() && !cfg.denied(p) && p !in paths
    ensures At(Settle(cfg, w, s, paths, host, sandbox).0, p) == At(s, p)
    decreases |paths|
  {
    if paths == [] {
    } else {
      OtherPathsUntouched(cfg, w, s, paths[0], p, host, sandbox);
      SettleElsewhere(cfg, w, ReconcileOne(cfg, w, s, paths[0], host, sandbox).0, paths[1..], p, host, sandbox);
    }
  }

  /** A pass settles each syncable path it knows exactly once, independently of the others
      and of the order they are taken in. */
  lemma PassAt(cfg: Config, w: Weather, s: State, p: Path)
    requires cfg.GuardsArtifacts() && !cfg.denied(p)
    ensures var (t, ok) := Pass(cfg, w, s);
            && (At(t, p) == At(s, p) || At(t, p) == Settled(cfg, p, At(s, p)))
            && (p !in KnownPaths(cfg, s) ==> At(t, p) == At(s, p))
            && (ok && p in KnownPaths(cfg, s) ==> At(t, p) == Settled(cfg, p, At(s, p)))
  {
    var paths := SortedSet(KnownPaths(cfg, s));
    assert p in paths <==> p in Elements(paths);
    SettleAt(cfg, w, s, paths, p, HostFiles(cfg, s.host), Manifest(cfg, s.sandbox));
  }
}
