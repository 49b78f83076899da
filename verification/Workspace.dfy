/**
  The sync engine itself: an object that edits two file trees and its own records in place.
  Every method is proved to compute the function of Sync.dfy that the run theorems are about.
 */
module Workspace {
  import opened Prelude
  import opened Sorting
  import opened Sync

  /** A directory of files that others edit too. */
  class Tree {
    var files: map<Path, Content>

    constructor (files: map<Path, Content>)
      ensures this.files == files
    {
      this.files := files;
    }
  }

  lemma UnionOne<K, V>(m: map<K, V>, n: map<K, V>, k: K, v: V)
    ensures m + n[k := v] == (m + n)[k := v]
  {
  }

  /** The state part way through the copy-in. */
  ghost function PartialCopyIn(cfg: Config, s: State, pending: set<Path>): State {
    CopyIn(cfg, s, HostFiles(cfg, s.host).Keys - pending)
  }

  lemma NothingCopied(cfg: Config, s: State)
    ensures PartialCopyIn(cfg, s, HostFiles(cfg, s.host).Keys) == s
  {
    var t := PartialCopyIn(cfg, s, HostFiles(cfg, s.host).Keys);
    assert t.sandbox == s.sandbox && t.base == s.base;
  }

  lemma OneMoreUpload(cfg: Config, s: State, pending: set<Path>, p: Path)
    requires pending <= HostFiles(cfg, s.host).Keys && p in pending
    ensures p in s.host
    ensures var t := PartialCopyIn(cfg, s, pending);
            PartialCopyIn(cfg, s, pending - {p}) ==
              t.(sandbox := t.sandbox[p := s.host[p]], base := t.base[p := HostFiles(cfg, s.host)[p]])
  {
    var all := HostFiles(cfg, s.host).Keys;
    var files := all * (all - pending);
    assert all * (all - (pending - {p})) == files + {p};
    assert Contents(s.host, files + {p}) == Contents(s.host, files)[p := s.host[p]];
    assert Digests(cfg, s.host, files + {p}) == Digests(cfg, s.host, files)[p := cfg.sha(s.host[p])];
    UnionOne(s.sandbox, Contents(s.host, files), p, s.host[p]);
    UnionOne(s.base, Digests(cfg, s.host, files), p, cfg.sha(s.host[p]));
  }

  /** The host part way through a backup. */
  ghost function PartialBackup(cfg: Config, stamp: Stamp, host: map<Path, Content>,
                               pending: set<Path>): map<Path, Content>
  {
    host + CopiesOf(stamp, host, HostFiles(cfg, host).Keys - pending)
  }

  lemma AllPending(cfg: Config, stamp: Stamp, host: map<Path, Content>)
    ensures PartialBackup(cfg, stamp, host, HostFiles(cfg, host).Keys) == host
  {
    var files := HostFiles(cfg, host).Keys;
    assert files - files == {};
  }

  lemma NonePending(cfg: Config, stamp: Stamp, host: map<Path, Content>)
    ensures PartialBackup(cfg, stamp, host, {}) == host + BackupOf(cfg, stamp, host)
  {
    var files := HostFiles(cfg, host).Keys;
    assert files - {} == files;
  }

  /** A copy written below the backup directory disturbs no file still to be copied. */
  lemma OneMoreCopy(cfg: Config, stamp: Stamp, host: map<Path, Content>, pending: set<Path>, p: Path)
    requires cfg.GuardsArtifacts() && pending <= HostFiles(cfg, host).Keys && p in pending
    ensures var sofar := PartialBackup(cfg, stamp, host, pending);
            && p in sofar && sofar[p] == host[p]
            && sofar[BackupPath(stamp, p) := host[p]] == PartialBackup(cfg, stamp, host, pending - {p})
  {
    var done := HostFiles(cfg, host).Keys - pending;
    OriginalOfBackup(stamp);
    assert forall q :: q in done ==> BackupPath(stamp, q) != p;
    assert HostFiles(cfg, host).Keys - (pending - {p}) == done + {p};
    assert CopiesOf(stamp, host, done + {p}) == CopiesOf(stamp, host, done)[BackupPath(stamp, p) := host[p]];
    UnionOne(host, CopiesOf(stamp, host, done), BackupPath(stamp, p), host[p]);
  }

  /** One more copy takes `before`, the host with `p` still to be copied, to `after`. */
  ghost predicate Copies(stamp: Stamp, start: map<Path, Content>, p: Path, before: map<Path, Content>,
                         after: map<Path, Content>)
  {
    p in start && p in before && before[p] == start[p] && after == before[BackupPath(stamp, p) := start[p]]
  }

  /** The host at every stage of a backup, by what is still to be copied. */
  lemma BackupStages(cfg: Config, stamp: Stamp, host: map<Path, Content>)
    returns (stage: set<Path> -> map<Path, Content>)
    requires cfg.GuardsArtifacts()
    ensures stage(HostFiles(cfg, host).Keys) == host && stage({}) == host + BackupOf(cfg, stamp, host)
    ensures forall pending, p :: pending <= HostFiles(cfg, host).Keys && p in pending ==>
              Copies(stamp, host, p, stage(pending), stage(pending - {p}))
  {
    stage := (pending: set<Path>) => PartialBackup(cfg, stamp, host, pending);
    AllPending(cfg, stamp, host);
    NonePending(cfg, stamp, host);
    forall pending, p | pending <= HostFiles(cfg, host).Keys && p in pending
      ensures Copies(stamp, host, p, stage(pending), stage(pending - {p}))
    {
      OneMoreCopy(cfg, stamp, host, pending, p);
    }
  }

  class SyncEngine {
    const cfg: Config
    const host: Tree
    const sandbox: Tree
    var base: map<Path, Digest>
    var tombstone: set<Path>
    var lastConflict: map<Path, Digest>
    var backupDone: bool

    ghost predicate Valid() {
      host != sandbox && cfg.GuardsArtifacts()
    }

    ghost function View(): State
      reads this, host, sandbox
    {
      State(host.files, sandbox.files, base, tombstone, lastConflict, backupDone)
    }

    constructor (cfg: Config, host: Tree, sandbox: Tree)
      requires host != sandbox && cfg.GuardsArtifacts()
      ensures Valid() && this.cfg == cfg && this.host == host && this.sandbox == sandbox
      ensures View() == State(host.files, sandbox.files, map[], {}, map[], false)
    {
      this.cfg, this.host, this.sandbox := cfg, host, sandbox;
      base, tombstone, lastConflict, backupDone := map[], {}, map[], false;
    }

    /** Upload every visible host file, in whatever order the map yields them; stop at the
        first upload that fails. */
    method InitialCopyIn(cut: set<Path>) returns (ok: bool, ghost done: set<Path>)
      requires Valid()
      modifies this`base, sandbox
      ensures View() == CopyIn(cfg, old(View()), done)
      ensures done <= HostFiles(cfg, host.files).Keys && done !! cut
      ensures ok <==> HostFiles(cfg, host.files).Keys !! cut
      ensures ok ==> done == HostFiles(cfg, host.files).Keys
    {
      var files := HostFiles(cfg, host.files);
      var pending := files.Keys;
      ghost var start := View();
      NothingCopied(cfg, start);
      ghost var reached := start;
      while pending != {}
        invariant pending <= files.Keys && reached == PartialCopyIn(cfg, start, pending)
        invariant sandbox.files == reached.sandbox && base == reached.base
        invariant (files.Keys - pending) !! cut
        decreases |pending|
      {
        var rel :| rel in pending;
        if rel in cut {
          done := files.Keys - pending;
          return false, done;
        }
        OneMoreUpload(cfg, start, pending, rel);
        sandbox.files := sandbox.files[rel := host.files[rel]];
        base := base[rel := files[rel]];
        pending := pending - {rel};
        reached := PartialCopyIn(cfg, start, pending);
      }
      ok, done := true, files.Keys - pending;
    }

    /** Copy every visible host file below the backup directory. */
    method CopyAside(stamp: Stamp)
      requires Valid()
      modifies host
      ensures host.files == old(host.files) + BackupOf(cfg, stamp, old(host.files))
    {
      var pending := HostFiles(cfg, host.files).Keys;
      ghost var start, files := host.files, pending;
      ghost var stage := BackupStages(cfg, stamp, start);
      while pending != {}
        invariant pending <= files && host.files == stage(pending)
        decreases |pending|
      {
        var rel :| rel in pending;
        assert Copies(stamp, start, rel, stage(pending), stage(pending - {rel}));
        host.files := host.files[BackupPath(stamp, rel) := host.files[rel]];
        pending := pending - {rel};
      }
    }

    /** The safety snapshot before the first write to the host, attempted once. */
    method EnsureBackup(w: Weather) returns (ok: bool)
      requires Valid()
      modifies this`backupDone, host
      ensures (View(), ok) == Sync.EnsureBackup(cfg, w, old(View()))
    {
      if backupDone {
        return true;
      }
      backupDone := true;
      if w.git {
        return true;
      }
      if w.backupFails {
        return false;
      }
      CopyAside(w.stamp);
      ok := true;
    }

    method Push(w: Weather, rel: Path, snapshot: map<Path, Digest>) returns (ok: bool)
      requires Valid() && rel in snapshot
      modifies this, sandbox
      ensures (View(), ok) == DoPush(cfg, w, old(View()), rel, snapshot)
    {
      if rel !in host.files || rel in w.cut {
        return false;
      }
      sandbox.files := sandbox.files[rel := host.files[rel]];
      base := base[rel := snapshot[rel]];
      tombstone := tombstone - {rel};
      ok := true;
    }

    method Pull(w: Weather, rel: Path) returns (ok: bool)
      requires Valid()
      modifies this, host
      ensures (View(), ok) == DoPull(cfg, w, old(View()), rel)
    {
      if rel !in sandbox.files || rel in w.cut {
        return false;
      }
      var content := sandbox.files[rel];
      ok := EnsureBackup(w);
      if !ok || rel in w.unwritable {
        return false;
      }
      host.files := host.files[rel := content];
      base := base[rel := cfg.sha(content)];
      tombstone := tombstone - {rel};
    }

    method Conflict(w: Weather, rel: Path, sandboxHash: Digest) returns (ok: bool)
      requires Valid()
      modifies this, host
      ensures (View(), ok) == DoConflict(cfg, w, old(View()), rel, sandboxHash)
    {
      if rel in lastConflict && lastConflict[rel] == sandboxHash {
        return true;
      }
      if rel !in sandbox.files || rel in w.cut {
        return false;
      }
      var content := sandbox.files[rel];
      ok := EnsureBackup(w);
      if !ok || SiblingOf(rel) in w.unwritable {
        return false;
      }
      host.files := host.files[SiblingOf(rel) := content];
      lastConflict := lastConflict[rel := sandboxHash];
    }

    method ReconcileOne(w: Weather, rel: Path, hostFiles: map<Path, Digest>, manifest: map<Path, Digest>)
      returns (ok: bool)
      requires Valid()
      modifies this, host, sandbox
      ensures (View(), ok) == Sync.ReconcileOne(cfg, w, old(View()), rel, hostFiles, manifest)
    {
      var onHost, onSandbox, hadBase := rel in hostFiles, rel in manifest, rel in base;
      ok := true;
      if onHost && onSandbox {
        if hostFiles[rel] == manifest[rel] {
          base := base[rel := hostFiles[rel]];
          return;
        }
        var hostChanged := !hadBase || hostFiles[rel] != base[rel];
        var sandboxChanged := !hadBase || manifest[rel] != base[rel];
        if hostChanged && !sandboxChanged {
          ok := Push(w, rel, hostFiles);
        } else if sandboxChanged && !hostChanged {
          ok := Pull(w, rel);
        } else {
          ok := Conflict(w, rel, manifest[rel]);
        }
      } else if onHost || onSandbox {
        if rel in tombstone {
          return;
        }
        if hadBase {
          tombstone := tombstone + {rel};
          base := base - {rel};
          return;
        }
        if onHost {
          ok := Push(w, rel, hostFiles);
        } else {
          ok := Pull(w, rel);
        }
      } else {
        base := base - {rel};
        tombstone := tombstone - {rel};
      }
    }

    /** One bidirectional pass: snapshot both sides, then settle every known path in order. */
    method Reconcile(w: Weather) returns (ok: bool)
      requires Valid()
      modifies this, host, sandbox
      ensures (View(), ok) == Pass(cfg, w, old(View()))
    {
      var hostFiles := HostFiles(cfg, host.files);
      var manifest := Manifest(cfg, sandbox.files);
      var rels := SortedKeys(hostFiles.Keys + manifest.Keys + base.Keys);
      var i := 0;
      assert rels[0..] == rels;
      while i < |rels|
        invariant 0 <= i <= |rels|
        invariant Settle(cfg, w, View(), rels[i..], hostFiles, manifest) == Pass(cfg, w, old(View()))
      {
        ok := ReconcileOne(w, rels[i], hostFiles, manifest);
        if !ok {
          return;
        }
        assert rels[i..][1..] == rels[i + 1..];
        i := i + 1;
      }
      ok := true;
    }
  }
}
