/**
  The shared deny-list, as far as the sync engine's own files are concerned: the assumption the
  sync theorems make of it holds of the list the repository ships.
 */
module Exclusion {
  import opened Prelude
  import opened Sync

  /** The segments of a slash-separated path. */
  function Split(p: string): (segs: seq<string>)
    ensures segs != []
  {
    if p == [] then [[]] else Attach(p[0], Split(p[1..]))
  }

  /** One more character in front. */
  function Attach(c: char, segs: seq<string>): (r: seq<string>)
    requires segs != []
    ensures r != []
  {
    if c == '/' then [[]] + segs else [[c] + segs[0]] + segs[1..]
  }

  /** The last segment made longer. */
  function Longer(segs: seq<string>, suffix: string): seq<string>
    requires segs != []
  {
    segs[..|segs|-1] + [segs[|segs|-1] + suffix]
  }

  /** One segment of a path being cleaned. */
  function Push(stack: seq<string>, seg: string): seq<string> {
    if seg == "" || seg == "." then stack
    else if seg != ".." then stack + [seg]
    else if stack != [] && stack[|stack|-1] != ".." then stack[..|stack|-1]
    else stack + [".."]
  }

  function Clean(stack: seq<string>, segs: seq<string>): seq<string>
    decreases |segs|
  {
    if segs == [] then stack else Clean(Push(stack, segs[0]), segs[1..])
  }

  function Segments(p: string): seq<string> { Clean([], Split(p)) }

  /** Not a path below the root. */
  predicate Escapes(p: string) {
    (p != [] && p[0] == '/') || Segments(p) == [] || Segments(p)[0] == ".."
  }

  predicate HasPrefix(s: string, prefix: string) { prefix <= s }

  predicate HasSuffix(s: string, suffix: string) {
    |suffix| <= |s| && s[|s|-|suffix|..] == suffix
  }

  /** A segment only the engine's own files have. */
  predicate OwnSegment(seg: string) {
    HasPrefix(seg, ".opslify-backup") || HasSuffix(seg, CONFLICT_SUFFIX)
  }

  /** The deny-list. `secret` stands for its credential names: other denied segments, globs on the
      last segment, and the entropy test. */
  predicate Excluded(secret: seq<string> -> bool, p: string) {
    Escapes(p) || (exists i :: 0 <= i < |Segments(p)| && OwnSegment(Segments(p)[i])) || secret(Segments(p))
  }

  predicate NoSlash(s: string) {
    forall i :: 0 <= i < |s| ==> s[i] != '/'
  }

  lemma {:induction false} SplitBelow(dir: string, p: string)
    requires NoSlash(dir)
    ensures Split(dir + "/" + p) == [dir] + Split(p)
    decreases |dir|
  {
    var all := dir + "/" + p;
    if dir == [] {
      assert all[1..] == p;
    } else {
      assert all[1..] == dir[1..] + "/" + p;
      SplitBelow(dir[1..], p);
      assert [dir[0]] + dir[1..] == dir;
      assert ([dir[1..]] + Split(p))[1..] == Split(p);
    }
  }

  lemma AttachLonger(c: char, segs: seq<string>, suffix: string)
    requires segs != []
    ensures Attach(c, Longer(segs, suffix)) == Longer(Attach(c, segs), suffix)
  {
    if c != '/' && |segs| == 1 {
      assert [c] + (segs[0] + suffix) == [c] + segs[0] + suffix;
    }
  }

  /** A suffix without a slash lengthens the last segment. */
  lemma {:induction false} SplitSuffix(p: string, suffix: string)
    requires NoSlash(suffix)
    ensures Split(p + suffix) == Longer(Split(p), suffix)
    decreases |p|
  {
    if p == [] {
      assert p + suffix == suffix && [] + suffix == suffix;
      SplitWhole(suffix);
    } else {
      assert (p + suffix)[1..] == p[1..] + suffix;
      SplitSuffix(p[1..], suffix);
      AttachLonger(p[0], Split(p[1..]), suffix);
    }
  }

  lemma {:induction false} SplitWhole(s: string)
    requires NoSlash(s)
    ensures Split(s) == [s]
  {
    if s == [] {
    } else {
      SplitWhole(s[1..]);
      assert [s[0]] + s[1..] == s;
    }
  }

  lemma {:induction false} CleanSnoc(stack: seq<string>, segs: seq<string>, seg: string)
    ensures Clean(stack, segs + [seg]) == Push(Clean(stack, segs), seg)
    decreases |segs|
  {
    if segs == [] {
      assert segs + [seg] == [seg];
    } else {
      assert (segs + [seg])[1..] == segs[1..] + [seg];
      CleanSnoc(Push(stack, segs[0]), segs[1..], seg);
    }
  }

  lemma {:induction false} SplitSnoc(p: string, seg: string)
    requires NoSlash(seg)
    ensures Split(p + "/" + seg) == Split(p) + [seg]
    decreases |p|
  {
    if p == [] {
      SplitBelow("", seg);
      SplitWhole(seg);
    } else {
      assert (p + "/" + seg)[1..] == p[1..] + "/" + seg;
      SplitSnoc(p[1..], seg);
      AttachSnoc(p[0], Split(p[1..]), seg);
    }
  }

  lemma AttachSnoc(c: char, segs: seq<string>, seg: string)
    requires segs != []
    ensures Attach(c, segs + [seg]) == Attach(c, segs) + [seg]
  {
  }

  /** Cleaning, one segment after another: empty ones and dots go, two dots take back the segment
      before them unless there is none or it could not be taken back either, and any other stays. */
  lemma SegmentsExactly(p: string, seg: string)
    requires NoSlash(seg)
    ensures Segments("") == []
    ensures seg == "" || seg == "." ==> Segments(p + "/" + seg) == Segments(p) && Segments(seg) == []
    ensures seg == ".." ==>
              var before := Segments(p);
              && Segments(seg) == [".."]
              && (before == [] || before[|before|-1] == ".." ==> Segments(p + "/" + seg) == before + [".."])
              && (before != [] && before[|before|-1] != ".." ==> Segments(p + "/" + seg) == before[..|before|-1])
    ensures seg != "" && seg != "." && seg != ".." ==>
              Segments(p + "/" + seg) == Segments(p) + [seg] && Segments(seg) == [seg]
  {
    SplitSnoc(p, seg);
    CleanSnoc([], Split(p), seg);
    SplitWhole(seg);
    CleanSnoc([], [], seg);
    assert [] + [seg] == [seg];
    SplitWhole("");
    CleanSnoc([], [], "");
    assert [] + [""] == [""];
  }

  /** What the deny-list denies besides credential names: absolute paths, the root, whatever climbs
      out of it, and whatever has the engine's own mark on some segment. */
  lemma ExcludedExactly(secret: seq<string> -> bool, p: string)
    ensures Excluded(secret, p) <==>
              || secret(Segments(p)) || "/" <= p || Segments(p) == [] || Segments(p)[0] == ".."
              || exists i :: 0 <= i < |Segments(p)| && Marked(Segments(p)[i])
  {
    assert "/" <= p <==> p != [] && p[0] == '/';
    forall i | 0 <= i < |Segments(p)| ensures OwnSegment(Segments(p)[i]) <==> Marked(Segments(p)[i]) {
      MarkedExactly(Segments(p)[i]);
    }
  }

  ghost predicate Marked(seg: string) {
    ".opslify-backup" <= seg || exists front :: seg == front + ".opslify-conflict"
  }

  lemma MarkedExactly(seg: string)
    ensures OwnSegment(seg) <==> Marked(seg)
  {
    var n := |CONFLICT_SUFFIX|;
    if HasSuffix(seg, CONFLICT_SUFFIX) {
      assert seg == seg[..|seg|-n] + ".opslify-conflict";
    }
    if front :| seg == front + ".opslify-conflict" {
      assert seg[|seg|-n..] == CONFLICT_SUFFIX;
    }
  }

  /** A path that has climbed out of its root stays out. */
  lemma {:induction false} StaysOut(stack: seq<string>, segs: seq<string>)
    requires stack != [] && stack[0] == ".."
    ensures Clean(stack, segs) != [] && Clean(stack, segs)[0] == ".."
    decreases |segs|
  {
    if segs == [] {
    } else {
      StaysOut(Push(stack, segs[0]), segs[1..]);
    }
  }

  /** Below a directory a path that does not climb out of its root stays below that directory. */
  lemma {:induction false} CleanBelow(dir: string, stack: seq<string>, segs: seq<string>)
    requires dir != ".." && (stack != [] ==> stack[0] != "..")
    requires Clean(stack, segs) != [] ==> Clean(stack, segs)[0] != ".."
    ensures Clean([dir] + stack, segs) == [dir] + Clean(stack, segs)
    decreases |segs|
  {
    if segs == [] {
    } else if stack == [] && segs[0] == ".." {
      assert Push([], "..") == [".."];
      StaysOut([".."], segs[1..]);
      assert false;
    } else {
      assert Push([dir] + stack, segs[0]) == [dir] + Push(stack, segs[0]);
      CleanBelow(dir, Push(stack, segs[0]), segs[1..]);
    }
  }

  lemma SiblingExcluded(secret: seq<string> -> bool, p: string)
    ensures Excluded(secret, SiblingOf(p))
  {
    var segs, n := Split(p), |Split(p)| - 1;
    var last := segs[n] + CONFLICT_SUFFIX;
    SplitSuffix(p, CONFLICT_SUFFIX);
    CleanSnoc([], segs[..n], last);
    assert |last| > 2;
    assert Segments(SiblingOf(p)) == Clean([], segs[..n]) + [last];
    assert HasSuffix(last, CONFLICT_SUFFIX);
    assert OwnSegment(Segments(SiblingOf(p))[|Clean([], segs[..n])|]);
  }

  lemma BackupExcluded(secret: seq<string> -> bool, stamp: Stamp, p: string)
    requires !Excluded(secret, p)
    ensures Excluded(secret, BackupPath(stamp, p))
  {
    var dir := BACKUP_PREFIX + stamp;
    assert NoSlash(BACKUP_PREFIX);
    SplitBelow(dir, p);
    assert |dir| > 2;
    assert Push([], dir) == [dir];
    assert ([dir] + Split(p))[1..] == Split(p);
    CleanBelow(dir, [], Split(p));
    assert [dir] + [] == [dir];
    assert Segments(BackupPath(stamp, p))[0] == dir;
    assert HasPrefix(dir, ".opslify-backup");
  }

  /** The shipped deny-list guards the engine's own files: every conflict sibling, and every
      backup copy of a path it lets through, whatever else it denies. */
  lemma DenyListGuards(cfg: Config, secret: seq<string> -> bool)
    requires forall p :: cfg.denied(p) == Excluded(secret, p)
    ensures cfg.GuardsArtifacts()
  {
    forall p ensures cfg.denied(SiblingOf(p)) {
      SiblingExcluded(secret, p);
    }
    forall stamp: Stamp, p | !cfg.denied(p) ensures cfg.denied(BackupPath(stamp, p)) {
      BackupExcluded(secret, stamp, p);
    }
  }
}
