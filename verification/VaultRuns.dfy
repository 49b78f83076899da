/**
  The vault over whole runs, with disks and random sources that fail at will.
 */
module VaultRuns {
  import opened Prelude
  import opened VaultModel

  datatype Event = Event(call: Call, env: Env)

  function Run(cfg: Config, s: State, es: seq<Event>): State
    decreases |es|
  {
    if es == [] then s
    else
      var last := es[|es|-1];
      Perform(cfg, Run(cfg, s, es[..|es|-1]), last.call, last.env).0
  }

  /** A vault over an existing file: nothing flushed yet in this process. */
  function OpenedVault(kek: Bytes, disk: map<string, Record>): State {
    State(kek, disk, map[], disk)
  }

  function MapRun(cfg: Config, m: map<string, Entry>, es: seq<Event>): map<string, Entry>
    decreases |es|
  {
    if es == [] then m
    else
      var last := es[|es|-1];
      MapPerform(cfg, MapRun(cfg, m, es[..|es|-1]), last.call, last.env)
  }

  function Contents(cfg: Config, s: State): map<string, Entry> {
    Abs(cfg, s.kek, s.secrets)
  }

  function DiskContents(cfg: Config, s: State): map<string, Entry> {
    Abs(cfg, s.kek, s.disk)
  }

  /** Over any run the vault holds what a plain map would. */
  lemma {:induction false} RunRefines(cfg: Config, s: State, es: seq<Event>)
    requires cfg.aead.Lawful() && |s.kek| == KEY_LENGTH
    ensures |Run(cfg, s, es).kek| == KEY_LENGTH
    ensures Contents(cfg, Run(cfg, s, es)) == MapRun(cfg, Contents(cfg, s), es)
    decreases |es|
  {
    if es == [] {
    } else {
      var last := es[|es|-1];
      RunRefines(cfg, s, es[..|es|-1]);
      Refines(cfg, Run(cfg, s, es[..|es|-1]), last.call, last.env);
    }
  }

  // ---------------------------------------------------------------------------
  // What a ref holds, read off the list of calls alone
  // ---------------------------------------------------------------------------

  /** What `r` holds after the calls, if it held `first` before them: nothing, or the value last
      written or found there, which is None for a record that never opened. */
  function LastValue(cfg: Config, first: Option<Entry>, es: seq<Event>, r: string): Option<Option<Bytes>>
    decreases |es|
  {
    if es == [] then (if first.Some? then Some(first.value.plain) else None)
    else
      var before := LastValue(cfg, first, es[..|es|-1], r);
      var last := es[|es|-1];
      if Writes(cfg, last.call, last.env, r, before.Some?) then Some(Some(last.call.value))
      else if last.call == Delete(r) then None
      else before
  }

  /** When `r` came into being: the write that found it absent. */
  function CreationTime(cfg: Config, first: Option<Entry>, es: seq<Event>, r: string): Time
    decreases |es|
  {
    if es == [] then (if first.Some? then first.value.meta.createdAt else 0)
    else
      var before := es[..|es|-1];
      var last := es[|es|-1];
      if LastValue(cfg, first, before, r).None? && Writes(cfg, last.call, last.env, r, false) then last.env.now
      else CreationTime(cfg, first, before, r)
  }

  /** The last non-empty value given for a metadata field since `r` came into being, found by
      looking backwards; "" when the write that created `r` gave none and none came later. */
  function LastStated(cfg: Config, first: Option<Entry>, es: seq<Event>, r: string, field: PutMeta -> string): string
    decreases |es|
  {
    if es == [] then (if first.Some? then field(StatedOf(first.value.meta)) else "")
    else
      var before := es[..|es|-1];
      var last := es[|es|-1];
      var present := LastValue(cfg, first, before, r).Some?;
      if !Writes(cfg, last.call, last.env, r, present) then LastStated(cfg, first, before, r, field)
      else if field(last.call.meta) != "" || !present then field(last.call.meta)
      else LastStated(cfg, first, before, r, field)
  }

  function StatedOf(m: Meta): PutMeta { PutMeta(m.provider, m.scope, m.ttl) }

  ghost predicate Told(cfg: Config, first: Option<Entry>, m: map<string, Entry>, es: seq<Event>, r: string) {
    && (r in m <==> LastValue(cfg, first, es, r).Some?)
    && (r in m ==>
          && Some(m[r].plain) == LastValue(cfg, first, es, r)
          && m[r].meta.createdAt == CreationTime(cfg, first, es, r)
          && m[r].meta.provider == LastStated(cfg, first, es, r, (p: PutMeta) => p.provider)
          && m[r].meta.scope == LastStated(cfg, first, es, r, (p: PutMeta) => p.scope)
          && m[r].meta.ttl == LastStated(cfg, first, es, r, (p: PutMeta) => p.ttl))
  }

  lemma {:induction false} MapTold(cfg: Config, start: map<string, Entry>, es: seq<Event>, r: string)
    ensures Told(cfg, Lookup(start, r), MapRun(cfg, start, es), es, r)
    decreases |es|
  {
    if es == [] {
    } else {
      MapTold(cfg, start, es[..|es|-1], r);
    }
  }

  lemma {:induction false} MapKeyed(cfg: Config, start: map<string, Entry>, es: seq<Event>, r: string)
    requires r in start ==> start[r].meta.ref == r
    ensures r in MapRun(cfg, start, es) ==> MapRun(cfg, start, es)[r].meta.ref == r
    decreases |es|
  {
    if es == [] {
    } else {
      MapKeyed(cfg, start, es[..|es|-1], r);
    }
  }

  /** When the value under `r` was last replaced, if ever since it came into being. */
  function LastRotation(cfg: Config, first: Option<Entry>, es: seq<Event>, r: string): Option<Time>
    decreases |es|
  {
    if es == [] then (if first.Some? then first.value.meta.rotatedAt else None)
    else
      var before := es[..|es|-1];
      var last := es[|es|-1];
      var present := LastValue(cfg, first, before, r).Some?;
      if Writes(cfg, last.call, last.env, r, present) then (if present then Some(last.env.now) else None)
      else LastRotation(cfg, first, before, r)
  }

  /** When `r` was last read, if ever since it came into being. */
  function LastUse(cfg: Config, first: Option<Entry>, es: seq<Event>, r: string): Option<Time>
    decreases |es|
  {
    if es == [] then (if first.Some? then first.value.meta.lastUsed else None)
    else
      var before := es[..|es|-1];
      var last := es[|es|-1];
      var held := LastValue(cfg, first, before, r);
      if last.call == Get(r) && held.Some? && held.value.Some? then Some(last.env.now)
      else if Writes(cfg, last.call, last.env, r, held.Some?) && held.None? then None
      else LastUse(cfg, first, before, r)
  }

  lemma {:induction false} MapStamped(cfg: Config, start: map<string, Entry>, es: seq<Event>, r: string)
    ensures var m, first := MapRun(cfg, start, es), Lookup(start, r);
            r in m ==>
              && m[r].meta.rotatedAt == LastRotation(cfg, first, es, r)
              && m[r].meta.lastUsed == LastUse(cfg, first, es, r)
    decreases |es|
  {
    if es == [] {
    } else {
      MapStamped(cfg, start, es[..|es|-1], r);
      MapTold(cfg, start, es[..|es|-1], r);
    }
  }

  /** What `r` holds in a file as found. */
  function FirstOf(cfg: Config, kek: Bytes, disk: map<string, Record>, r: string): Option<Entry> {
    Lookup(Abs(cfg, kek, disk), r)
  }

  /** The stamps in memory are true: rotated when the value was last replaced, used when it was
      last read, whatever the throttle and the disk did. */
  lemma StampsAreTrue(cfg: Config, kek: Key, disk: map<string, Record>, es: seq<Event>, r: string)
    requires cfg.aead.Lawful() && r in Run(cfg, OpenedVault(kek, disk), es).secrets
    ensures var rec, first := Run(cfg, OpenedVault(kek, disk), es).secrets[r], FirstOf(cfg, kek, disk, r);
            rec.rotatedAt == LastRotation(cfg, first, es, r) && rec.lastUsed == LastUse(cfg, first, es, r)
  {
    var s := OpenedVault(kek, disk);
    RunRefines(cfg, s, es);
    MapStamped(cfg, Contents(cfg, s), es, r);
    assert Contents(cfg, Run(cfg, s, es))[r].meta == MetaOf(Run(cfg, s, es).secrets[r]);
  }

  /** In every run from any file, failed persists and key rotations included: a ref holds
      exactly the value last written and not deleted, or the one found; its creation time is that
      of the write that created it; provider, scope and TTL are the last ones stated, never
      blanked; and a ref found under its own name keeps it. */
  lemma VaultTold(cfg: Config, kek: Key, disk: map<string, Record>, es: seq<Event>, r: string)
    requires cfg.aead.Lawful()
    ensures var m := Contents(cfg, Run(cfg, OpenedVault(kek, disk), es));
            && Told(cfg, FirstOf(cfg, kek, disk, r), m, es, r)
            && ((r in disk ==> disk[r].ref == r) && r in m ==> m[r].meta.ref == r)
  {
    var s := OpenedVault(kek, disk);
    RunRefines(cfg, s, es);
    MapTold(cfg, Contents(cfg, s), es, r);
    if r in disk ==> disk[r].ref == r {
      MapKeyed(cfg, Contents(cfg, s), es, r);
    }
  }

  /** So `Get` answers with the last value written, whatever happened to the disk or the key. */
  lemma GetReturnsLastWrite(cfg: Config, kek: Key, disk: map<string, Record>, es: seq<Event>, r: string, env: Env)
    requires cfg.aead.Lawful()
    ensures var reply := Perform(cfg, Run(cfg, OpenedVault(kek, disk), es), Get(r), env).1;
            var first := FirstOf(cfg, kek, disk, r);
            match LastValue(cfg, first, es, r)
            case None => reply == Refused(NotFound)
            case Some(None) => reply == Refused(CannotOpen)
            case Some(Some(v)) =>
              reply.Opened? && reply.value == v && reply.meta.createdAt == CreationTime(cfg, first, es, r)
  {
    var s := Run(cfg, OpenedVault(kek, disk), es);
    VaultTold(cfg, kek, disk, es, r);
    RunRefines(cfg, OpenedVault(kek, disk), es);
    Refines(cfg, s, Get(r), env);
  }

  // ---------------------------------------------------------------------------
  // The disk
  // ---------------------------------------------------------------------------

  /** Whether a call writes the file. */
  predicate Commits(cfg: Config, s: State, call: Call, env: Env) {
    && env.persistOk
    && match call
       case RotateKey(_) => Perform(cfg, s, call, env).1 == Done
       case Get(ref) => ref in s.secrets && Plain(cfg, s.kek, s.secrets[ref]).Some? && FlushDue(s, ref, env.now)
       case Delete(ref) => ref in s.secrets
       case _ => Writes(cfg, call, env, call.ref, call.ref in s.secrets)
  }

  /** How much of the run has reached the disk: up to the last call that wrote the file. */
  function LastCommit(cfg: Config, s: State, es: seq<Event>): (n: nat)
    ensures n <= |es|
    decreases |es|
  {
    if es == [] then 0
    else
      var before := es[..|es|-1];
      var last := es[|es|-1];
      if Commits(cfg, Run(cfg, s, before), last.call, last.env) then |es| else LastCommit(cfg, s, before)
  }

  lemma StepDisk(cfg: Config, s: State, call: Call, env: Env)
    ensures var t := Perform(cfg, s, call, env).0;
            if Commits(cfg, s, call, env) then t.disk == t.secrets else t.disk == s.disk && t.kek == s.kek
  {
  }

  /** The file always decrypts under the key now in use, to the contents of the vault as they
      were at the last call that wrote it: reopening it after a stop resumes from there. */
  lemma {:induction false} DiskHoldsLastCommit(cfg: Config, kek: Key, disk: map<string, Record>, es: seq<Event>)
    requires cfg.aead.Lawful()
    ensures var s := OpenedVault(kek, disk);
            DiskContents(cfg, Run(cfg, s, es)) == MapRun(cfg, Contents(cfg, s), es[..LastCommit(cfg, s, es)])
    decreases |es|
  {
    var s := OpenedVault(kek, disk);
    if es == [] {
      assert es[..0] == [];
    } else {
      var before, last := es[..|es|-1], es[|es|-1];
      StepDisk(cfg, Run(cfg, s, before), last.call, last.env);
      if Commits(cfg, Run(cfg, s, before), last.call, last.env) {
        assert es[..|es|] == es;
        RunRefines(cfg, s, es);
      } else {
        DiskHoldsLastCommit(cfg, kek, disk, before);
        assert es[..LastCommit(cfg, s, es)] == before[..LastCommit(cfg, s, before)];
      }
    }
  }

  lemma {:induction false} LastValueOpens(cfg: Config, first: Option<Entry>, es: seq<Event>, r: string)
    requires first.Some? ==> first.value.plain.Some?
    ensures LastValue(cfg, first, es, r).Some? ==> LastValue(cfg, first, es, r).value.Some?
    decreases |es|
  {
    if es == [] {
    } else {
      LastValueOpens(cfg, first, es[..|es|-1], r);
    }
  }

  /** From a file found at any start of the daemon: a record that opened when found, or was
      written since, opens on disk under the key now in use, in every run. */
  lemma DiskAlwaysOpens(cfg: Config, kek: Key, disk: map<string, Record>, es: seq<Event>, r: string)
    requires cfg.aead.Lawful() && (r in disk ==> Plain(cfg, kek, disk[r]).Some?)
    ensures var t := Run(cfg, OpenedVault(kek, disk), es);
            r in t.disk ==> Plain(cfg, t.kek, t.disk[r]).Some?
  {
    var s := OpenedVault(kek, disk);
    var t, n := Run(cfg, s, es), LastCommit(cfg, s, es);
    DiskHoldsLastCommit(cfg, kek, disk, es);
    MapTold(cfg, Contents(cfg, s), es[..n], r);
    LastValueOpens(cfg, FirstOf(cfg, kek, disk, r), es[..n], r);
    assert r in t.disk ==> DiskContents(cfg, t)[r].plain == Plain(cfg, t.kek, t.disk[r]);
  }

  // ---------------------------------------------------------------------------
  // The last-used throttle
  // ---------------------------------------------------------------------------

  ghost predicate ClockForward(es: seq<Event>, start: Time) {
    && (forall i :: 0 <= i < |es| ==> start <= es[i].env.now)
    && (forall i, j :: 0 <= i < j < |es| ==> es[i].env.now <= es[j].env.now)
  }

  ghost predicate AllPersist(es: seq<Event>) {
    forall i :: 0 <= i < |es| ==> es[i].env.persistOk
  }

  /** Memory and disk agree on one record but for a last-used stamp that is less than one
      interval ahead of the last flush. */
  ghost predicate Lagging(mem: Record, disk: Record, flushed: Option<Time>, now: Time) {
    && disk == mem.(lastUsed := disk.lastUsed)
    && (mem.rotatedAt.Some? ==> mem.rotatedAt.value <= now)
    && match flushed
       case None => disk.lastUsed == mem.lastUsed
       case Some(f) =>
         && disk.lastUsed.Some? && mem.lastUsed.Some?
         && f <= disk.lastUsed.value && f <= mem.lastUsed.value && f <= now
         && mem.lastUsed.value - f < FLUSH_INTERVAL
         && (mem.rotatedAt.Some? ==> mem.rotatedAt.value <= f)
  }

  ghost predicate Throttled(s: State, now: Time) {
    && s.disk.Keys == s.secrets.Keys
    && forall r :: r in s.secrets ==> Lagging(s.secrets[r], s.disk[r], Lookup(s.flushed, r), now)
  }

  /** A flush marker is recent: the last use is less than an interval past it. */
  ghost predicate Marked(mem: Record, flushed: Option<Time>, now: Time) {
    && (mem.rotatedAt.Some? ==> mem.rotatedAt.value <= now)
    && (flushed.Some? ==>
          && flushed.value <= now && mem.lastUsed.Some?
          && flushed.value <= mem.lastUsed.value < flushed.value + FLUSH_INTERVAL
          && (mem.rotatedAt.Some? ==> mem.rotatedAt.value <= flushed.value))
  }

  /** Every record agrees as soon as the whole file is written. */
  lemma PersistedLags(s: State, now: Time)
    requires s.disk == s.secrets
    requires forall r :: r in s.secrets ==> Marked(s.secrets[r], Lookup(s.flushed, r), now)
    ensures Throttled(s, now)
  {
  }

  lemma ThrottledFacts(s: State, now: Time, r: string)
    requires Throttled(s, now) && r in s.secrets
    ensures Marked(s.secrets[r], Lookup(s.flushed, r), now)
  {
    assert Lagging(s.secrets[r], s.disk[r], Lookup(s.flushed, r), now);
  }

  lemma WriteThrottled(cfg: Config, s: State, ref: string, value: Bytes, meta: PutMeta, env: Env, before: Time)
    requires Throttled(s, before) && before <= env.now && env.persistOk
    ensures Throttled(Write(cfg, s, ref, value, meta, env).0, env.now)
  {
    LaterStill(s, before, env.now);
    if env.DrawsOk() {
      var t := Write(cfg, s, ref, value, meta, env).0;
      forall r | r in t.secrets
        ensures Marked(t.secrets[r], Lookup(t.flushed, r), env.now)
      {
        if r != ref {
          ThrottledFacts(s, before, r);
        }
      }
      PersistedLags(t, env.now);
    }
  }

  lemma LaterStill(s: State, before: Time, now: Time)
    requires Throttled(s, before) && before <= now
    ensures Throttled(s, now)
  {
    forall r | r in s.secrets ensures Lagging(s.secrets[r], s.disk[r], Lookup(s.flushed, r), now) {
      assert Lagging(s.secrets[r], s.disk[r], Lookup(s.flushed, r), before);
    }
  }

  /** A use that reaches the disk. */
  lemma FlushThrottled(s: State, ref: string, rec: Record, now: Time)
    requires Throttled(s, now) && ref in s.secrets && rec == s.secrets[ref].(lastUsed := Some(now))
    ensures var secrets := s.secrets[ref := rec];
            Throttled(State(s.kek, secrets, s.flushed[ref := now], secrets), now)
  {
    var t := State(s.kek, s.secrets[ref := rec], s.flushed[ref := now], s.secrets[ref := rec]);
    forall r | r in t.secrets
      ensures Marked(t.secrets[r], Lookup(t.flushed, r), now)
    {
      ThrottledFacts(s, now, r);
    }
    PersistedLags(t, now);
  }

  /** A use within the interval, which stays in memory. */
  lemma UseThrottled(s: State, ref: string, rec: Record, now: Time)
    requires Throttled(s, now) && ref in s.secrets && rec == s.secrets[ref].(lastUsed := Some(now)) &&
               !FlushDue(s, ref, now)
    ensures Throttled(s.(secrets := s.secrets[ref := rec]), now)
  {
    assert Lagging(s.secrets[ref], s.disk[ref], Lookup(s.flushed, ref), now);
    assert Lagging(rec, s.disk[ref], Lookup(s.flushed, ref), now);
  }

  lemma GetThrottled(cfg: Config, s: State, ref: string, env: Env, before: Time)
    requires Throttled(s, before) && before <= env.now && env.persistOk
    ensures Throttled(GetCall(cfg, s, ref, env).0, env.now)
  {
    LaterStill(s, before, env.now);
    if ref in s.secrets {
      var rec := s.secrets[ref].(lastUsed := Some(env.now));
      if FlushDue(s, ref, env.now) {
        FlushThrottled(s, ref, rec, env.now);
      } else {
        UseThrottled(s, ref, rec, env.now);
      }
    }
  }

  lemma DeleteThrottled(s: State, ref: string, env: Env, before: Time)
    requires Throttled(s, before) && before <= env.now && env.persistOk
    ensures Throttled(DeleteCall(s, ref, env).0, env.now)
  {
    LaterStill(s, before, env.now);
    var t := DeleteCall(s, ref, env).0;
    if ref in s.secrets {
      forall r | r in t.secrets
        ensures Marked(t.secrets[r], Lookup(t.flushed, r), env.now)
      {
        ThrottledFacts(s, before, r);
      }
      PersistedLags(t, env.now);
    }
  }

  lemma RotateThrottled(cfg: Config, s: State, newKek: Bytes, env: Env, before: Time)
    requires Throttled(s, before) && before <= env.now && env.persistOk
    ensures Throttled(RotateCall(cfg, s, newKek, env).0, env.now)
  {
    LaterStill(s, before, env.now);
    var (t, reply) := RotateCall(cfg, s, newKek, env);
    if reply.Done? {
      forall r | r in t.secrets
        ensures Marked(t.secrets[r], Lookup(t.flushed, r), env.now)
      {
        ThrottledFacts(s, before, r);
      }
      PersistedLags(t, env.now);
    }
  }

  lemma ThrottledStep(cfg: Config, s: State, call: Call, env: Env, before: Time)
    requires Throttled(s, before) && before <= env.now && env.persistOk
    ensures Throttled(Perform(cfg, s, call, env).0, env.now)
  {
    LaterStill(s, before, env.now);
    match call
    case Put(ref, value, meta, overwrite) => WriteThrottled(cfg, s, ref, value, meta, env, before);
    case Update(ref, value, meta) => WriteThrottled(cfg, s, ref, value, meta, env, before);
    case Upsert(ref, value, meta) => WriteThrottled(cfg, s, ref, value, meta, env, before);
    case Get(ref) => GetThrottled(cfg, s, ref, env, before);
    case Delete(ref) => DeleteThrottled(s, ref, env, before);
    case RotateKey(newKek) => RotateThrottled(cfg, s, newKek, env, before);
  }

  lemma {:induction false} ThrottledRun(cfg: Config, s: State, es: seq<Event>, start: Time)
    requires Throttled(s, start) && ClockForward(es, start) && AllPersist(es)
    ensures Throttled(Run(cfg, s, es), if es == [] then start else es[|es|-1].env.now)
    decreases |es|
  {
    if es == [] {
    } else {
      var n := |es| - 1;
      ThrottledRun(cfg, s, es[..n], start);
      ThrottledStep(cfg, Run(cfg, s, es[..n]), es[n].call, es[n].env, if n == 0 then start else es[n-1].env.now);
    }
  }

  /** The operator's question after a rotation. */
  predicate UsedSinceRotation(rec: Record) {
    rec.rotatedAt.Some? && rec.lastUsed.Some? && rec.rotatedAt.value <= rec.lastUsed.value
  }

  /** While the disk works and the clock does not go back, the last-used stamp on disk trails the
      one in memory by less than a minute, and the file answers "has this credential been used
      since it was rotated?" as memory does. */
  lemma LastUsedOnDisk(cfg: Config, kek: Bytes, disk: map<string, Record>, es: seq<Event>, start: Time, r: string)
    requires ClockForward(es, start) && AllPersist(es)
    requires forall q :: q in disk && disk[q].rotatedAt.Some? ==> disk[q].rotatedAt.value <= start
    requires r in Run(cfg, OpenedVault(kek, disk), es).secrets
    ensures var t := Run(cfg, OpenedVault(kek, disk), es);
            && r in t.disk
            && (t.secrets[r].lastUsed.Some? ==>
                  t.disk[r].lastUsed.Some? && t.secrets[r].lastUsed.value - t.disk[r].lastUsed.value < 60_000_000_000)
            && UsedSinceRotation(t.disk[r]) == UsedSinceRotation(t.secrets[r])
  {
    ThrottledRun(cfg, OpenedVault(kek, disk), es, start);
    var t := Run(cfg, OpenedVault(kek, disk), es);
    assert Lagging(t.secrets[r], t.disk[r], Lookup(t.flushed, r), if es == [] then start else es[|es|-1].env.now);
  }

  /** When `Get` tried to flush the stamp of `r`, since `r` was last written or deleted. */
  function FlushAttempts(cfg: Config, s: State, es: seq<Event>, r: string): seq<Time>
    decreases |es|
  {
    if es == [] then []
    else
      var before := es[..|es|-1];
      var last := es[|es|-1];
      var t := Run(cfg, s, before);
      if last.call == Get(r) && r in t.secrets && Plain(cfg, t.kek, t.secrets[r]).Some? && FlushDue(t, r, last.env.now)
      then FlushAttempts(cfg, s, before, r) + [last.env.now]
      else if Writes(cfg, last.call, last.env, r, r in t.secrets) || (last.call == Delete(r) && r in t.secrets) then []
      else FlushAttempts(cfg, s, before, r)
  }

  lemma MarkerStep(cfg: Config, s: State, call: Call, env: Env, r: string)
    ensures Lookup(Perform(cfg, s, call, env).0.flushed, r) ==
      if call == Get(r) && r in s.secrets && Plain(cfg, s.kek, s.secrets[r]).Some? && FlushDue(s, r, env.now)
      then Some(env.now)
      else if Writes(cfg, call, env, r, r in s.secrets) || (call == Delete(r) && r in s.secrets) then None
      else Lookup(s.flushed, r)
  {
  }

  lemma {:induction false} FlushMarker(cfg: Config, s: State, es: seq<Event>, r: string)
    requires r !in s.flushed
    ensures var times := FlushAttempts(cfg, s, es, r);
            Lookup(Run(cfg, s, es).flushed, r) == if times == [] then None else Some(times[|times|-1])
    decreases |es|
  {
    if es == [] {
    } else {
      var last := es[|es|-1];
      FlushMarker(cfg, s, es[..|es|-1], r);
      MarkerStep(cfg, Run(cfg, s, es[..|es|-1]), last.call, last.env, r);
    }
  }

  ghost predicate AMinuteApart(times: seq<Time>) {
    forall i :: 0 < i < |times| ==> times[i] - times[i-1] >= 60_000_000_000
  }

  lemma {:induction false} GapsBetweenFlushes(cfg: Config, s: State, es: seq<Event>, r: string)
    requires r !in s.flushed
    ensures AMinuteApart(FlushAttempts(cfg, s, es, r))
    decreases |es|
  {
    if es == [] {
    } else {
      GapsBetweenFlushes(cfg, s, es[..|es|-1], r);
      FlushMarker(cfg, s, es[..|es|-1], r);
    }
  }

  lemma {:induction false} GapsAddUp(times: seq<Time>)
    requires AMinuteApart(times)
    ensures times != [] ==> times[|times|-1] - times[0] >= (|times| - 1) * 60_000_000_000
  {
    if |times| <= 1 {
    } else {
      GapsAddUp(times[..|times|-1]);
    }
  }

  /** Even on a disk that keeps failing, and on any clock, successive attempts to flush one
      ref's stamp are at least a minute apart: n attempts span n-1 minutes. */
  lemma FlushesAreSpaced(cfg: Config, s: State, es: seq<Event>, r: string)
    requires r !in s.flushed
    ensures var times := FlushAttempts(cfg, s, es, r);
            && AMinuteApart(times)
            && (times != [] ==> times[|times|-1] - times[0] >= (|times| - 1) * 60_000_000_000)
  {
    GapsBetweenFlushes(cfg, s, es, r);
    GapsAddUp(FlushAttempts(cfg, s, es, r));
  }
}
