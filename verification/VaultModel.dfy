/**
  The encrypted vault as functions on values: what each call does to the records in memory,
  to the file on disk, and to the master key.

  AES-GCM is any authenticated cipher that opens what it sealed. Persisting either commits
  the whole set of records or fails and leaves the disk as it was; memory is rolled back
  only by a key rotation.
 */
module VaultModel {
  import opened Prelude

  /** Nanoseconds on the daemon's clock. */
  type Time = int

  const KEY_LENGTH: nat := 32
  const FLUSH_INTERVAL: Time := 60_000_000_000

  type Key = k: Bytes | |k| == 32 witness seq(32, _ => 0)

  datatype Aead = Aead(seal: (Bytes, Bytes, Bytes) -> Bytes, open: (Bytes, Bytes) -> Option<Bytes>) {
    ghost predicate Lawful() {
      forall key, nonce, plain :: |key| == KEY_LENGTH ==> open(key, seal(key, nonce, plain)) == Some(plain)
    }
  }

  datatype PutMeta = PutMeta(provider: string, scope: string, ttl: string)

  /** `accepts` stands for the ref rule and the bounds on provider, scope and TTL. */
  datatype Config = Config(aead: Aead, accepts: (string, PutMeta) -> bool)

  /** One stored secret: ciphertext and metadata. `None` is the zero time. */
  datatype Record = Record(ref: string, provider: string, scope: string, ttl: string,
                           createdAt: Time, lastUsed: Option<Time>, rotatedAt: Option<Time>,
                           wrappedDek: Bytes, value: Bytes)

  datatype Meta = Meta(ref: string, provider: string, scope: string, ttl: string,
                       createdAt: Time, lastUsed: Option<Time>, rotatedAt: Option<Time>)

  function MetaOf(rec: Record): Meta {
    Meta(rec.ref, rec.provider, rec.scope, rec.ttl, rec.createdAt, rec.lastUsed, rec.rotatedAt)
  }

  datatype State = State(kek: Bytes, secrets: map<string, Record>, flushed: map<string, Time>,
                         disk: map<string, Record>)

  /** What the surroundings contribute to one call: the time, whether the disk and the random
      source work, and the random bytes drawn. */
  datatype Env = Env(now: Time, persistOk: bool, keyOk: bool, nonceOk: bool,
                     dek: Key, valueNonce: Bytes, wrapNonce: Bytes, nonces: string -> Bytes) {
    /** The draws a write makes, of a data key and of two nonces, all succeed. */
    predicate DrawsOk() { keyOk && nonceOk }
  }

  datatype Error = InvalidInput | Exists | NotFound | CannotOpen | NoRandomness | PersistFailed | RotateFailed

  datatype Reply = Done | Stored(meta: Meta, replaced: bool) | Opened(value: Bytes, meta: Meta) | Refused(error: Error)

  datatype Call =
    | Put(ref: string, value: Bytes, meta: PutMeta, overwrite: bool)
    | Update(ref: string, value: Bytes, meta: PutMeta)
    | Upsert(ref: string, value: Bytes, meta: PutMeta)
    | Get(ref: string)
    | Delete(ref: string)
    | RotateKey(newKek: Bytes)

  predicate ValidPut(cfg: Config, ref: string, value: Bytes, meta: PutMeta) {
    cfg.accepts(ref, meta) && value != []
  }

  /** Write the whole file, or fail and leave it. */
  function Persist(s: State, ok: bool): State {
    if ok then s.(disk := s.secrets) else s
  }

  function Restate(given: string, kept: string): string {
    if given == "" then kept else given
  }

  function NewRecord(cfg: Config, kek: Bytes, ref: string, value: Bytes, meta: PutMeta, env: Env,
                     existing: Option<Record>): Record
  {
    var valueBlob := cfg.aead.seal(env.dek, env.valueNonce, value);
    var wrapped := cfg.aead.seal(kek, env.wrapNonce, env.dek);
    match existing
    case None => Record(ref, meta.provider, meta.scope, meta.ttl, env.now, None, None, wrapped, valueBlob)
    case Some(prior) =>
      Record(ref,
             Restate(meta.provider, prior.provider), Restate(meta.scope, prior.scope), Restate(meta.ttl, prior.ttl),
             prior.createdAt, prior.lastUsed, Some(env.now), wrapped, valueBlob)
  }

  /** Seal and commit a record. The record stays in memory even when it does not reach disk. */
  function Write(cfg: Config, s: State, ref: string, value: Bytes, meta: PutMeta, env: Env): (State, Reply) {
    if !env.DrawsOk() then (s, Refused(NoRandomness))
    else
      var rec := NewRecord(cfg, s.kek, ref, value, meta, env, Lookup(s.secrets, ref));
      var written := s.(secrets := s.secrets[ref := rec], flushed := s.flushed - {ref});
      (Persist(written, env.persistOk), if env.persistOk then Done else Refused(PersistFailed))
  }

  function PutLocked(cfg: Config, s: State, ref: string, value: Bytes, meta: PutMeta, overwrite: bool, mustExist: bool,
                     env: Env): (State, Reply)
  {
    if !ValidPut(cfg, ref, value, meta) then (s, Refused(InvalidInput))
    else if ref in s.secrets && !overwrite then (s, Refused(Exists))
    else if ref !in s.secrets && mustExist then (s, Refused(NotFound))
    else Write(cfg, s, ref, value, meta, env)
  }

  function UpsertCall(cfg: Config, s: State, ref: string, value: Bytes, meta: PutMeta, env: Env): (State, Reply) {
    if !ValidPut(cfg, ref, value, meta) then (s, Refused(InvalidInput))
    else
      var (t, reply) := Write(cfg, s, ref, value, meta, env);
      (t, if reply.Done? && ref in t.secrets then Stored(MetaOf(t.secrets[ref]), ref in s.secrets) else reply)
  }

  /** The plaintext of a record under a master key. */
  function Plain(cfg: Config, kek: Bytes, rec: Record): Option<Bytes> {
    match cfg.aead.open(kek, rec.wrappedDek)
    case None => None
    case Some(dek) => cfg.aead.open(dek, rec.value)
  }

  predicate FlushDue(s: State, ref: string, now: Time) {
    ref !in s.flushed || now - s.flushed[ref] >= FLUSH_INTERVAL
  }

  function GetCall(cfg: Config, s: State, ref: string, env: Env): (State, Reply) {
    if ref !in s.secrets then (s, Refused(NotFound))
    else
      match Plain(cfg, s.kek, s.secrets[ref])
      case None => (s, Refused(CannotOpen))
      case Some(value) =>
        var rec := s.secrets[ref].(lastUsed := Some(env.now));
        var stamped := s.(secrets := s.secrets[ref := rec]);
        (if FlushDue(s, ref, env.now) then Persist(stamped, env.persistOk).(flushed := s.flushed[ref := env.now])
          else stamped,
         Opened(value, MetaOf(rec)))
  }

  function DeleteCall(s: State, ref: string, env: Env): (State, Reply) {
    if ref !in s.secrets then (s, Refused(NotFound))
    else
      (Persist(s.(secrets := s.secrets - {ref}, flushed := s.flushed - {ref}), env.persistOk),
       if env.persistOk then Done else Refused(PersistFailed))
  }

  predicate Unwraps(cfg: Config, s: State) {
    forall ref :: ref in s.secrets ==> cfg.aead.open(s.kek, s.secrets[ref].wrappedDek).Some?
  }

  /** One record with its data key wrapped under the new master key, if the old one unwraps it. */
  function Rewrap(cfg: Config, kek: Bytes, rec: Record, newKek: Bytes, nonce: Bytes): Option<Record> {
    match cfg.aead.open(kek, rec.wrappedDek)
    case None => None
    case Some(dek) => Some(rec.(wrappedDek := cfg.aead.seal(newKek, nonce, dek)))
  }

  /** Every data key wrapped under the new master key; the sealed values untouched. */
  function Rewrapped(cfg: Config, s: State, newKek: Bytes, nonces: string -> Bytes): map<string, Record>
    requires Unwraps(cfg, s)
  {
    map ref | ref in s.secrets :: Rewrap(cfg, s.kek, s.secrets[ref], newKek, nonces(ref)).value
  }

  function RotateCall(cfg: Config, s: State, newKek: Bytes, env: Env): (State, Reply) {
    if |newKek| != KEY_LENGTH then (s, Refused(InvalidInput))
    else if !Unwraps(cfg, s) || (s.secrets != map[] && !env.nonceOk) then (s, Refused(RotateFailed))
    else if !env.persistOk then (s, Refused(PersistFailed))
    else
      var rewrapped := Rewrapped(cfg, s, newKek, env.nonces);
      (s.(kek := newKek, secrets := rewrapped, disk := rewrapped), Done)
  }

  function Perform(cfg: Config, s: State, call: Call, env: Env): (State, Reply) {
    match call
    case Put(ref, value, meta, overwrite) => PutLocked(cfg, s, ref, value, meta, overwrite, false, env)
    case Update(ref, value, meta) => PutLocked(cfg, s, ref, value, meta, true, true, env)
    case Upsert(ref, value, meta) => UpsertCall(cfg, s, ref, value, meta, env)
    case Get(ref) => GetCall(cfg, s, ref, env)
    case Delete(ref) => DeleteCall(s, ref, env)
    case RotateKey(newKek) => RotateCall(cfg, s, newKek, env)
  }

  // ---------------------------------------------------------------------------
  // The plain map the vault stands for
  // ---------------------------------------------------------------------------

  /** What a caller can learn about a ref: its value, unless it cannot be decrypted, and its metadata. */
  datatype Entry = Entry(plain: Option<Bytes>, meta: Meta)

  function Abs(cfg: Config, kek: Bytes, secrets: map<string, Record>): map<string, Entry> {
    map ref | ref in secrets :: Entry(Plain(cfg, kek, secrets[ref]), MetaOf(secrets[ref]))
  }

  /** The same calls on a plain map, with no key, no cipher and no disk. A write that states no
      provider, scope or TTL leaves the one there was. */
  function MapWrite(m: map<string, Entry>, ref: string, value: Bytes, meta: PutMeta, now: Time): map<string, Entry> {
    var stored :=
      if ref in m then
        var prior := m[ref].meta;
        Meta(ref,
             if meta.provider != "" then meta.provider else prior.provider,
             if meta.scope != "" then meta.scope else prior.scope,
             if meta.ttl != "" then meta.ttl else prior.ttl,
             prior.createdAt, prior.lastUsed, Some(now))
      else Meta(ref, meta.provider, meta.scope, meta.ttl, now, None, None);
    m[ref := Entry(Some(value), stored)]
  }

  /** Whether a call writes `ref`, given whether the ref is present. */
  predicate Writes(cfg: Config, call: Call, env: Env, ref: string, present: bool) {
    && (call.Put? || call.Update? || call.Upsert?) && call.ref == ref
    && ValidPut(cfg, ref, call.value, call.meta) && env.DrawsOk()
    && (call.Put? ==> call.overwrite || !present)
    && (call.Update? ==> present)
  }

  function MapPerform(cfg: Config, m: map<string, Entry>, call: Call, env: Env): map<string, Entry> {
    match call
    case RotateKey(_) => m
    case Delete(ref) => m - {ref}
    case Get(ref) =>
      if ref in m && m[ref].plain.Some?
      then m[ref := m[ref].(meta := m[ref].meta.(lastUsed := Some(env.now)))]
      else m
    case _ =>
      if Writes(cfg, call, env, call.ref, call.ref in m)
      then MapWrite(m, call.ref, call.value, call.meta, env.now)
      else m
  }

  /** What the plain map answers. A map knows nothing of keys; RotationIsAtomic covers that call. */
  function MapReply(cfg: Config, m: map<string, Entry>, call: Call, env: Env): Reply {
    if call.RotateKey? then Done
    else if call.Get? then
      if call.ref !in m then Refused(NotFound)
      else if m[call.ref].plain.None? then Refused(CannotOpen)
      else Opened(m[call.ref].plain.value, m[call.ref].meta.(lastUsed := Some(env.now)))
    else if call.Delete? then
      if call.ref !in m then Refused(NotFound) else if env.persistOk then Done else Refused(PersistFailed)
    else if !ValidPut(cfg, call.ref, call.value, call.meta) then Refused(InvalidInput)
    else if call.Put? && !call.overwrite && call.ref in m then Refused(Exists)
    else if call.Update? && call.ref !in m then Refused(NotFound)
    else if !env.DrawsOk() then Refused(NoRandomness)
    else if !env.persistOk then Refused(PersistFailed)
    else if call.Upsert? then
      Stored(MapWrite(m, call.ref, call.value, call.meta, env.now)[call.ref].meta, call.ref in m)
    else Done
  }

  lemma NewRecordOpens(cfg: Config, kek: Bytes, ref: string, value: Bytes, meta: PutMeta, env: Env,
                       existing: Option<Record>)
    requires cfg.aead.Lawful() && |kek| == KEY_LENGTH
    ensures Plain(cfg, kek, NewRecord(cfg, kek, ref, value, meta, env, existing)) == Some(value)
  {
  }

  lemma WriteRefines(cfg: Config, s: State, ref: string, value: Bytes, meta: PutMeta, env: Env)
    requires cfg.aead.Lawful() && |s.kek| == KEY_LENGTH
    ensures var t := Write(cfg, s, ref, value, meta, env).0;
            t.kek == s.kek &&
            Abs(cfg, t.kek, t.secrets) ==
              if env.DrawsOk()
              then MapWrite(Abs(cfg, s.kek, s.secrets), ref, value, meta, env.now)
              else Abs(cfg, s.kek, s.secrets)
  {
    NewRecordOpens(cfg, s.kek, ref, value, meta, env, Lookup(s.secrets, ref));
  }

  lemma RewrappedRecord(cfg: Config, s: State, newKek: Bytes, nonces: string -> Bytes, ref: string)
    requires cfg.aead.Lawful() && |newKek| == KEY_LENGTH && Unwraps(cfg, s) && ref in s.secrets
    ensures var rec := Rewrapped(cfg, s, newKek, nonces)[ref];
            rec.value == s.secrets[ref].value && MetaOf(rec) == MetaOf(s.secrets[ref])
            && Plain(cfg, newKek, rec) == Plain(cfg, s.kek, s.secrets[ref])
  {
  }

  lemma RotateRefines(cfg: Config, s: State, newKek: Bytes, env: Env)
    requires cfg.aead.Lawful() && |s.kek| == KEY_LENGTH
    ensures var t := RotateCall(cfg, s, newKek, env).0;
            |t.kek| == KEY_LENGTH && Abs(cfg, t.kek, t.secrets) == Abs(cfg, s.kek, s.secrets)
  {
    var (t, reply) := RotateCall(cfg, s, newKek, env);
    if reply.Done? {
      forall ref | ref in s.secrets
        ensures Abs(cfg, t.kek, t.secrets)[ref] == Abs(cfg, s.kek, s.secrets)[ref]
      {
        RewrappedRecord(cfg, s, newKek, env.nonces, ref);
      }
    }
  }

  /** A call on the vault and the same call on a plain map come to the same contents and answer. */
  ghost predicate Agrees(cfg: Config, before: map<string, Entry>, call: Call, env: Env, after: State, reply: Reply) {
    && |after.kek| == KEY_LENGTH
    && Abs(cfg, after.kek, after.secrets) == MapPerform(cfg, before, call, env)
    && (!call.RotateKey? ==> reply == MapReply(cfg, before, call, env))
  }

  lemma GetRefines(cfg: Config, s: State, ref: string, env: Env)
    requires |s.kek| == KEY_LENGTH
    ensures var (t, reply) := GetCall(cfg, s, ref, env);
            Agrees(cfg, Abs(cfg, s.kek, s.secrets), Get(ref), env, t, reply)
  {
    var (t, reply) := GetCall(cfg, s, ref, env);
    if reply.Opened? {
      assert t.secrets == s.secrets[ref := s.secrets[ref].(lastUsed := Some(env.now))];
      assert Plain(cfg, s.kek, t.secrets[ref]) == Plain(cfg, s.kek, s.secrets[ref]);
    }
  }

  lemma DeleteRefines(cfg: Config, s: State, ref: string, env: Env)
    requires |s.kek| == KEY_LENGTH
    ensures var (t, reply) := DeleteCall(s, ref, env);
            Agrees(cfg, Abs(cfg, s.kek, s.secrets), Delete(ref), env, t, reply)
  {
  }

  lemma PutRefines(cfg: Config, s: State, call: Call, env: Env)
    requires cfg.aead.Lawful() && |s.kek| == KEY_LENGTH && (call.Put? || call.Update?)
    ensures var (t, reply) := Perform(cfg, s, call, env); Agrees(cfg, Abs(cfg, s.kek, s.secrets), call, env, t, reply)
  {
    WriteRefines(cfg, s, call.ref, call.value, call.meta, env);
  }

  lemma UpsertRefines(cfg: Config, s: State, ref: string, value: Bytes, meta: PutMeta, env: Env)
    requires cfg.aead.Lawful() && |s.kek| == KEY_LENGTH
    ensures var (t, reply) := UpsertCall(cfg, s, ref, value, meta, env);
            Agrees(cfg, Abs(cfg, s.kek, s.secrets), Upsert(ref, value, meta), env, t, reply)
  {
    WriteRefines(cfg, s, ref, value, meta, env);
    var m, t := Abs(cfg, s.kek, s.secrets), Write(cfg, s, ref, value, meta, env).0;
    if env.DrawsOk() {
      assert MetaOf(t.secrets[ref]) == Abs(cfg, t.kek, t.secrets)[ref].meta;
    }
  }

  /** Every call acts on the vault exactly as on a plain map: same contents, same answer,
      whether or not the disk works. */
  lemma Refines(cfg: Config, s: State, call: Call, env: Env)
    requires cfg.aead.Lawful() && |s.kek| == KEY_LENGTH
    ensures var (t, reply) := Perform(cfg, s, call, env); Agrees(cfg, Abs(cfg, s.kek, s.secrets), call, env, t, reply)
  {
    match call
    case RotateKey(newKek) => RotateRefines(cfg, s, newKek, env);
    case Get(ref) => GetRefines(cfg, s, ref, env);
    case Delete(ref) => DeleteRefines(cfg, s, ref, env);
    case Put(_, _, _, _) => PutRefines(cfg, s, call, env);
    case Update(_, _, _) => PutRefines(cfg, s, call, env);
    case Upsert(ref, value, meta) => UpsertRefines(cfg, s, ref, value, meta, env);
  }

  /** A key rotation is all or nothing: on success every sealed value is byte for byte what it
      was and opens to the same plaintext under the new key; otherwise nothing at all changed. */
  lemma RotationIsAtomic(cfg: Config, s: State, newKek: Bytes, env: Env)
    requires cfg.aead.Lawful()
    ensures var (t, reply) := Perform(cfg, s, RotateKey(newKek), env);
            if reply == Done then
              && t.kek == newKek && t.secrets.Keys == s.secrets.Keys && t.disk == t.secrets && t.flushed == s.flushed
              && forall ref :: ref in s.secrets ==>
                   && t.secrets[ref].value == s.secrets[ref].value && MetaOf(t.secrets[ref]) == MetaOf(s.secrets[ref])
                   && Plain(cfg, newKek, t.secrets[ref]) == Plain(cfg, s.kek, s.secrets[ref])
            else t == s && reply.Refused?
  {
    var (t, reply) := Perform(cfg, s, RotateKey(newKek), env);
    if reply == Done {
      forall ref | ref in s.secrets
        ensures && t.secrets[ref].value == s.secrets[ref].value && MetaOf(t.secrets[ref]) == MetaOf(s.secrets[ref])
                && Plain(cfg, newKek, t.secrets[ref]) == Plain(cfg, s.kek, s.secrets[ref])
      {
        RewrappedRecord(cfg, s, newKek, env.nonces, ref);
      }
    }
  }

  /** Every record sits under its own ref. */
  ghost predicate WellKeyed(secrets: map<string, Record>) {
    forall ref :: ref in secrets ==> secrets[ref].ref == ref
  }

  lemma StaysWellKeyed(cfg: Config, s: State, call: Call, env: Env)
    requires WellKeyed(s.secrets)
    ensures WellKeyed(Perform(cfg, s, call, env).0.secrets)
  {
  }

  /** What stands under a ref after any write that went through to memory: the value given, the
      metadata given where there is any, and what was there before where there is none. */
  ghost predicate WrittenOver(cfg: Config, s: State, call: Call, env: Env, t: State)
    requires call.Put? || call.Update? || call.Upsert?
  {
    && call.ref in t.secrets
    && Plain(cfg, t.kek, t.secrets[call.ref]) == Some(call.value)
    && var rec := t.secrets[call.ref];
       if call.ref in s.secrets then
         var prior := s.secrets[call.ref];
         && (call.meta.provider == "" ==> rec.provider == prior.provider)
         && (call.meta.provider != "" ==> rec.provider == call.meta.provider)
         && (call.meta.scope == "" ==> rec.scope == prior.scope)
         && (call.meta.scope != "" ==> rec.scope == call.meta.scope)
         && (call.meta.ttl == "" ==> rec.ttl == prior.ttl)
         && (call.meta.ttl != "" ==> rec.ttl == call.meta.ttl)
         && rec.createdAt == prior.createdAt && rec.lastUsed == prior.lastUsed && rec.rotatedAt == Some(env.now)
       else
         && PutMeta(rec.provider, rec.scope, rec.ttl) == call.meta
         && rec.createdAt == env.now && rec.lastUsed == None && rec.rotatedAt == None
  }

  /** Every call that writes carries unstated metadata over and spares every other record; the
      file becomes the memory when the disk works and stays when it does not. Every call that
      is refused before it writes, changes nothing. */
  lemma WriteCarriesOver(cfg: Config, s: State, call: Call, env: Env)
    requires cfg.aead.Lawful() && |s.kek| == KEY_LENGTH && (call.Put? || call.Update? || call.Upsert?)
    ensures var (t, reply) := Perform(cfg, s, call, env);
            if reply.Refused? && !reply.error.PersistFailed? then t == s
            else
              && WrittenOver(cfg, s, call, env, t)
              && t.kek == s.kek && t.secrets - {call.ref} == s.secrets - {call.ref}
              && t.flushed == s.flushed - {call.ref}
              && (if env.persistOk then t.disk == t.secrets else t.disk == s.disk && reply.Refused?)
  {
    NewRecordOpens(cfg, s.kek, call.ref, call.value, call.meta, env, Lookup(s.secrets, call.ref));
  }

  /** What a write answers, refusals in the order they are looked for: a rejected ref or metadata
      or an empty value, a ref that is there and may not be overwritten, one that is not there
      and has to be, a random source that fails in either draw, a disk that fails. */
  lemma WriteAnswers(cfg: Config, s: State, call: Call, env: Env)
    requires call.Put? || call.Update? || call.Upsert?
    ensures var (t, reply) := Perform(cfg, s, call, env);
            if !cfg.accepts(call.ref, call.meta) || |call.value| == 0 then reply == Refused(InvalidInput)
            else if call.Put? && !call.overwrite && call.ref in s.secrets then reply == Refused(Exists)
            else if call.Update? && call.ref !in s.secrets then reply == Refused(NotFound)
            else if !env.keyOk || !env.nonceOk then reply == Refused(NoRandomness)
            else if !env.persistOk then reply == Refused(PersistFailed)
            else if call.Upsert? then
              && call.ref in t.secrets
              && reply == Stored(MetaOf(t.secrets[call.ref]), call.ref in s.secrets)
            else reply == Done
  {
  }

  /** What a rotation answers: a key of any length but 32 is refused first, then a record that
      does not unwrap or a failing random source, then a failing disk. */
  lemma RotationAnswers(cfg: Config, s: State, newKek: Bytes, env: Env)
    ensures var reply := Perform(cfg, s, RotateKey(newKek), env).1;
            var unwraps := forall ref :: ref in s.secrets ==> cfg.aead.open(s.kek, s.secrets[ref].wrappedDek) != None;
            && (|newKek| != 32 ==> reply == Refused(InvalidInput))
            && (|newKek| == 32 && !unwraps ==> reply == Refused(RotateFailed))
            && (|newKek| == 32 && unwraps && !env.nonceOk && s.secrets != map[] ==> reply == Refused(RotateFailed))
            && (|newKek| == 32 && unwraps && (env.nonceOk || s.secrets == map[]) ==>
                  reply == if env.persistOk then Done else Refused(PersistFailed))
  {
  }
}
