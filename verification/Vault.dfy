/**
  The vault object. Keys and plaintexts live in arrays that are scrubbed in place, so what is
  proved here includes which buffer is wiped and which is still in use.
 */
module Vault {
  import opened Prelude
  import opened Sorting
  import opened VaultModel

  ghost predicate Scrubbed(b: array<Byte>)
    reads b
  {
    forall i :: 0 <= i < b.Length ==> b[i] == 0
  }

  method Zeroize(b: array<Byte>)
    modifies b
    ensures Scrubbed(b)
    ensures forall other: array<Byte> :: fresh(other) ==> Scrubbed(other)
  {
    for i := 0 to b.Length
      invariant forall j :: 0 <= j < i ==> b[j] == 0
      invariant forall other: array<Byte> :: fresh(other) ==> Scrubbed(other)
    {
      b[i] := 0;
    }
  }

  predicate RefLe(a: Meta, b: Meta) {
    LexLe(a.ref, b.ref)
  }

  lemma RefOrder()
    ensures TotalPreorder(RefLe)
  {
    LexOrder();
  }

  /** A fresh buffer holding the given bytes. */
  method Buffer(bytes: Bytes) returns (b: array<Byte>)
    ensures fresh(b) && b[..] == bytes
    ensures forall other: array<Byte> :: fresh(other) && other != b ==> Scrubbed(other)
  {
    b := new Byte[|bytes|](i requires 0 <= i < |bytes| => bytes[i]);
    assert b[..] == bytes;
  }

  /** What re-wrapping the record of `ref` comes to when the random source works or does not. */
  function Attempt(cfg: Config, s: State, newKek: Bytes, env: Env, ref: string): Option<Record>
    requires ref in s.secrets
  {
    if env.nonceOk then Rewrap(cfg, s.kek, s.secrets[ref], newKek, env.nonces(ref)) else None
  }

  /** Part way through a rotation: the refs no longer pending are re-wrapped. */
  ghost predicate RewrapGoing(cfg: Config, s: State, newKek: Bytes, env: Env, pending: set<string>,
                              rewrapped: map<string, Record>)
  {
    && pending <= s.secrets.Keys && rewrapped.Keys == s.secrets.Keys - pending
    && forall r :: r in rewrapped ==> Attempt(cfg, s, newKek, env, r) == Some(rewrapped[r])
  }

  predicate CanRewrap(cfg: Config, s: State, env: Env) {
    Unwraps(cfg, s) && (s.secrets == map[] || env.nonceOk)
  }

  lemma RewrapMore(cfg: Config, s: State, newKek: Bytes, env: Env, pending: set<string>,
                   rewrapped: map<string, Record>, ref: string)
    requires RewrapGoing(cfg, s, newKek, env, pending, rewrapped) && ref in pending
    ensures match Attempt(cfg, s, newKek, env, ref)
            case None => !CanRewrap(cfg, s, env)
            case Some(rec) => RewrapGoing(cfg, s, newKek, env, pending - {ref}, rewrapped[ref := rec])
  {
  }

  lemma RewrapEnds(cfg: Config, s: State, newKek: Bytes, env: Env, rewrapped: map<string, Record>)
    requires RewrapGoing(cfg, s, newKek, env, {}, rewrapped)
    ensures CanRewrap(cfg, s, env) && rewrapped == Rewrapped(cfg, s, newKek, env.nonces)
  {
    forall r | r in s.secrets ensures cfg.aead.open(s.kek, s.secrets[r].wrappedDek).Some? && env.nonceOk {
      assert Attempt(cfg, s, newKek, env, r) == Some(rewrapped[r]);
    }
    assert rewrapped.Keys == s.secrets.Keys;
  }

  /** The refs among `keys` whose record has metadata `m`. */
  ghost function Holders(secrets: map<string, Record>, keys: set<string>, m: Meta): set<string>
    requires keys <= secrets.Keys
  {
    set k | k in keys && MetaOf(secrets[k]) == m
  }

  /** `metas` lists the metadata of the given records, each as often as there are records with it. */
  ghost predicate Tallied(secrets: map<string, Record>, keys: set<string>, metas: seq<Meta>)
    requires keys <= secrets.Keys
  {
    forall m :: multiset(metas)[m] == |Holders(secrets, keys, m)|
  }

  lemma NoHolders(secrets: map<string, Record>, pending: set<string>)
    requires pending == secrets.Keys
    ensures Tallied(secrets, secrets.Keys - pending, [])
  {
    forall m ensures Holders(secrets, secrets.Keys - pending, m) == {} {
    }
  }

  lemma TallyMore(secrets: map<string, Record>, keys: set<string>, metas: seq<Meta>, k: string)
    requires keys <= secrets.Keys && k in secrets && k !in keys && Tallied(secrets, keys, metas)
    ensures Tallied(secrets, keys + {k}, metas + [MetaOf(secrets[k])])
  {
    var here := MetaOf(secrets[k]);
    forall m ensures multiset(metas + [here])[m] == |Holders(secrets, keys + {k}, m)| {
      if m == here {
        assert Holders(secrets, keys + {k}, m) == Holders(secrets, keys, m) + {k};
      } else {
        assert Holders(secrets, keys + {k}, m) == Holders(secrets, keys, m);
      }
    }
  }

  lemma TalliedMembers(secrets: map<string, Record>, metas: seq<Meta>)
    requires Tallied(secrets, secrets.Keys, metas)
    ensures forall m :: m in metas <==> exists k :: k in secrets && MetaOf(secrets[k]) == m
  {
    forall m ensures m in metas <==> exists k :: k in secrets && MetaOf(secrets[k]) == m {
      var holders := Holders(secrets, secrets.Keys, m);
      assert m in metas <==> multiset(metas)[m] > 0;
      if k :| k in secrets && MetaOf(secrets[k]) == m {
        assert k in holders;
      }
      if m in metas {
        assert holders != {};
        var k :| k in holders;
        assert k in secrets && MetaOf(secrets[k]) == m;
      }
    }
  }

  class Vault {
    const cfg: Config
    var kek: array<Byte>
    var secrets: map<string, Record>
    var flushed: map<string, Time>
    var disk: map<string, Record>

    ghost predicate Valid()
      reads this
    {
      kek.Length == KEY_LENGTH
    }

    ghost function View(): State
      reads this, kek
    {
      State(kek[..], secrets, flushed, disk)
    }

    /** A vault with a private copy of the master key. OpenVault refuses a key of the wrong length. */
    constructor (cfg: Config, key: array<Byte>, disk: map<string, Record>)
      requires key.Length == KEY_LENGTH
      ensures Valid() && this.cfg == cfg && fresh(kek)
      ensures View() == State(key[..], disk, map[], disk)
    {
      this.cfg := cfg;
      secrets, flushed, this.disk := disk, map[], disk;
      kek := new Byte[KEY_LENGTH](i requires 0 <= i < KEY_LENGTH reads key => key[i]);
      new;
      assert kek[..] == key[..];
    }

    method Persist(ok: bool)
      modifies this`disk
      ensures View() == VaultModel.Persist(old(View()), ok)
      ensures forall b: array<Byte> :: fresh(b) ==> Scrubbed(b)
    {
      if ok {
        disk := secrets;
      }
    }

    /** Seal the value under a fresh data key and commit the record. Once the data key is drawn,
        no buffer this call made is left holding anything; the caller's buffer is only read. */
    method WriteLocked(ref: string, value: array<Byte>, meta: PutMeta, env: Env) returns (reply: Reply)
      requires Valid()
      modifies this`secrets, this`flushed, this`disk
      ensures Valid() && (View(), reply) == Write(cfg, old(View()), ref, value[..], meta, env)
      ensures env.keyOk ==> forall b: array<Byte> :: fresh(b) ==> Scrubbed(b)
    {
      var key := Buffer(env.dek);
      if !env.keyOk {
        return Refused(NoRandomness);
      }
      if !env.nonceOk {
        Zeroize(key);
        return Refused(NoRandomness);
      }
      var valueBlob := cfg.aead.seal(key[..], env.valueNonce, value[..]);
      var wrapped := cfg.aead.seal(kek[..], env.wrapNonce, key[..]);
      var rec := Record(ref, meta.provider, meta.scope, meta.ttl, env.now, None, None, wrapped, valueBlob);
      if ref in secrets {
        var prior := secrets[ref];
        rec := rec.(createdAt := prior.createdAt, lastUsed := prior.lastUsed, rotatedAt := Some(env.now),
                    provider := Restate(meta.provider, prior.provider),
                    scope := Restate(meta.scope, prior.scope),
                    ttl := Restate(meta.ttl, prior.ttl));
      }
      secrets := secrets[ref := rec];
      flushed := flushed - {ref};
      Persist(env.persistOk);
      Zeroize(key);
      reply := if env.persistOk then Done else Refused(PersistFailed);
    }

    method PutLocked(ref: string, value: array<Byte>, meta: PutMeta, overwrite: bool, mustExist: bool, env: Env)
      returns (reply: Reply)
      requires Valid()
      modifies this`secrets, this`flushed, this`disk
      ensures Valid()
      ensures (View(), reply) ==
                VaultModel.PutLocked(cfg, old(View()), ref, value[..], meta, overwrite, mustExist, env)
      ensures env.keyOk ==> forall b: array<Byte> :: fresh(b) ==> Scrubbed(b)
    {
      if !ValidPut(cfg, ref, value[..], meta) {
        return Refused(InvalidInput);
      }
      if ref in secrets && !overwrite {
        return Refused(Exists);
      } else if ref !in secrets && mustExist {
        return Refused(NotFound);
      }
      reply := WriteLocked(ref, value, meta, env);
    }

    method Put(ref: string, value: array<Byte>, meta: PutMeta, overwrite: bool, env: Env) returns (reply: Reply)
      requires Valid()
      modifies this`secrets, this`flushed, this`disk
      ensures Valid() && (View(), reply) == Perform(cfg, old(View()), Call.Put(ref, value[..], meta, overwrite), env)
      ensures env.keyOk ==> forall b: array<Byte> :: fresh(b) ==> Scrubbed(b)
    {
      reply := PutLocked(ref, value, meta, overwrite, false, env);
    }

    method Update(ref: string, value: array<Byte>, meta: PutMeta, env: Env) returns (reply: Reply)
      requires Valid()
      modifies this`secrets, this`flushed, this`disk
      ensures Valid() && (View(), reply) == Perform(cfg, old(View()), Call.Update(ref, value[..], meta), env)
      ensures env.keyOk ==> forall b: array<Byte> :: fresh(b) ==> Scrubbed(b)
    {
      reply := PutLocked(ref, value, meta, true, true, env);
    }

    method Upsert(ref: string, value: array<Byte>, meta: PutMeta, env: Env) returns (reply: Reply)
      requires Valid()
      modifies this`secrets, this`flushed, this`disk
      ensures Valid() && (View(), reply) == Perform(cfg, old(View()), Call.Upsert(ref, value[..], meta), env)
      ensures env.keyOk ==> forall b: array<Byte> :: fresh(b) ==> Scrubbed(b)
    {
      if !ValidPut(cfg, ref, value[..], meta) {
        return Refused(InvalidInput);
      }
      var replaced := ref in secrets;
      reply := WriteLocked(ref, value, meta, env);
      if reply.Done? {
        reply := Stored(MetaOf(secrets[ref]), replaced);
      }
    }

    /** Decrypt into fresh buffers; the data key is scrubbed if the value does not open. */
    method Decrypt(rec: Record) returns (ok: bool, dek: array<Byte>, value: array<Byte>)
      ensures fresh(dek) && fresh(value) && dek != value
      ensures ok <==> Plain(cfg, kek[..], rec).Some?
      ensures ok ==> value[..] == Plain(cfg, kek[..], rec).value
      ensures forall b: array<Byte> :: fresh(b) && (ok ==> b != dek && b != value) ==> Scrubbed(b)
    {
      value := Buffer([]);
      var unwrapped := cfg.aead.open(kek[..], rec.wrappedDek);
      if unwrapped.None? {
        dek := Buffer([]);
        return false, dek, value;
      }
      dek := Buffer(unwrapped.value);
      var plain := cfg.aead.open(dek[..], rec.value);
      if plain.None? {
        Zeroize(dek);
        return false, dek, value;
      }
      value := Buffer(plain.value);
      ok := true;
    }

    /** Resolve a ref: the value comes in a fresh buffer, no other buffer this call made is left
        holding anything, and a flush of the last-used stamp that fails does not fail the call. */
    method Get(ref: string, env: Env) returns (value: array?<Byte>, meta: Option<Meta>, ghost reply: Reply)
      requires Valid()
      modifies this`secrets, this`flushed, this`disk
      ensures Valid() && (View(), reply) == Perform(cfg, old(View()), Call.Get(ref), env)
      ensures reply.Opened? <==> value != null
      ensures value != null ==> fresh(value) && value[..] == reply.value && meta == Some(reply.meta)
      ensures forall b: array<Byte> :: fresh(b) && b != value ==> Scrubbed(b)
    {
      if ref !in secrets {
        return null, None, Refused(NotFound);
      }
      var rec := secrets[ref];
      var ok, key, plain := Decrypt(rec);
      if !ok {
        return null, None, Refused(CannotOpen);
      }
      Zeroize(key);
      rec := rec.(lastUsed := Some(env.now));
      secrets := secrets[ref := rec];
      if ref !in flushed || env.now - flushed[ref] >= FLUSH_INTERVAL {
        Persist(env.persistOk);
        flushed := flushed[ref := env.now];
      }
      value, meta, reply := plain, Some(MetaOf(rec)), Opened(plain[..], MetaOf(rec));
    }

    /** The metadata of every secret, once for each record, by ref. */
    method List() returns (metas: seq<Meta>)
      ensures forall m :: multiset(metas)[m] == |Holders(secrets, secrets.Keys, m)|
      ensures forall m :: m in metas <==> exists k :: k in secrets && MetaOf(secrets[k]) == m
      ensures forall i, j :: 0 <= i < j < |metas| ==> LexLe(metas[i].ref, metas[j].ref)
    {
      var found: seq<Meta> := [];
      var pending := secrets.Keys;
      NoHolders(secrets, pending);
      while pending != {}
        invariant pending <= secrets.Keys && Tallied(secrets, secrets.Keys - pending, found)
        decreases |pending|
      {
        var k :| k in pending;
        TallyMore(secrets, secrets.Keys - pending, found, k);
        assert secrets.Keys - (pending - {k}) == secrets.Keys - pending + {k};
        found := found + [MetaOf(secrets[k])];
        pending := pending - {k};
      }
      assert secrets.Keys - pending == secrets.Keys;
      metas := Sort(found, RefLe);
      SortPermutes(found, RefLe);
      RefOrder();
      SortSorts(found, RefLe);
      TalliedMembers(secrets, metas);
    }

    method Delete(ref: string, env: Env) returns (reply: Reply)
      requires Valid()
      modifies this`secrets, this`flushed, this`disk
      ensures Valid() && (View(), reply) == Perform(cfg, old(View()), Call.Delete(ref), env)
    {
      if ref !in secrets {
        return Refused(NotFound);
      }
      secrets := secrets - {ref};
      flushed := flushed - {ref};
      Persist(env.persistOk);
      reply := if env.persistOk then Done else Refused(PersistFailed);
    }

    /** Re-wrap one data key; no buffer this call made is left holding anything. */
    method RewrapOne(rec: Record, newKek: array<Byte>, nonce: Bytes, nonceOk: bool) returns (rewrapped: Option<Record>)
      ensures rewrapped == if nonceOk then Rewrap(cfg, kek[..], rec, newKek[..], nonce) else None
      ensures forall b: array<Byte> :: fresh(b) ==> Scrubbed(b)
    {
      var unwrapped := cfg.aead.open(kek[..], rec.wrappedDek);
      if unwrapped.None? {
        return None;
      }
      var key := Buffer(unwrapped.value);
      rewrapped := if nonceOk then Some(rec.(wrappedDek := cfg.aead.seal(newKek[..], nonce, key[..]))) else None;
      Zeroize(key);
    }

    /** Re-wrap every data key, in whatever order the map yields them; no buffer this call made
        is left holding anything. */
    method RewrapAll(newKek: array<Byte>, env: Env) returns (ok: bool, rewrapped: map<string, Record>)
      ensures ok <==> CanRewrap(cfg, View(), env)
      ensures ok ==> rewrapped == Rewrapped(cfg, View(), newKek[..], env.nonces)
      ensures forall b: array<Byte> :: fresh(b) ==> Scrubbed(b)
    {
      rewrapped := map[];
      ghost var s, k := View(), newKek[..];
      var pending := secrets.Keys;
      while pending != {}
        invariant kek[..] == s.kek && newKek[..] == k
        invariant RewrapGoing(cfg, s, k, env, pending, rewrapped)
        invariant forall b: array<Byte> :: fresh(b) ==> Scrubbed(b)
        decreases |pending|
      {
        var ref :| ref in pending;
        var rec := RewrapOne(secrets[ref], newKek, env.nonces(ref), env.nonceOk);
        RewrapMore(cfg, s, k, env, pending, rewrapped, ref);
        if rec.None? {
          ok := false;
          return;
        }
        rewrapped := rewrapped[ref := rec.value];
        pending := pending - {ref};
      }
      RewrapEnds(cfg, s, k, env, rewrapped);
      ok := true;
    }

    /** Rotate the master key. The key put in use is a fresh copy, so scrubbing the old key's
        buffer, even when the caller passed that very buffer, cannot touch it. No data key is left
        in any buffer; only a copy of the new master key can be, put in use or rolled back. */
    method RotateMasterKey(newKek: array<Byte>, env: Env) returns (reply: Reply)
      requires Valid()
      modifies this, kek
      ensures Valid() && (View(), reply) == Perform(cfg, old(View()), RotateKey(old(newKek[..])), env)
      ensures if reply == Done then fresh(kek) && Scrubbed(old(kek)) else kek == old(kek)
      ensures forall b: array<Byte> :: fresh(b) ==>
        Scrubbed(b) || b == kek || (reply == Refused(PersistFailed) && b[..] == old(newKek[..]))
    {
      if newKek.Length != KEY_LENGTH {
        return Refused(InvalidInput);
      }
      var ok, rewrapped := RewrapAll(newKek, env);
      if !ok {
        return Refused(RotateFailed);
      }
      var prevKek, prevSecrets := kek, secrets;
      secrets := rewrapped;
      kek := Buffer(newKek[..]);
      if !env.persistOk {
        kek := prevKek;
        secrets := prevSecrets;
        return Refused(PersistFailed);
      }
      disk := secrets;
      Zeroize(prevKek);
      reply := Done;
    }
  }

  /** Open the vault: without a usable key, or over a file that cannot be read, there is none,
      rather than an empty one. `key` is what the key source yields and `file` what loading
      yields, a missing file being no records. */
  method OpenVault(cfg: Config, key: array?<Byte>, file: Option<map<string, Record>>) returns (v: Vault?)
    ensures v == null <==> key == null || key.Length != KEY_LENGTH || file.None?
    ensures v != null ==>
      && fresh(v) && fresh(v.kek) && v.Valid() && v.cfg == cfg
      && v.View() == State(key[..], file.value, map[], file.value)
  {
    if key == null || key.Length != KEY_LENGTH || file.None? {
      return null;
    }
    v := new Vault(cfg, key, file.value);
  }
}
