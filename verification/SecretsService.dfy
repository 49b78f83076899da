/**
  The operator's surface over the vault: rotation, upsert, and a delete that refuses while
  something still addresses the ref. The caller's plaintext buffer is scrubbed on every path.
 */
module SecretsService {
  import opened Prelude
  import opened Sorting
  import opened VaultModel
  import opened Vault
  import opened Consumers

  /** What a delete answers; consumers are handed back also when the vault refuses last. */
  datatype DeleteReply = Deleted(broken: seq<Consumer>) | InUse(consumers: seq<Consumer>) | IndexFailed
    | VaultRefused(error: Error, broken: seq<Consumer>)

  class SecretsService {
    const vault: Vault
    const index: ConsumerIndex?

    constructor (vault: Vault, index: ConsumerIndex?)
      ensures this.vault == vault && this.index == index
    {
      this.vault, this.index := vault, index;
    }

    ghost predicate Valid()
      reads vault
    {
      vault.Valid() && WellKeyed(vault.secrets)
    }

    /** The current reading of who addresses a ref; without an index nobody is known to. */
    method ConsumersOf(ref: string) returns (cs: Option<seq<Consumer>>)
      ensures index == null ==> cs == Some([])
      ensures index != null ==> (cs.Some? <==> forall i :: 0 <= i < |index.sources| ==> index.sources[i] != Other(None))
      ensures index != null && cs.Some? ==> forall c :: c in cs.value <==> SomeSourceReports(index.sources, ref, c)
      ensures cs.Some? ==> SortedBy(cs.value, ConsumerLe) && Distinct(cs.value)
    {
      if index == null {
        return Some([]);
      }
      cs := index.Of(ref);
    }

    /** Look a ref up in the listing; no value is ever read. */
    method Find(ref: string) returns (meta: Option<Meta>)
      requires Valid()
      ensures meta == if ref in vault.secrets then Some(MetaOf(vault.secrets[ref])) else None
    {
      var metas := vault.List();
      var i := 0;
      while i < |metas|
        invariant 0 <= i <= |metas|
        invariant forall j :: 0 <= j < i ==> metas[j].ref != ref
      {
        assert metas[i] in metas;
        if metas[i].ref == ref {
          return Some(metas[i]);
        }
        i := i + 1;
      }
      assert forall k :: k in vault.secrets ==> MetaOf(vault.secrets[k]) in metas;
      meta := None;
    }

    /** Replace the value under an existing ref. */
    method Rotate(ref: string, value: array<Byte>, meta: PutMeta, env: Env) returns (reply: Reply)
      requires Valid() && value != vault.kek
      modifies vault`secrets, vault`flushed, vault`disk, value
      ensures Valid() && Scrubbed(value)
      ensures env.keyOk ==> forall b: array<Byte> :: fresh(b) ==> Scrubbed(b)
      ensures (vault.View(), reply) ==
                Perform(vault.cfg, old(vault.View()), Call.Update(ref, old(value[..]), meta), env)
      ensures reply == Done ==> ref in old(vault.secrets) && ref in vault.secrets
      ensures reply == Done && vault.cfg.aead.Lawful() ==>
        forall later :: ReadsBack(vault.cfg, vault.View(), ref, old(value[..]), later)
    {
      ghost var before, bytes := vault.View(), value[..];
      reply := vault.Update(ref, value, meta, env);
      Zeroize(value);
      StaysWellKeyed(vault.cfg, before, Call.Update(ref, bytes, meta), env);
      if vault.cfg.aead.Lawful() && reply == Done {
        WrittenOpens(vault.cfg, before, Call.Update(ref, bytes, meta), env);
      }
    }

    /** Store a value, creating or replacing, and say which of the two it was. */
    method Upsert(ref: string, value: array<Byte>, meta: PutMeta, env: Env) returns (reply: Reply)
      requires Valid() && value != vault.kek
      modifies vault`secrets, vault`flushed, vault`disk, value
      ensures Valid() && Scrubbed(value)
      ensures env.keyOk ==> forall b: array<Byte> :: fresh(b) ==> Scrubbed(b)
      ensures (vault.View(), reply) ==
                Perform(vault.cfg, old(vault.View()), Call.Upsert(ref, old(value[..]), meta), env)
      ensures reply.Stored? ==> ref in vault.secrets && (reply.replaced <==> ref in old(vault.secrets))
      ensures reply.Stored? && vault.cfg.aead.Lawful() ==>
        forall later :: ReadsBack(vault.cfg, vault.View(), ref, old(value[..]), later)
    {
      ghost var before, bytes := vault.View(), value[..];
      reply := vault.Upsert(ref, value, meta, env);
      Zeroize(value);
      StaysWellKeyed(vault.cfg, before, Call.Upsert(ref, bytes, meta), env);
      if vault.cfg.aead.Lawful() && reply.Stored? {
        WrittenOpens(vault.cfg, before, Call.Upsert(ref, bytes, meta), env);
      }
    }

    /** Whether the index, if there is one, can say who addresses a ref. */
    ghost predicate IndexAnswers()
      reads this, index
    {
      index == null || forall i :: 0 <= i < |index.sources| ==> index.sources[i] != Other(None)
    }

    /** The consumers of a ref, each once and in order; nobody, if the index cannot answer. */
    ghost predicate ExactlyConsumers(ref: string, cs: seq<Consumer>)
      reads this, index
    {
      && SortedBy(cs, ConsumerLe) && Distinct(cs)
      && forall c :: c in cs <==> index != null && IndexAnswers() && SomeSourceReports(index.sources, ref, c)
    }

    /** Remove a ref. Unforced, it succeeds only if every source answered and none of them
        names the ref; forced, it goes ahead even when the index cannot answer. Either way the
        caller is told exactly who addresses the ref. */
    method Delete(ref: string, force: bool, env: Env) returns (reply: DeleteReply)
      requires Valid()
      modifies vault`secrets, vault`flushed, vault`disk
      ensures Valid()
      ensures if ref !in old(vault.secrets) then reply == VaultRefused(NotFound, [])
              else if force then Attempted(reply, env)
              else if !IndexAnswers() then reply == IndexFailed
              else if index != null && exists c :: SomeSourceReports(index.sources, ref, c) then reply.InUse?
              else Attempted(reply, env)
      ensures reply.InUse? ==> ExactlyConsumers(ref, reply.consumers)
      ensures ref in old(vault.secrets) && Attempted(reply, env) ==>
        && ExactlyConsumers(ref, reply.broken) && ref !in vault.secrets
        && vault.View() == Perform(vault.cfg, old(vault.View()), Call.Delete(ref), env).0
      ensures ref !in old(vault.secrets) || reply.InUse? || reply.IndexFailed? ==> vault.View() == old(vault.View())
    {
      var meta := Find(ref);
      if meta.None? {
        return VaultRefused(NotFound, []);
      }
      var cs := ConsumersOf(ref);
      if cs.None? && !force {
        return IndexFailed;
      }
      var known := if cs.None? then [] else cs.value;
      if |known| > 0 && !force {
        assert known[0] in known;
        return InUse(known);
      }
      ghost var before := vault.View();
      var result := vault.Delete(ref, env);
      StaysWellKeyed(vault.cfg, before, Call.Delete(ref), env);
      reply := if result.Refused? then VaultRefused(result.error, known) else Deleted(known);
    }
  }

  /** The delete reached the vault, which failed only if its disk did. */
  ghost predicate Attempted(reply: DeleteReply, env: Env) {
    if env.persistOk then reply.Deleted? else reply.VaultRefused? && reply.error == PersistFailed
  }

  /** A successful write leaves a record that opens to the value given, and a `Get` that follows,
      whatever its circumstances, returns that value. */
  lemma WrittenOpens(cfg: VaultModel.Config, s: State, call: Call, env: Env)
    requires cfg.aead.Lawful() && |s.kek| == KEY_LENGTH && (call.Update? || call.Upsert?)
    requires !Perform(cfg, s, call, env).1.Refused?
    ensures var t := Perform(cfg, s, call, env).0;
            && call.ref in t.secrets && Plain(cfg, t.kek, t.secrets[call.ref]) == Some(call.value)
            && forall later :: ReadsBack(cfg, t, call.ref, call.value, later)
  {
    Refines(cfg, s, call, env);
    var t := Perform(cfg, s, call, env).0;
    assert call.ref in Abs(cfg, t.kek, t.secrets);
  }

  ghost predicate ReadsBack(cfg: VaultModel.Config, s: State, ref: string, value: Bytes, env: Env) {
    var reply := Perform(cfg, s, Call.Get(ref), env).1;
    reply.Opened? && reply.value == value
  }
}
