/**
  The service that owns the lifecycle: every operation loads a record, edits it through a
  callback and saves it, and each is proved to do what Lifecycle.Perform says.
 */
module ChangeService {
  import opened Prelude
  import opened Pin
  import opened Lifecycle

  /** A store of records whose operations may fail; a failed save leaves it unchanged. */
  class Store {
    var records: Records

    constructor ()
      ensures records == map[]
    {
      records := map[];
    }

    method Save(c: Change, fails: bool) returns (ok: bool)
      modifies this
      ensures ok == !fails
      ensures records == if fails then old(records) else old(records)[c.id := c]
    {
      if !fails {
        records := records[c.id := c];
      }
      ok := !fails;
    }

    method Load(id: string, fails: bool) returns (ok: bool, found: Option<Change>)
      ensures ok == !fails
      ensures ok ==> found == Lookup(records, id)
    {
      ok, found := !fails, if fails then None else Lookup(records, id);
    }
  }

  class Service {
    const sha: Bytes -> Digest
    const store: Store

    constructor (sha: Bytes -> Digest, store: Store)
      ensures this.sha == sha && this.store == store
    {
      this.sha, this.store := sha, store;
    }

    method Propose(c: Change, now: Time, io: Io) returns (outcome: Outcome)
      modifies store
      ensures (store.records, outcome) == Perform(sha, old(store.records), Call.Propose(c), now, io)
    {
      var stamped := c.(status := Proposed, createdAt := now, updatedAt := now);
      if !Valid(stamped) {
        return Failure(InvalidInput);
      }
      var ok, found := store.Load(c.id, io.loadFails);
      if !ok {
        return Failure(StoreFailed);
      }
      if found.Some? {
        return Failure(InvalidInput);
      }
      ok := store.Save(stamped, io.saveFails);
      outcome := if ok then Success(stamped) else Failure(StoreFailed);
    }

    /** Move a record along one transition, refusing an illegal move. */
    method Mutate(id: string, next: Status, apply: Change -> Outcome, now: Time, io: Io) returns (outcome: Outcome)
      modifies store
      ensures (store.records, outcome) == Lifecycle.Mutate(old(store.records), id, next, apply, now, io)
    {
      var ok, found := store.Load(id, io.loadFails);
      if !ok {
        return Failure(StoreFailed);
      }
      if found.None? {
        return Failure(NotFound);
      }
      var c := found.value;
      if !CanMoveTo(c.status, next) {
        return Failure(InvalidTransition);
      }
      var edited := apply(c);
      if edited.Failure? {
        return Failure(edited.error);
      }
      c := edited.value.(status := next, updatedAt := now);
      if !Valid(c) {
        return Failure(InvalidInput);
      }
      ok := store.Save(c, io.saveFails);
      outcome := if ok then Success(c) else Failure(StoreFailed);
    }

    method Preview(id: string, steps: seq<Step>, preview: string, blast: seq<ResourceCount>, inverse: Inverse,
                   now: Time, io: Io)
      returns (outcome: Outcome)
      modifies store
      ensures (store.records, outcome) ==
                Perform(sha, old(store.records), Call.Preview(id, steps, preview, blast, inverse), now, io)
    {
      var sha := this.sha;
      outcome := Mutate(id, Previewed, (c: Change) => EditPreview(sha, c, steps, preview, blast, inverse), now, io);
    }

    method RequestApproval(id: string, now: Time, io: Io) returns (outcome: Outcome)
      modifies store
      ensures (store.records, outcome) == Perform(sha, old(store.records), Call.RequestApproval(id), now, io)
    {
      outcome := Mutate(id, AwaitingApproval,
        (c: Change) => if c.planHash == "" then Failure(InvalidInput) else Success(c), now, io);
    }

    method Approve(id: string, decidedBy: string, note: string, running: Option<seq<Step>>, now: Time, io: Io)
      returns (outcome: Outcome)
      modifies store
      ensures (store.records, outcome) ==
                Perform(sha, old(store.records), Call.Approve(id, decidedBy, note, running), now, io)
    {
      var sha := this.sha;
      outcome := Mutate(id, Applying, (c: Change) => EditApprove(sha, c, decidedBy, note, running), now, io);
    }

    method Deny(id: string, decidedBy: string, note: string, now: Time, io: Io) returns (outcome: Outcome)
      modifies store
      ensures (store.records, outcome) == Perform(sha, old(store.records), Call.Deny(id, decidedBy, note), now, io)
    {
      outcome := Mutate(id, Denied,
        (c: Change) => if decidedBy == "" then Failure(InvalidInput)
          else Success(c.(decidedBy := decidedBy, decisionNote := note)), now, io);
    }

    method Expire(id: string, reason: string, now: Time, io: Io) returns (outcome: Outcome)
      modifies store
      ensures (store.records, outcome) == Perform(sha, old(store.records), Call.Expire(id, reason), now, io)
    {
      outcome := Mutate(id, Expired, (c: Change) => Success(c.(failureReason := reason)), now, io);
    }

    method MarkApplied(id: string, now: Time, io: Io) returns (outcome: Outcome)
      modifies store
      ensures (store.records, outcome) == Perform(sha, old(store.records), Call.MarkApplied(id), now, io)
    {
      outcome := Mutate(id, Applied, (c: Change) => Success(c), now, io);
    }

    method MarkFailed(id: string, reason: string, now: Time, io: Io) returns (outcome: Outcome)
      modifies store
      ensures (store.records, outcome) == Perform(sha, old(store.records), Call.MarkFailed(id, reason), now, io)
    {
      outcome := Mutate(id, Failed, (c: Change) => Success(c.(failureReason := reason)), now, io);
    }

    method Revert(id: string, decidedBy: string, now: Time, io: Io) returns (outcome: Outcome)
      modifies store
      ensures (store.records, outcome) == Perform(sha, old(store.records), Call.Revert(id, decidedBy), now, io)
    {
      outcome := Mutate(id, Reverted,
        (c: Change) => if decidedBy == "" || !Revertible(c) then Failure(InvalidInput) else Success(c), now, io);
    }
  }
}
