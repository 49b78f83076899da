/**
  The life of a Change over whole runs of calls against a store that may fail.
 */
module LifecycleRuns {
  import opened Prelude
  import opened Pin
  import opened Lifecycle

  datatype Event = Event(call: Call, now: Time, io: Io)

  /** What makes one event of a run happen. The theorems are about `Service`; the inductions
      behind them need only that a stepper is lawful. */
  type Stepper = (Records, Event) -> (Records, Outcome)

  function Service(sha: Bytes -> Digest): Stepper {
    (records: Records, e: Event) => Perform(sha, records, e.call, e.now, e.io)
  }

  function Run(step: Stepper, records: Records, es: seq<Event>): Records
    decreases |es|
  {
    if es == [] then records else step(Run(step, records, es[..|es|-1]), es[|es|-1]).0
  }

  /** The answer to the k-th call of a run. */
  function Answer(step: Stepper, records: Records, es: seq<Event>, k: nat): Outcome
    requires k < |es|
  {
    step(Run(step, records, es[..k]), es[k]).1
  }

  /** How many calls of a kind on `id` have succeeded. */
  function Count(step: Stepper, records: Records, es: seq<Event>, id: string, kind: Call -> bool): nat
    decreases |es|
  {
    if es == [] then 0
    else
      var n := |es| - 1;
      Count(step, records, es[..n], id, kind)
      + if Target(es[n].call) == id && kind(es[n].call) && Answer(step, records, es, n).Success? then 1 else 0
  }

  function Moves(step: Stepper, es: seq<Event>, id: string): nat {
    Count(step, map[], es, id, (c: Call) => !c.Propose?)
  }

  function Approvals(step: Stepper, es: seq<Event>, id: string): nat {
    Count(step, map[], es, id, (c: Call) => c.Approve?)
  }

  function Previews(step: Stepper, es: seq<Event>, id: string): nat {
    Count(step, map[], es, id, (c: Call) => c.Preview?)
  }

  /** The steps handed to the last successful preview of `id`. */
  function PreviewedSteps(step: Stepper, es: seq<Event>, id: string): Option<seq<Step>>
    decreases |es|
  {
    if es == [] then None
    else
      var n := |es| - 1;
      if Target(es[n].call) == id && es[n].call.Preview? && Answer(step, map[], es, n).Success?
      then Some(es[n].call.steps)
      else PreviewedSteps(step, es[..n], id)
  }

  /** Who made the last successful approval of `id`. */
  function Approver(step: Stepper, es: seq<Event>, id: string): Option<string>
    decreases |es|
  {
    if es == [] then None
    else
      var n := |es| - 1;
      if Target(es[n].call) == id && es[n].call.Approve? && Answer(step, map[], es, n).Success?
      then Some(es[n].call.decidedBy)
      else Approver(step, es[..n], id)
  }

  /** Every record sits under its own id and is valid. */
  ghost predicate Sound(records: Records) {
    forall id :: id in records ==> records[id].id == id && Valid(records[id])
  }

  /** What no call ever changes about a record. */
  predicate SameOrigin(a: Change, b: Change) {
    a.id == b.id && a.intent == b.intent && a.proposer == b.proposer && a.carried == b.carried &&
      a.createdAt == b.createdAt
  }

  /** The moves there are, call by call. */
  predicate Legal(call: Call, before: Status, after: Status) {
    match call
    case Propose(_) => false
    case Preview(_, _, _, _, _) => before == Proposed && after == Previewed
    case RequestApproval(_) => before == Previewed && after == AwaitingApproval
    case Approve(_, _, _, _) => before in {Previewed, AwaitingApproval} && after == Applying
    case Deny(_, _, _) => before in {Proposed, Previewed, AwaitingApproval} && after == Denied
    case Expire(_, _) => before in {Proposed, Previewed, AwaitingApproval} && after == Expired
    case MarkApplied(_) => before == Applying && after == Applied
    case MarkFailed(_, _) => before in {Proposed, Previewed, Applying} && after == Failed
    case Revert(_, _) => before in {Applied, Failed} && after == Reverted
  }

  /** The transition table and the calls allow exactly these moves. */
  lemma LegalExactly(call: Call, before: Status, after: Status)
    requires !call.Propose?
    ensures Legal(call, before, after) <==> after == Wanted(call) && CanMoveTo(before, after)
  {
  }

  /** What a successful move does to a record: the status it asked for, its own fields, the time,
      and nothing else. */
  ghost predicate Moved(sha: Bytes -> Digest, call: Call, now: Time, before: Change, after: Change) {
    && Legal(call, before.status, after.status)
    && SameOrigin(before, after) && after.updatedAt == now
    && (if call.Preview? then
          && after.steps == call.steps && after.planHash == PinOf(sha, call.steps)
          && after.preview == call.preview && after.blast == call.blast && after.inverse == call.inverse
        else
          && after.steps == before.steps && after.planHash == before.planHash
          && after.preview == before.preview && after.blast == before.blast && after.inverse == before.inverse)
    && (if call.Approve? || call.Deny?
        then call.decidedBy != "" && after.decidedBy == call.decidedBy && after.decisionNote == call.note
        else after.decidedBy == before.decidedBy && after.decisionNote == before.decisionNote)
    && (if call.Expire? || call.MarkFailed? then after.failureReason == call.reason
        else after.failureReason == before.failureReason)
    && (call.Approve? ==>
          before.planHash == PinOf(sha, if call.running.Some? then call.running.value else before.steps))
  }

  /** What a call aimed at a record does to it, given its answer. */
  ghost predicate Effect(sha: Bytes -> Digest, before: Option<Change>, e: Event, outcome: Outcome,
                         after: Option<Change>)
  {
    if outcome.Failure? then after == before
    else
      && after == Some(outcome.value)
      && if e.call.Propose? then before.None? && outcome.value == Fresh(e.call.change, e.now)
         else before.Some? && Moved(sha, e.call, e.now, before.value, outcome.value)
  }

  /** One event as seen by the record of `id`. */
  ghost predicate SeenBy(sha: Bytes -> Digest, id: string, records: Records, e: Event, result: (Records, Outcome)) {
    if Target(e.call) == id then Effect(sha, Lookup(records, id), e, result.1, Lookup(result.0, id))
    else Lookup(result.0, id) == Lookup(records, id)
  }

  /** A stepper that keeps some invariant `good` of the store and, in a good store, moves only
      the record a call is aimed at, and that one legally. */
  ghost predicate Lawful(sha: Bytes -> Digest, step: Stepper, good: Records -> bool) {
    && (forall records, e :: good(records) ==> good(step(records, e).0))
    && (forall records, e, id :: good(records) ==> SeenBy(sha, id, records, e, step(records, e)))
  }

  lemma AdvanceMoves(sha: Bytes -> Digest, call: Call, c: Change, now: Time)
    requires !call.Propose?
    ensures var outcome := Advance(c, Wanted(call), (d: Change) => Edit(sha, call, d), now);
            outcome.Success? ==> Valid(outcome.value) && Moved(sha, call, now, c, outcome.value)
  {
    LegalExactly(call, c.status, Wanted(call));
    var edited := Edit(sha, call, c);
    if edited.Success? && CanMoveTo(c.status, Wanted(call)) {
      EditMoves(sha, call, c, edited.value, now);
    }
  }

  lemma EditMoves(sha: Bytes -> Digest, call: Call, c: Change, edited: Change, now: Time)
    requires Edit(sha, call, c) == Success(edited) && Legal(call, c.status, Wanted(call))
    ensures Moved(sha, call, now, c, edited.(status := Wanted(call), updatedAt := now))
  {
  }

  lemma SavedEffect(records: Records, outcome: Outcome, io: Io, id: string)
    requires Sound(records) && (outcome.Success? ==> Valid(outcome.value))
    ensures var (after, answer) := Saved(records, outcome, io);
            && Sound(after) && (answer.Success? ==> answer == outcome)
            && Lookup(after, id) ==
                 if answer.Success? && outcome.value.id == id then Some(outcome.value) else Lookup(records, id)
  {
  }

  lemma MutateEffect(sha: Bytes -> Digest, records: Records, e: Event, id: string)
    requires Sound(records) && !e.call.Propose? && e.call.id in records
    ensures var result := Mutate(records, e.call.id, Wanted(e.call), (d: Change) => Edit(sha, e.call, d), e.now, e.io);
            Sound(result.0) && SeenBy(sha, id, records, e, result)
  {
    var c := records[e.call.id];
    AdvanceMoves(sha, e.call, c, e.now);
    SavedEffect(records, Advance(c, Wanted(e.call), (d: Change) => Edit(sha, e.call, d), e.now), e.io, id);
  }

  lemma ProposeEffect(sha: Bytes -> Digest, records: Records, e: Event, id: string)
    requires Sound(records) && e.call.Propose?
    ensures var result := ProposeCall(records, e.call.change, e.now, e.io);
            Sound(result.0) && SeenBy(sha, id, records, e, result)
  {
    if Valid(Fresh(e.call.change, e.now)) {
      SavedEffect(records, Success(Fresh(e.call.change, e.now)), e.io, id);
    }
  }

  /** One call touches only the record it is aimed at, and that one legally. */
  lemma StepEffect(sha: Bytes -> Digest, records: Records, e: Event, id: string)
    requires Sound(records)
    ensures Sound(Perform(sha, records, e.call, e.now, e.io).0)
    ensures SeenBy(sha, id, records, e, Perform(sha, records, e.call, e.now, e.io))
  {
    if e.call.Propose? {
      ProposeEffect(sha, records, e, id);
    } else if e.call.id in records {
      MutateEffect(sha, records, e, id);
    }
  }

  lemma ServiceIsLawful(sha: Bytes -> Digest) returns (good: Records -> bool)
    ensures Lawful(sha, Service(sha), good)
    ensures forall records :: good(records) <==> Sound(records)
    ensures good(map[])
  {
    var step := Service(sha);
    good := (records: Records) => Sound(records);
    forall records, e | good(records) ensures good(step(records, e).0) {
      StepEffect(sha, records, e, "");
    }
    forall records, e, id | good(records) ensures SeenBy(sha, id, records, e, step(records, e)) {
      StepEffect(sha, records, e, id);
    }
  }

  lemma {:induction false} RunStaysGood(sha: Bytes -> Digest, step: Stepper, good: Records -> bool, records: Records,
                                        es: seq<Event>)
    requires Lawful(sha, step, good) && good(records)
    ensures good(Run(step, records, es))
    decreases |es|
  {
    if es == [] {
    } else {
      RunStaysGood(sha, step, good, records, es[..|es|-1]);
    }
  }

  lemma RunSound(sha: Bytes -> Digest, records: Records, es: seq<Event>)
    requires Sound(records)
    ensures Sound(Run(Service(sha), records, es))
  {
    var good := ServiceIsLawful(sha);
    RunStaysGood(sha, Service(sha), good, records, es);
  }

  // ---------------------------------------------------------------------------
  // Final states and the length of a life
  // ---------------------------------------------------------------------------

  lemma {:induction false} FinalInRun(sha: Bytes -> Digest, step: Stepper, good: Records -> bool, records: Records,
                                      es: seq<Event>, id: string)
    requires Lawful(sha, step, good) && good(records) && id in records && Terminal(records[id].status)
    ensures Lookup(Run(step, records, es), id) == Some(records[id])
    decreases |es|
  {
    if es == [] {
    } else {
      var before, e := Run(step, records, es[..|es|-1]), es[|es|-1];
      FinalInRun(sha, step, good, records, es[..|es|-1], id);
      RunStaysGood(sha, step, good, records, es[..|es|-1]);
      assert SeenBy(sha, id, before, e, step(before, e));
    }
  }

  /** A denied, expired or reverted record is never altered again, in any field, by any call. */
  lemma TerminalIsFinal(sha: Bytes -> Digest, records: Records, es: seq<Event>, id: string)
    requires Sound(records) && id in records && records[id].status in {Denied, Expired, Reverted}
    ensures Lookup(Run(Service(sha), records, es), id) == Some(records[id])
  {
    var good := ServiceIsLawful(sha);
    FinalInRun(sha, Service(sha), good, records, es, id);
  }

  /** Where a record can stand after so many moves and approvals. */
  ghost predicate LifeSoFar(c: Option<Change>, moves: nat, approvals: nat) {
    match c
    case None => moves == 0 && approvals == 0
    case Some(c) =>
      && moves <= Rank(c.status) <= 5
      && approvals <= (if Rank(c.status) < 3 then 0 else 1)
      && (c.status == Applying || c.status == Applied ==> approvals == 1)
  }

  lemma LifeStep(sha: Bytes -> Digest, before: Option<Change>, e: Event, outcome: Outcome, after: Option<Change>,
                 moves: nat, approvals: nat)
    requires LifeSoFar(before, moves, approvals) && Effect(sha, before, e, outcome, after)
    ensures LifeSoFar(after, moves + (if !e.call.Propose? && outcome.Success? then 1 else 0),
                      approvals + (if e.call.Approve? && outcome.Success? then 1 else 0))
  {
    if outcome.Success? && !e.call.Propose? {
      LegalExactly(e.call, before.value.status, Wanted(e.call));
      MovesGoForward(before.value.status, Wanted(e.call));
    }
  }

  lemma {:induction false} LifeInRun(sha: Bytes -> Digest, step: Stepper, good: Records -> bool, es: seq<Event>,
                                     id: string)
    requires Lawful(sha, step, good) && good(map[])
    ensures LifeSoFar(Lookup(Run(step, map[], es), id), Moves(step, es, id), Approvals(step, es, id))
    decreases |es|
  {
    if es == [] {
    } else {
      var n := |es| - 1;
      var before, e := Run(step, map[], es[..n]), es[n];
      LifeInRun(sha, step, good, es[..n], id);
      RunStaysGood(sha, step, good, map[], es[..n]);
      var (after, outcome) := step(before, e);
      assert SeenBy(sha, id, before, e, step(before, e));
      if Target(e.call) == id {
        LifeStep(sha, Lookup(before, id), e, outcome, Lookup(after, id), Moves(step, es[..n], id),
          Approvals(step, es[..n], id));
      }
    }
  }

  /** No record makes more than five successful moves, and each is approved at most once. */
  lemma LifeIsShort(sha: Bytes -> Digest, es: seq<Event>, id: string)
    ensures Moves(Service(sha), es, id) <= 5 && Approvals(Service(sha), es, id) <= 1
  {
    var good := ServiceIsLawful(sha);
    LifeInRun(sha, Service(sha), good, es, id);
  }

  // ---------------------------------------------------------------------------
  // The pin
  // ---------------------------------------------------------------------------

  /** From preview on, the pin and the steps are those of the one preview there was; and a
      Change being applied or applied names whoever approved it. */
  ghost predicate PlanFixed(sha: Bytes -> Digest, c: Option<Change>, previewed: Option<seq<Step>>, previews: nat,
                            approver: Option<string>)
  {
    if c.None? || c.value.status == Proposed then previews == 0
    else
      && previews <= 1
      && (c.value.status in {Previewed, AwaitingApproval, Applying, Applied} ==>
            c.value.planHash == PinOf(sha, c.value.steps) && previewed == Some(c.value.steps) && previews == 1)
      && (c.value.status in {Applying, Applied} ==> c.value.decidedBy != "" && approver == Some(c.value.decidedBy))
  }

  lemma PlanStep(sha: Bytes -> Digest, before: Option<Change>, e: Event, outcome: Outcome, after: Option<Change>,
                 previewed: Option<seq<Step>>, previews: nat, approver: Option<string>)
    requires PlanFixed(sha, before, previewed, previews, approver) && Effect(sha, before, e, outcome, after)
    ensures PlanFixed(sha, after, if e.call.Preview? && outcome.Success? then Some(e.call.steps) else previewed,
                      previews + (if e.call.Preview? && outcome.Success? then 1 else 0),
                      if e.call.Approve? && outcome.Success? then Some(e.call.decidedBy) else approver)
  {
  }

  lemma {:induction false} PlanInRun(sha: Bytes -> Digest, step: Stepper, good: Records -> bool, es: seq<Event>,
                                     id: string)
    requires Lawful(sha, step, good) && good(map[])
    ensures PlanFixed(sha, Lookup(Run(step, map[], es), id), PreviewedSteps(step, es, id), Previews(step, es, id),
              Approver(step, es, id))
    decreases |es|
  {
    if es == [] {
    } else {
      var n := |es| - 1;
      var before, e := Run(step, map[], es[..n]), es[n];
      PlanInRun(sha, step, good, es[..n], id);
      RunStaysGood(sha, step, good, map[], es[..n]);
      var (after, outcome) := step(before, e);
      assert SeenBy(sha, id, before, e, step(before, e));
      if Target(e.call) == id {
        PlanStep(sha, Lookup(before, id), e, outcome, Lookup(after, id),
                 PreviewedSteps(step, es[..n], id), Previews(step, es[..n], id), Approver(step, es[..n], id));
      }
    }
  }

  /** In every run from an empty store, a Change that is being applied or has been applied names
      the one who approved it, was approved exactly once, and carries the plan of its single
      preview, pinned as previewed. */
  lemma AppliedAsReviewed(sha: Bytes -> Digest, es: seq<Event>, id: string, c: Change)
    requires Lookup(Run(Service(sha), map[], es), id) == Some(c) && (c.status == Applying || c.status == Applied)
    ensures c.decidedBy != "" && Approver(Service(sha), es, id) == Some(c.decidedBy) &&
              Approvals(Service(sha), es, id) == 1
    ensures c.planHash == PinOf(sha, c.steps)
    ensures PreviewedSteps(Service(sha), es, id) == Some(c.steps) && Previews(Service(sha), es, id) == 1
  {
    var good := ServiceIsLawful(sha);
    LifeInRun(sha, Service(sha), good, es, id);
    PlanInRun(sha, Service(sha), good, es, id);
  }

  lemma ApprovalInRun(sha: Bytes -> Digest, step: Stepper, good: Records -> bool, es: seq<Event>, e: Event)
    requires CollisionFree(sha) && Lawful(sha, step, good) && good(map[]) && e.call.Approve?
    requires step(Run(step, map[], es), e).1.Success?
    ensures var c, previewed := Lookup(Run(step, map[], es), e.call.id), PreviewedSteps(step, es, e.call.id);
            && c.Some? && previewed.Some? && c.value.steps == previewed.value
            && (e.call.running.Some? ==> Pinned(e.call.running.value) == Pinned(previewed.value))
  {
    var before, id := Run(step, map[], es), e.call.id;
    RunStaysGood(sha, step, good, map[], es);
    assert SeenBy(sha, id, before, e, step(before, e));
    PlanInRun(sha, step, good, es, id);
    if e.call.running.Some? {
      PinOfDetermines(sha, before[id].steps, e.call.running.value);
    }
  }

  lemma PinOfDetermines(sha: Bytes -> Digest, a: seq<Step>, b: seq<Step>)
    requires CollisionFree(sha)
    ensures PinOf(sha, a) == PinOf(sha, b) <==> Pinned(a) == Pinned(b)
  {
    PreimageInjective(a, b);
  }

  /** An approval goes through only for the plan that was previewed: the steps it hands in, if it
      does, agree with the previewed ones command by command and gate by gate, and otherwise the
      stored steps are the previewed ones. */
  lemma ApprovalRunsThePreviewedPlan(sha: Bytes -> Digest, es: seq<Event>, e: Event)
    requires CollisionFree(sha) && e.call.Approve?
    requires Service(sha)(Run(Service(sha), map[], es), e).1.Success?
    ensures var c := Lookup(Run(Service(sha), map[], es), e.call.id);
            var previewed := PreviewedSteps(Service(sha), es, e.call.id);
            && c.Some? && previewed.Some? && c.value.steps == previewed.value
            && (e.call.running.Some? ==> Pinned(e.call.running.value) == Pinned(previewed.value))
  {
    var good := ServiceIsLawful(sha);
    ApprovalInRun(sha, Service(sha), good, es, e);
  }

  // ---------------------------------------------------------------------------
  // When a call succeeds
  // ---------------------------------------------------------------------------

  /** What each call asks of the record beyond the legal move. Denying, expiring or failing a
      proposal asks for an honest inverse, which a proposal need not have. */
  predicate Grounds(sha: Bytes -> Digest, call: Call, c: Change) {
    match call
    case Propose(_) => false
    case Preview(_, steps, _, blast, inverse) =>
      && steps != [] && (forall i :: 0 <= i < |steps| ==> steps[i].argv != []) && inverse.Honest()
      && forall i :: 0 <= i < |blast| ==> blast[i].kind != "" && blast[i].count >= 0
    case RequestApproval(_) => c.planHash != ""
    case Approve(_, decidedBy, _, running) =>
      && decidedBy != "" && c.planHash != ""
      && c.planHash == PinOf(sha, if running.Some? then running.value else c.steps)
    case Deny(_, decidedBy, _) => decidedBy != "" && c.inverse.Honest()
    case Expire(_, _) => c.inverse.Honest()
    case MarkApplied(_) => true
    case MarkFailed(_, _) => c.inverse.Honest()
    case Revert(_, decidedBy) => decidedBy != "" && Revertible(c)
  }

  /** Why a call that asks for something its record does not have is refused. */
  function Refusal(call: Call): Error {
    if call.Approve? && call.decidedBy != "" then PinMismatch else InvalidInput
  }

  lemma AdvancesExactly(sha: Bytes -> Digest, call: Call, c: Change, now: Time)
    requires Valid(c) && !call.Propose?
    ensures var outcome := Advance(c, Wanted(call), (d: Change) => Edit(sha, call, d), now);
            if !(exists after :: Legal(call, c.status, after)) then outcome == Failure(InvalidTransition)
            else if !Grounds(sha, call, c) then outcome == Failure(Refusal(call))
            else outcome.Success?
  {
    LegalExactly(call, c.status, Wanted(call));
    if CanMoveTo(c.status, Wanted(call)) {
      assert Legal(call, c.status, Wanted(call));
      if c.status != Proposed {
        assert c.inverse.Honest();
      }
    }
  }

  /** How a call on any store is answered: by the first of these that applies. */
  lemma AnsweredExactly(sha: Bytes -> Digest, records: Records, e: Event)
    requires Sound(records) && !e.call.Propose?
    ensures var outcome := Perform(sha, records, e.call, e.now, e.io).1;
            if e.io.loadFails then outcome == Failure(StoreFailed)
            else if e.call.id !in records then outcome == Failure(NotFound)
            else if !(exists after :: Legal(e.call, records[e.call.id].status, after)) then
              outcome == Failure(InvalidTransition)
            else if !Grounds(sha, e.call, records[e.call.id]) then outcome == Failure(Refusal(e.call))
            else if e.io.saveFails then outcome == Failure(StoreFailed)
            else outcome.Success?
  {
    if e.call.id in records {
      AdvancesExactly(sha, e.call, records[e.call.id], e.now);
    }
  }

  /** A call on a stored record succeeds exactly when the store works, the move is legal and the
      call's own grounds hold. */
  lemma SucceedsExactly(sha: Bytes -> Digest, records: Records, e: Event)
    requires Sound(records) && !e.call.Propose? && e.call.id in records
    ensures var c := records[e.call.id];
            Perform(sha, records, e.call, e.now, e.io).1.Success?
            <==> !e.io.loadFails && !e.io.saveFails && (exists after :: Legal(e.call, c.status, after)) &&
                 Grounds(sha, e.call, c)
  {
    AnsweredExactly(sha, records, e);
  }

  /** When a proposal is taken, from its own fields and the store. */
  predicate Proposable(c: Change) {
    && 1 <= |c.id| <= 64 && c.id[0] != '-' && c.id[|c.id|-1] != '-'
    && (forall i :: 0 <= i < |c.id| ==> 'a' <= c.id[i] <= 'z' || '0' <= c.id[i] <= '9' || c.id[i] == '-')
    && (exists i :: 0 <= i < |c.intent| && !IsSpace(c.intent[i])) && Utf8Length(c.intent) <= 4096
    && c.proposer.kind in {"agent", "human"} && c.proposer.name != ""
    && (forall i :: 0 <= i < |c.blast| ==> c.blast[i].kind != "" && c.blast[i].count >= 0)
    && (forall i :: 0 <= i < |c.steps| ==> c.steps[i].argv != [])
  }

  /** How a proposal is answered: by the first of these that applies. An inverse is not asked for. */
  lemma ProposeAnsweredExactly(sha: Bytes -> Digest, records: Records, c: Change, now: Time, io: Io)
    ensures var (after, outcome) := Perform(sha, records, Propose(c), now, io);
            if !Proposable(c) then outcome == Failure(InvalidInput)
            else if io.loadFails then outcome == Failure(StoreFailed)
            else if c.id in records then outcome == Failure(InvalidInput)
            else if io.saveFails then outcome == Failure(StoreFailed)
            else outcome == Success(c.(status := Proposed, createdAt := now, updatedAt := now))
  {
    ProposableExactly(c, now);
  }

  lemma ProposableExactly(c: Change, now: Time)
    ensures Valid(Fresh(c, now)) <==> Proposable(c)
  {
  }

  /** An inverse is honest if it names a way back and has steps for it, or says, in words, that
      there is none and has no steps. */
  lemma HonestExactly(i: Inverse)
    ensures i.Honest() <==>
      || (i.kind == "none" && i.steps == [] && exists k :: 0 <= k < |i.reason| && !IsSpace(i.reason[k]))
      || (i.kind != "none" && i.kind != "" && i.steps != [])
  {
  }

  lemma RevertibleExactly(c: Change)
    ensures Revertible(c) <==>
              (c.status == Applied || c.status == Failed) && c.inverse.kind != "" && c.inverse.kind != "none"
  {
  }

  /** In every run an approval succeeds exactly when the store works, the Change is previewed or
      awaiting, someone is named, and the steps handed in, if any, are those previewed. */
  lemma ApprovalSucceedsExactly(sha: Bytes -> Digest, es: seq<Event>, e: Event)
    requires CollisionFree(sha) && e.call.Approve?
    ensures var records, id := Run(Service(sha), map[], es), e.call.id;
            var previewed := PreviewedSteps(Service(sha), es, id);
            Service(sha)(records, e).1.Success? <==>
              && !e.io.loadFails && !e.io.saveFails && e.call.decidedBy != ""
              && id in records && records[id].status in {Previewed, AwaitingApproval} && previewed.Some?
              && (e.call.running.Some? ==> Pinned(e.call.running.value) == Pinned(previewed.value))
  {
    var records, id := Run(Service(sha), map[], es), e.call.id;
    var good := ServiceIsLawful(sha);
    RunStaysGood(sha, Service(sha), good, map[], es);
    PlanInRun(sha, Service(sha), good, es, id);
    if id in records {
      SucceedsExactly(sha, records, e);
      ApprovalGrounds(sha, e.call, records[id], PreviewedSteps(Service(sha), es, id));
    }
  }

  lemma ApprovalGrounds(sha: Bytes -> Digest, call: Call, c: Change, previewed: Option<seq<Step>>)
    requires CollisionFree(sha) && call.Approve?
    requires c.status in {Previewed, AwaitingApproval} ==>
               c.planHash == PinOf(sha, c.steps) && previewed == Some(c.steps)
    ensures (exists after :: Legal(call, c.status, after)) <==> c.status in {Previewed, AwaitingApproval}
    ensures c.status in {Previewed, AwaitingApproval} ==>
              (Grounds(sha, call, c) <==>
               call.decidedBy != "" && (call.running.Some? ==> Pinned(call.running.value) == Pinned(c.steps)))
  {
    assert Legal(call, c.status, Applying) <==> c.status in {Previewed, AwaitingApproval};
    if call.running.Some? {
      PinOfDetermines(sha, c.steps, call.running.value);
    }
  }

  // ---------------------------------------------------------------------------
  // Where the code does less than its words
  // ---------------------------------------------------------------------------

  lemma FailedInRun(sha: Bytes -> Digest, step: Stepper, good: Records -> bool, es: seq<Event>, e: Event)
    requires Lawful(sha, step, good) && good(map[]) && e.call.MarkFailed? && step(Run(step, map[], es), e).1.Success?
    ensures var c := Lookup(Run(step, map[], es), e.call.id);
            && c.Some?
            && Approvals(step, es, e.call.id) == if c.value.status == Applying then 1 else 0
  {
    var before, id := Run(step, map[], es), e.call.id;
    RunStaysGood(sha, step, good, map[], es);
    assert SeenBy(sha, id, before, e, step(before, e));
    LifeInRun(sha, step, good, es, id);
  }

  /** A Change marked failed did run exactly when it was being applied at that moment: otherwise
      nobody had approved it. */
  lemma FailedRanExactly(sha: Bytes -> Digest, es: seq<Event>, e: Event)
    requires e.call.MarkFailed? && Service(sha)(Run(Service(sha), map[], es), e).1.Success?
    ensures var c := Lookup(Run(Service(sha), map[], es), e.call.id);
            && c.Some?
            && Approvals(Service(sha), es, e.call.id) == if c.value.status == Applying then 1 else 0
  {
    var good := ServiceIsLawful(sha);
    FailedInRun(sha, Service(sha), good, es, e);
  }

  lemma FailSucceeds(sha: Bytes -> Digest, records: Records, id: string, reason: string, io: Io)
    requires id in records && records[id].id == id && Valid(records[id])
    requires records[id].status == Proposed && records[id].inverse.Honest() && !io.loadFails && !io.saveFails
    ensures var failed := records[id].(failureReason := reason, status := Failed, updatedAt := 0);
            Valid(failed) &&
              Perform(sha, records, MarkFailed(id, reason), 0, io) == (records[id := failed], Success(failed))
  {
  }

  lemma RevertSucceeds(sha: Bytes -> Digest, records: Records, id: string, decider: string, io: Io)
    requires id in records && Valid(records[id]) && Revertible(records[id]) && decider != ""
    requires !io.loadFails && !io.saveFails
    ensures Perform(sha, records, Revert(id, decider), 0, io).1 ==
              Success(records[id].(status := Reverted, updatedAt := 0))
  {
    assert Valid(records[id].(status := Reverted, updatedAt := 0));
  }

  /** A proposal nobody approved, with a runnable inverse, can be marked failed and then reverted. */
  lemma RevertedWithoutApproval(sha: Bytes -> Digest, records: Records, id: string, reason: string, decider: string,
                                io: Io)
    requires Sound(records) && id in records && records[id].status == Proposed && records[id].inverse.Honest()
    requires records[id].inverse.Available() && decider != "" && !io.loadFails && !io.saveFails
    ensures var failed := Perform(sha, records, MarkFailed(id, reason), 0, io).0;
            var (after, outcome) := Perform(sha, failed, Revert(id, decider), 0, io);
            outcome.Success? && outcome.value.status == Reverted && outcome.value.decidedBy == records[id].decidedBy
  {
    FailSucceeds(sha, records, id, reason, io);
    RevertSucceeds(sha, Perform(sha, records, MarkFailed(id, reason), 0, io).0, id, decider, io);
  }
}
