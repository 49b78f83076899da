/**
  The Change service under concurrency. Calls that move a record take the mutex, load, save
  and release as separate steps; a proposal loads and saves without the mutex. Any scheduler
  may interleave the steps of any number of calls.
 */
module ConcurrentCalls {
  import opened Prelude
  import opened Pin
  import opened Lifecycle
  import opened LifecycleRuns

  /** Where one call stands. `Done` and `Releasing` remember the log entry of its answer. */
  datatype Thread =
    | Waiting
    | Holding
    | HasRead(c: Change)
    | Releasing(entry: nat)
    | Checked(started: Time)
    | Done(entry: nat)

  datatype Entry = Entry(thread: nat, event: Event, outcome: Outcome)

  /** The log is for reasoning only: it notes each answer at the moment it is settled. */
  datatype System = System(records: Records, lock: Option<nat>, threads: seq<Thread>, log: seq<Entry>)

  /** One scheduling choice: which call takes its next step, at what time, with what luck. */
  datatype Action = Action(thread: nat, now: Time, io: Io)

  function Start(records: Records, calls: seq<Call>): System {
    System(records, None, seq(|calls|, _ => Waiting), [])
  }

  function Settle(sys: System, t: nat, event: Event, outcome: Outcome, records: Records, lock: Option<nat>,
                  releasing: bool): System
    requires t < |sys.threads|
  {
    var k := |sys.log|;
    System(records, lock, sys.threads[t := if releasing then Releasing(k) else Done(k)],
           sys.log + [Entry(t, event, outcome)])
  }

  function ProposeStep(sys: System, t: nat, call: Call, now: Time, io: Io): System
    requires t < |sys.threads| && call.Propose?
  {
    match sys.threads[t]
    case Waiting =>
      if !Valid(Fresh(call.change, now)) then
        Settle(sys, t, Event(call, now, io), Failure(InvalidInput), sys.records, sys.lock, false)
      else if io.loadFails then
        Settle(sys, t, Event(call, now, io), Failure(StoreFailed), sys.records, sys.lock, false)
      else if call.change.id in sys.records then
        Settle(sys, t, Event(call, now, io), Failure(InvalidInput), sys.records, sys.lock, false)
      else sys.(threads := sys.threads[t := Checked(now)])
    case Checked(started) =>
      var (records, outcome) := Saved(sys.records, Success(Fresh(call.change, started)), io);
      Settle(sys, t, Event(call, started, Io(false, io.saveFails)), outcome, records, sys.lock, false)
    case _ => sys
  }

  function MutateStep(sha: Bytes -> Digest, sys: System, t: nat, call: Call, now: Time, io: Io): System
    requires t < |sys.threads| && !call.Propose?
  {
    match sys.threads[t]
    case Waiting =>
      if sys.lock.None? then sys.(lock := Some(t), threads := sys.threads[t := Holding]) else sys
    case Holding =>
      if io.loadFails then
        Settle(sys, t, Event(call, now, io), Failure(StoreFailed), sys.records, sys.lock, true)
      else if call.id !in sys.records then
        Settle(sys, t, Event(call, now, io), Failure(NotFound), sys.records, sys.lock, true)
      else sys.(threads := sys.threads[t := HasRead(sys.records[call.id])])
    case HasRead(c) =>
      var moved := Advance(c, Wanted(call), (d: Change) => Edit(sha, call, d), now);
      var (records, outcome) := Saved(sys.records, moved, io);
      Settle(sys, t, Event(call, now, Io(false, io.saveFails)), outcome, records, sys.lock, true)
    case Releasing(k) => sys.(lock := None, threads := sys.threads[t := Done(k)])
    case _ => sys
  }

  function Next(sha: Bytes -> Digest, calls: seq<Call>, sys: System, a: Action): System
    requires |sys.threads| == |calls|
  {
    if a.thread >= |calls| then sys
    else if calls[a.thread].Propose? then ProposeStep(sys, a.thread, calls[a.thread], a.now, a.io)
    else MutateStep(sha, sys, a.thread, calls[a.thread], a.now, a.io)
  }

  function Schedule(sha: Bytes -> Digest, calls: seq<Call>, sys: System, actions: seq<Action>): (r: System)
    requires |sys.threads| == |calls|
    ensures |r.threads| == |calls|
    decreases |actions|
  {
    if actions == [] then sys
    else Next(sha, calls, Schedule(sha, calls, sys, actions[..|actions|-1]), actions[|actions|-1])
  }

  /** A proposal the service would take, whenever it is made. */
  predicate Acceptable(c: Change) { Valid(Fresh(c, 0)) }

  /** Two acceptable proposals of one id. */
  predicate Clash(a: Change, b: Change) {
    a.id == b.id && Acceptable(a) && Acceptable(b)
  }

  /** No two acceptable proposals among the calls are of the same id. */
  ghost predicate ProposedOnce(calls: seq<Call>) {
    forall i, j :: 0 <= i < |calls| && 0 <= j < |calls| && i != j && calls[i].Propose? && calls[j].Propose? ==>
      !Clash(calls[i].change, calls[j].change)
  }

  lemma AcceptableAnyTime(c: Change, now: Time)
    ensures Valid(Fresh(c, now)) == Acceptable(c)
  {
  }

  /** Whatever another call does, it cannot take the id of a proposal that has looked. */
  lemma OthersLeaveTheGap(sha: Bytes -> Digest, records: Records, e: Event, c: Change)
    requires Sound(records) && Acceptable(c) && c.id !in records
    requires e.call.Propose? ==> !Clash(e.call.change, c)
    ensures c.id !in Perform(sha, records, e.call, e.now, e.io).0
  {
    if e.call.Propose? {
      AcceptableAnyTime(e.call.change, e.now);
    } else {
      StepEffect(sha, records, e, c.id);
    }
  }

  function Events(log: seq<Entry>): (es: seq<Event>)
    ensures |es| == |log|
  {
    seq(|log|, i requires 0 <= i < |log| => log[i].event)
  }

  /** Each logged answer is the one a sequential run gives at that place. */
  ghost predicate Answered(step: Stepper, past: seq<Event>, log: seq<Entry>) {
    forall k :: 0 <= k < |log| ==> log[k].outcome == Answer(step, map[], past + Events(log), |past| + k)
  }

  /** The store and every answer are those of the logged calls made one after the other. */
  ghost predicate Linear(step: Stepper, past: seq<Event>, log: seq<Entry>, records: Records) {
    && records == Run(step, map[], past + Events(log))
    && Answered(step, past, log)
  }

  /** What each step may count on about one call. */
  ghost predicate ThreadOk(sys: System, call: Call, t: nat)
    requires t < |sys.threads|
  {
    match sys.threads[t]
    case Waiting => true
    case Holding => !call.Propose? && sys.lock == Some(t)
    case HasRead(c) => !call.Propose? && sys.lock == Some(t) && Lookup(sys.records, call.id) == Some(c)
    case Releasing(k) =>
      !call.Propose? && sys.lock == Some(t) && k < |sys.log| && sys.log[k].thread == t && sys.log[k].event.call == call
    case Checked(started) => call.Propose? && Valid(Fresh(call.change, started)) && call.change.id !in sys.records
    case Done(k) => k < |sys.log| && sys.log[k].thread == t && sys.log[k].event.call == call
  }

  ghost predicate Inv(sha: Bytes -> Digest, calls: seq<Call>, past: seq<Event>, sys: System) {
    && |sys.threads| == |calls| && Sound(sys.records)
    && Linear(Service(sha), past, sys.log, sys.records)
    && forall t :: 0 <= t < |calls| ==> ThreadOk(sys, calls[t], t)
  }

  lemma {:induction false} RunExtends(step: Stepper, es: seq<Event>, e: Event)
    ensures Run(step, map[], es + [e]) == step(Run(step, map[], es), e).0
    ensures Answer(step, map[], es + [e], |es|) == step(Run(step, map[], es), e).1
    ensures forall k: nat :: k < |es| ==> Answer(step, map[], es + [e], k) == Answer(step, map[], es, k)
  {
    assert (es + [e])[..|es|] == es;
    forall k: nat | k < |es| ensures Answer(step, map[], es + [e], k) == Answer(step, map[], es, k) {
      assert (es + [e])[..k] == es[..k];
    }
  }

  /** An answer that a sequential call would give in the current store keeps the log linear. */
  lemma LinearGrows(step: Stepper, past: seq<Event>, log: seq<Entry>, records: Records, entry: Entry, records': Records)
    requires Linear(step, past, log, records)
    requires (records', entry.outcome) == step(records, entry.event)
    ensures Linear(step, past, log + [entry], records')
  {
    var es, longer := past + Events(log), log + [entry];
    RunExtends(step, es, entry.event);
    assert past + Events(longer) == es + [entry.event];
    forall k | 0 <= k < |longer| ensures longer[k].outcome == Answer(step, map[], es + [entry.event], |past| + k) {
      if k < |log| {
        assert longer[k] == log[k];
      }
    }
  }

  lemma SettleInv(sha: Bytes -> Digest, calls: seq<Call>, past: seq<Event>, sys: System, t: nat, event: Event,
                  outcome: Outcome, records: Records, releasing: bool)
    requires Inv(sha, calls, past, sys) && t < |calls| && event.call == calls[t] && ProposedOnce(calls)
    requires (records, outcome) == Perform(sha, sys.records, event.call, event.now, event.io)
    requires releasing ==> !calls[t].Propose? && sys.lock == Some(t)
    requires !releasing ==> calls[t].Propose?
    ensures Inv(sha, calls, past, Settle(sys, t, event, outcome, records, sys.lock, releasing))
  {
    var after := Settle(sys, t, event, outcome, records, sys.lock, releasing);
    LinearGrows(Service(sha), past, sys.log, sys.records, Entry(t, event, outcome), records);
    StepEffect(sha, sys.records, event, "");
    forall u | 0 <= u < |calls| ensures ThreadOk(after, calls[u], u) {
      if u != t {
        assert ThreadOk(sys, calls[u], u);
        if sys.threads[u].Checked? {
          AcceptableAnyTime(calls[u].change, sys.threads[u].started);
          OthersLeaveTheGap(sha, sys.records, event, calls[u].change);
        } else {
          StepEffect(sha, sys.records, event, Target(calls[u]));
        }
      }
    }
  }

  lemma StepInv(sha: Bytes -> Digest, calls: seq<Call>, past: seq<Event>, sys: System, a: Action)
    requires Inv(sha, calls, past, sys) && ProposedOnce(calls)
    ensures Inv(sha, calls, past, Next(sha, calls, sys, a))
  {
    if a.thread < |calls| {
      var t, call := a.thread, calls[a.thread];
      assert ThreadOk(sys, call, t);
      if call.Propose? {
        ProposeInv(sha, calls, past, sys, t, a.now, a.io);
      } else {
        MutateInv(sha, calls, past, sys, t, a.now, a.io);
      }
    }
  }

  lemma ProposeInv(sha: Bytes -> Digest, calls: seq<Call>, past: seq<Event>, sys: System, t: nat, now: Time, io: Io)
    requires Inv(sha, calls, past, sys) && ProposedOnce(calls)
    requires t < |calls| && calls[t].Propose? && ThreadOk(sys, calls[t], t)
    ensures Inv(sha, calls, past, ProposeStep(sys, t, calls[t], now, io))
  {
    var call := calls[t];
    match sys.threads[t]
    case Waiting =>
      if Valid(Fresh(call.change, now)) && !io.loadFails && call.change.id !in sys.records {
        MoveOn(sha, calls, past, sys, sys.lock, t, Checked(now));
      } else {
        SettleInv(sha, calls, past, sys, t, Event(call, now, io), Perform(sha, sys.records, call, now, io).1,
          sys.records, false);
      }
    case Checked(started) =>
      var (records, outcome) := Saved(sys.records, Success(Fresh(call.change, started)), io);
      SettleInv(sha, calls, past, sys, t, Event(call, started, Io(false, io.saveFails)), outcome, records, false);
    case _ =>
  }

  lemma MutateInv(sha: Bytes -> Digest, calls: seq<Call>, past: seq<Event>, sys: System, t: nat, now: Time, io: Io)
    requires Inv(sha, calls, past, sys) && ProposedOnce(calls)
    requires t < |calls| && !calls[t].Propose? && ThreadOk(sys, calls[t], t)
    ensures Inv(sha, calls, past, MutateStep(sha, sys, t, calls[t], now, io))
  {
    var call := calls[t];
    match sys.threads[t]
    case Waiting =>
      if sys.lock.None? {
        MoveOn(sha, calls, past, sys, Some(t), t, Holding);
      }
    case Holding =>
      if io.loadFails || call.id !in sys.records {
        SettleInv(sha, calls, past, sys, t, Event(call, now, io), Perform(sha, sys.records, call, now, io).1,
          sys.records, true);
      } else {
        MoveOn(sha, calls, past, sys, sys.lock, t, HasRead(sys.records[call.id]));
      }
    case HasRead(c) =>
      var moved := Advance(c, Wanted(call), (d: Change) => Edit(sha, call, d), now);
      var (records, outcome) := Saved(sys.records, moved, io);
      SettleInv(sha, calls, past, sys, t, Event(call, now, Io(false, io.saveFails)), outcome, records, true);
    case Releasing(k) => MoveOn(sha, calls, past, sys, None, t, Done(k));
    case _ =>
  }

  /** A step that neither answers nor touches the store. */
  lemma MoveOn(sha: Bytes -> Digest, calls: seq<Call>, past: seq<Event>, sys: System, lock: Option<nat>, t: nat,
               state: Thread)
    requires Inv(sha, calls, past, sys) && t < |calls|
    requires lock == sys.lock || (sys.lock == None && lock == Some(t)) || (sys.lock == Some(t) && lock == None)
    requires ThreadOk(sys.(lock := lock, threads := sys.threads[t := state]), calls[t], t)
    ensures Inv(sha, calls, past, sys.(lock := lock, threads := sys.threads[t := state]))
  {
    var after := sys.(lock := lock, threads := sys.threads[t := state]);
    forall u | 0 <= u < |calls| ensures ThreadOk(after, calls[u], u) {
      assert ThreadOk(sys, calls[u], u);
    }
  }

  lemma {:induction false} ScheduleInv(sha: Bytes -> Digest, calls: seq<Call>, past: seq<Event>, actions: seq<Action>)
    requires ProposedOnce(calls)
    ensures Inv(sha, calls, past, Schedule(sha, calls, Start(Run(Service(sha), map[], past), calls), actions))
    decreases |actions|
  {
    var start := Start(Run(Service(sha), map[], past), calls);
    if actions == [] {
      RunSound(sha, map[], past);
      assert past + Events([]) == past;
    } else {
      var n := |actions| - 1;
      ScheduleInv(sha, calls, past, actions[..n]);
      StepInv(sha, calls, past, Schedule(sha, calls, start, actions[..n]), actions[n]);
    }
  }

  /** The call of thread `t` has its answer. */
  predicate Finished(sys: System, t: nat) {
    t < |sys.threads| && (sys.threads[t].Done? || sys.threads[t].Releasing?)
  }

  /** The call of thread `t` has been answered with success. */
  ghost predicate Succeeded(sys: System, t: nat) {
    Finished(sys, t) && sys.threads[t].entry < |sys.log| && sys.log[sys.threads[t].entry].outcome.Success?
  }

  /** Entry `k` of the log is the answer of a finished call, which points back to it. */
  ghost predicate Owned(calls: seq<Call>, sys: System, k: nat)
    requires |sys.threads| == |calls| && k < |sys.log|
  {
    var t := sys.log[k].thread;
    Finished(sys, t) && sys.threads[t].entry == k && sys.log[k].event.call == calls[t]
  }

  /** The log and the finished calls correspond one to one. */
  ghost predicate LogOwned(calls: seq<Call>, sys: System) {
    && |sys.threads| == |calls|
    && (forall k :: 0 <= k < |sys.log| ==> Owned(calls, sys, k))
    && (forall t :: 0 <= t < |calls| && Finished(sys, t) ==> sys.threads[t].entry < |sys.log|)
  }

  /** A step touches one thread. It adds that thread's answer to the log, or neither changes the
      log nor whether and where the thread is answered. */
  ghost predicate Tame(calls: seq<Call>, sys: System, after: System, t: nat)
    requires |sys.threads| == |calls| && t < |calls|
  {
    && |after.threads| == |calls|
    && (forall u :: 0 <= u < |calls| && u != t ==> after.threads[u] == sys.threads[u])
    && (Finished(sys, t) || !Finished(after, t) ==> after.log == sys.log)
    && (Finished(sys, t) ==> Finished(after, t) && after.threads[t].entry == sys.threads[t].entry)
    && (!Finished(sys, t) && Finished(after, t) ==>
          && after.threads[t].entry == |sys.log| && |after.log| == |sys.log| + 1 && sys.log == after.log[..|sys.log|]
          && after.log[|sys.log|].thread == t && after.log[|sys.log|].event.call == calls[t])
  }

  lemma ProposeIsTame(calls: seq<Call>, sys: System, t: nat, now: Time, io: Io)
    requires |sys.threads| == |calls| && t < |calls| && calls[t].Propose?
    ensures Tame(calls, sys, ProposeStep(sys, t, calls[t], now, io), t)
  {
  }

  lemma MutateIsTame(sha: Bytes -> Digest, calls: seq<Call>, sys: System, t: nat, now: Time, io: Io)
    requires |sys.threads| == |calls| && t < |calls| && !calls[t].Propose?
    ensures Tame(calls, sys, MutateStep(sha, sys, t, calls[t], now, io), t)
  {
  }

  lemma NextIsTame(sha: Bytes -> Digest, calls: seq<Call>, sys: System, a: Action)
    requires |sys.threads| == |calls| && a.thread < |calls|
    ensures Tame(calls, sys, Next(sha, calls, sys, a), a.thread)
  {
    if calls[a.thread].Propose? {
      ProposeIsTame(calls, sys, a.thread, a.now, a.io);
    } else {
      MutateIsTame(sha, calls, sys, a.thread, a.now, a.io);
    }
  }

  lemma TameOwned(calls: seq<Call>, sys: System, after: System, t: nat)
    requires LogOwned(calls, sys) && t < |calls| && Tame(calls, sys, after, t)
    ensures LogOwned(calls, after)
  {
    forall k | 0 <= k < |after.log| ensures Owned(calls, after, k) {
      if k < |sys.log| {
        assert Owned(calls, sys, k) && after.log[k] == sys.log[k];
      }
    }
    forall u | 0 <= u < |calls| && Finished(after, u) ensures after.threads[u].entry < |after.log| {
      if u != t {
        assert Finished(sys, u);
      }
    }
  }

  lemma StepOwned(sha: Bytes -> Digest, calls: seq<Call>, sys: System, a: Action)
    requires LogOwned(calls, sys)
    ensures LogOwned(calls, Next(sha, calls, sys, a))
  {
    if a.thread < |calls| {
      NextIsTame(sha, calls, sys, a);
      TameOwned(calls, sys, Next(sha, calls, sys, a), a.thread);
    }
  }

  lemma {:induction false} ScheduleOwned(sha: Bytes -> Digest, calls: seq<Call>, records: Records, actions: seq<Action>)
    ensures LogOwned(calls, Schedule(sha, calls, Start(records, calls), actions))
    decreases |actions|
  {
    if actions == [] {
    } else {
      var n := |actions| - 1;
      ScheduleOwned(sha, calls, records, actions[..n]);
      StepOwned(sha, calls, Schedule(sha, calls, Start(records, calls), actions[..n]), actions[n]);
    }
  }

  /** The log holds each finished call once and nothing else; the store is that of the logged
      calls made one after the other, and each finished call got its answer there. */
  ghost predicate Sequential(sha: Bytes -> Digest, calls: seq<Call>, past: seq<Event>, sys: System) {
    var es := past + Events(sys.log);
    && |sys.threads| == |calls|
    && sys.records == Run(Service(sha), map[], es)
    && LogOwned(calls, sys)
    && forall t :: 0 <= t < |calls| && Finished(sys, t) ==>
         var k := sys.threads[t].entry;
         k < |sys.log| && sys.log[k].thread == t && sys.log[k].event.call == calls[t]
         && sys.log[k].outcome == Answer(Service(sha), map[], es, |past| + k)
  }

  lemma InvIsSequential(sha: Bytes -> Digest, calls: seq<Call>, past: seq<Event>, sys: System)
    requires Inv(sha, calls, past, sys) && LogOwned(calls, sys)
    ensures Sequential(sha, calls, past, sys)
  {
    forall t | 0 <= t < |calls| && Finished(sys, t)
      ensures var k := sys.threads[t].entry;
              k < |sys.log| && sys.log[k].thread == t && sys.log[k].event.call == calls[t]
    {
      assert ThreadOk(sys, calls[t], t);
    }
  }

  // Real time

  /** Between two moments of one schedule answers are only added: a call answered by then keeps
      its place, and one answered since has a later place. */
  ghost predicate Extends(before: System, after: System) {
    && |after.threads| == |before.threads| && |before.log| <= |after.log|
    && forall t :: 0 <= t < |before.threads| ==>
         if Finished(before, t) then Finished(after, t) && after.threads[t].entry == before.threads[t].entry
         else Finished(after, t) ==> after.threads[t].entry >= |before.log|
  }

  lemma TameExtends(calls: seq<Call>, before: System, sys: System, after: System, t: nat)
    requires |sys.threads| == |calls| && t < |calls| && Extends(before, sys) && Tame(calls, sys, after, t)
    ensures Extends(before, after)
  {
  }

  lemma StepExtends(sha: Bytes -> Digest, calls: seq<Call>, before: System, sys: System, a: Action)
    requires |sys.threads| == |calls| && Extends(before, sys)
    ensures Extends(before, Next(sha, calls, sys, a))
  {
    if a.thread < |calls| {
      NextIsTame(sha, calls, sys, a);
      TameExtends(calls, before, sys, Next(sha, calls, sys, a), a.thread);
    }
  }

  lemma {:induction false} ScheduleExtends(sha: Bytes -> Digest, calls: seq<Call>, sys: System, actions: seq<Action>)
    requires |sys.threads| == |calls|
    ensures Extends(sys, Schedule(sha, calls, sys, actions))
    decreases |actions|
  {
    if actions == [] {
    } else {
      var n := |actions| - 1;
      ScheduleExtends(sha, calls, sys, actions[..n]);
      StepExtends(sha, calls, sys, Schedule(sha, calls, sys, actions[..n]), actions[n]);
    }
  }

  /** A call already answered precedes, in the log, every call answered only later. */
  ghost predicate RealTime(earlier: System, later: System) {
    forall t: nat, u: nat :: Finished(earlier, t) && !Finished(earlier, u) && Finished(later, u) ==>
      Finished(later, t) && later.threads[t].entry < later.threads[u].entry
  }

  lemma ExtendsKeepsOrder(calls: seq<Call>, earlier: System, later: System)
    requires LogOwned(calls, earlier) && Extends(earlier, later)
    ensures RealTime(earlier, later)
  {
  }

  lemma KeepsRealTime(sha: Bytes -> Digest, calls: seq<Call>, records: Records, actions: seq<Action>, n: nat)
    requires n <= |actions|
    ensures var start := Start(records, calls);
            RealTime(Schedule(sha, calls, start, actions[..n]), Schedule(sha, calls, start, actions))
  {
    var start := Start(records, calls);
    var earlier := Schedule(sha, calls, start, actions[..n]);
    ScheduleOwned(sha, calls, records, actions[..n]);
    ScheduleExtends(sha, calls, earlier, actions[n..]);
    ScheduleConcat(sha, calls, start, actions[..n], actions[n..]);
    assert actions[..n] + actions[n..] == actions;
    ExtendsKeepsOrder(calls, earlier, Schedule(sha, calls, start, actions));
  }

  /** Every schedule of calls of which no two are acceptable proposals of one id is equivalent to
      making the answered calls one after the other, each once: same store, same answers, and a
      call answered before another was answered comes before it. So everything proved of
      sequential runs holds under concurrency. */
  lemma Linearizable(sha: Bytes -> Digest, calls: seq<Call>, past: seq<Event>, actions: seq<Action>)
    requires ProposedOnce(calls)
    ensures var start := Start(Run(Service(sha), map[], past), calls);
            var sys := Schedule(sha, calls, start, actions);
            && Sequential(sha, calls, past, sys)
            && forall n :: 0 <= n <= |actions| ==> RealTime(Schedule(sha, calls, start, actions[..n]), sys)
  {
    var start := Start(Run(Service(sha), map[], past), calls);
    var sys := Schedule(sha, calls, start, actions);
    ScheduleInv(sha, calls, past, actions);
    ScheduleOwned(sha, calls, Run(Service(sha), map[], past), actions);
    InvIsSequential(sha, calls, past, sys);
    forall n | 0 <= n <= |actions| ensures RealTime(Schedule(sha, calls, start, actions[..n]), sys) {
      KeepsRealTime(sha, calls, Run(Service(sha), map[], past), actions, n);
    }
  }

  /** An entry of the log is a successful approval of `id`. */
  predicate ApprovalOf(e: Entry, id: string) {
    e.event.call.Approve? && e.event.call.id == id && e.outcome.Success?
  }

  ghost predicate ApprovedOnce(log: seq<Entry>, id: string) {
    forall i, j :: 0 <= i < j < |log| && ApprovalOf(log[i], id) ==> !ApprovalOf(log[j], id)
  }

  /** How many approvals of `id` the log shows. */
  function ApprovalsIn(log: seq<Entry>, id: string): nat {
    if log == [] then 0
    else ApprovalsIn(log[..|log|-1], id) + if ApprovalOf(log[|log|-1], id) then 1 else 0
  }

  lemma AnsweredPrefix(step: Stepper, past: seq<Event>, log: seq<Entry>)
    requires log != [] && Answered(step, past, log)
    ensures Answered(step, past, log[..|log|-1])
  {
    var rest := log[..|log|-1];
    var es, shorter := past + Events(log), past + Events(rest);
    forall k | 0 <= k < |rest| ensures rest[k].outcome == Answer(step, map[], shorter, |past| + k) {
      assert es[..|past| + k] == shorter[..|past| + k];
    }
  }

  /** The run counts every approval the log shows. */
  lemma {:induction false} RunCountsLog(step: Stepper, past: seq<Event>, log: seq<Entry>, id: string)
    requires Answered(step, past, log)
    ensures ApprovalsIn(log, id) <= Approvals(step, past + Events(log), id)
    decreases |log|
  {
    if log == [] {
    } else {
      var n := |log| - 1;
      AnsweredPrefix(step, past, log);
      RunCountsLog(step, past, log[..n], id);
      LastEntryCounts(step, past, log, id);
    }
  }

  lemma LastEntryCounts(step: Stepper, past: seq<Event>, log: seq<Entry>, id: string)
    requires log != [] && Answered(step, past, log)
    ensures Approvals(step, past + Events(log), id) ==
            Approvals(step, past + Events(log[..|log|-1]), id) + if ApprovalOf(log[|log|-1], id) then 1 else 0
  {
    var n := |log| - 1;
    var es := past + Events(log[..n]);
    assert past + Events(log) == es + [log[n].event];
    assert log[n].outcome == Answer(step, map[], past + Events(log), |past| + n);
    LastCounts(step, es, log[n].event, id, log[n].outcome);
  }

  lemma LastCounts(step: Stepper, es: seq<Event>, e: Event, id: string, outcome: Outcome)
    requires outcome == Answer(step, map[], es + [e], |es|)
    ensures Approvals(step, es + [e], id) ==
            Approvals(step, es, id) + if e.call.Approve? && e.call.id == id && outcome.Success? then 1 else 0
  {
    assert (es + [e])[..|es|] == es;
  }

  lemma {:induction false} ApprovalsInSome(log: seq<Entry>, id: string, i: nat)
    requires i < |log| && ApprovalOf(log[i], id)
    ensures ApprovalsIn(log, id) >= 1
    decreases |log|
  {
    if i == |log| - 1 {
    } else {
      ApprovalsInSome(log[..|log|-1], id, i);
    }
  }

  lemma {:induction false} FewApprovals(log: seq<Entry>, id: string)
    requires ApprovalsIn(log, id) <= 1
    ensures ApprovedOnce(log, id)
    decreases |log|
  {
    if log == [] {
    } else {
      var n := |log| - 1;
      var rest := log[..n];
      FewApprovals(rest, id);
      forall i, j | 0 <= i < j < |log| && ApprovalOf(log[i], id) ensures !ApprovalOf(log[j], id) {
        assert rest[i] == log[i];
        ApprovalsInSome(rest, id, i);
        if j < n {
          assert rest[j] == log[j];
        }
      }
    }
  }

  lemma LinearApprovesOnce(sha: Bytes -> Digest, past: seq<Event>, log: seq<Entry>, id: string)
    requires Answered(Service(sha), past, log)
    ensures ApprovedOnce(log, id)
  {
    LifeIsShort(sha, past + Events(log), id);
    RunCountsLog(Service(sha), past, log, id);
    FewApprovals(log, id);
  }

  lemma OneWinner(sys: System, calls: seq<Call>, t: nat, u: nat)
    requires |sys.threads| == |calls| && t < |calls| && u < |calls| && t != u
    requires calls[t].Approve? && calls[u].Approve? && calls[t].id == calls[u].id
    requires ThreadOk(sys, calls[t], t) && ThreadOk(sys, calls[u], u) && ApprovedOnce(sys.log, calls[t].id)
    ensures !(Succeeded(sys, t) && Succeeded(sys, u))
  {
    if Succeeded(sys, t) && Succeeded(sys, u) {
      var i, j := sys.threads[t].entry, sys.threads[u].entry;
      assert ApprovalOf(sys.log[i], calls[t].id) && ApprovalOf(sys.log[j], calls[t].id);
    }
  }

  lemma InvHasOneWinner(sha: Bytes -> Digest, calls: seq<Call>, past: seq<Event>, sys: System, t: nat, u: nat)
    requires Inv(sha, calls, past, sys) && t < |calls| && u < |calls| && t != u
    requires calls[t].Approve? && calls[u].Approve? && calls[t].id == calls[u].id
    ensures !(Succeeded(sys, t) && Succeeded(sys, u))
  {
    LinearApprovesOnce(sha, past, sys.log, calls[t].id);
    assert ThreadOk(sys, calls[t], t) && ThreadOk(sys, calls[u], u);
    OneWinner(sys, calls, t, u);
  }

  /** Under every schedule at most one approval of a Change succeeds, so no plan is started twice. */
  lemma AtMostOneApproval(sha: Bytes -> Digest, calls: seq<Call>, past: seq<Event>, actions: seq<Action>, t: nat,
                          u: nat)
    requires ProposedOnce(calls) && t < |calls| && u < |calls| && t != u
    requires calls[t].Approve? && calls[u].Approve? && calls[t].id == calls[u].id
    ensures var sys := Schedule(sha, calls, Start(Run(Service(sha), map[], past), calls), actions);
            !(Succeeded(sys, t) && Succeeded(sys, u))
  {
    ScheduleInv(sha, calls, past, actions);
    var start := Start(Run(Service(sha), map[], past), calls);
    InvHasOneWinner(sha, calls, past, Schedule(sha, calls, start, actions), t, u);
  }

  // ---------------------------------------------------------------------------
  // Proposing one id twice
  // ---------------------------------------------------------------------------

  const LUCK := Io(false, false)

  /** A call that moves a record, run without interruption. */
  function Solo(t: nat): seq<Action> {
    [Action(t, 0, LUCK), Action(t, 0, LUCK), Action(t, 0, LUCK), Action(t, 0, LUCK)]
  }

  lemma {:induction false} ScheduleConcat(sha: Bytes -> Digest, calls: seq<Call>, sys: System, a: seq<Action>,
                                          b: seq<Action>)
    requires |sys.threads| == |calls|
    ensures Schedule(sha, calls, sys, a + b) == Schedule(sha, calls, Schedule(sha, calls, sys, a), b)
    decreases |b|
  {
    if b == [] {
      assert a + b == a;
    } else {
      assert (a + b)[..|a + b|-1] == a + b[..|b|-1];
      ScheduleConcat(sha, calls, sys, a, b[..|b|-1]);
    }
  }

  lemma OneStep(sha: Bytes -> Digest, calls: seq<Call>, sys: System, a: Action)
    requires |sys.threads| == |calls|
    ensures Schedule(sha, calls, sys, [a]) == Next(sha, calls, sys, a)
  {
    assert [a][..0] == [];
  }

  lemma SoloRuns(sha: Bytes -> Digest, calls: seq<Call>, sys: System, t: nat)
    requires |sys.threads| == |calls| && t < |calls| && !calls[t].Propose? && calls[t].id in sys.records
    requires sys.lock == None && sys.threads[t] == Waiting
    ensures var (records, outcome) := Perform(sha, sys.records, calls[t], 0, LUCK);
            Schedule(sha, calls, sys, Solo(t)) ==
              System(records, None, sys.threads[t := Done(|sys.log|)],
                     sys.log + [Entry(t, Event(calls[t], 0, LUCK), outcome)])
  {
    var a := Action(t, 0, LUCK);
    var s1 := sys.(lock := Some(t), threads := sys.threads[t := Holding]);
    var s2 := s1.(threads := s1.threads[t := HasRead(sys.records[calls[t].id])]);
    assert Next(sha, calls, sys, a) == s1 && Next(sha, calls, s1, a) == s2;
    var s3 := Next(sha, calls, s2, a);
    var s4 := Next(sha, calls, s3, a);
    assert s4.threads == sys.threads[t := Done(|sys.log|)];
    assert Solo(t)[..3] == [a, a, a] && [a, a, a][..2] == [a, a] && [a, a][..1] == [a] && [a][..0] == [];
    assert Schedule(sha, calls, sys, [a]) == s1;
    assert Schedule(sha, calls, sys, [a, a]) == s2;
    assert Schedule(sha, calls, sys, [a, a, a]) == s3;
  }

  const PLAN: seq<Step> := [Step(0, [[114]], true, "")]

  const NO_INVERSE := Inverse("none", [], "x")

  function PreviewCall(id: string): Call { Preview(id, PLAN, "", [], NO_INVERSE) }

  function ApproveCall(id: string): Call { Approve(id, "h", "", None) }

  lemma PreviewThenApprove(sha: Bytes -> Digest, records: Records, c: Change)
    requires CollisionFree(sha) && Valid(c) && c.status == Proposed && Lookup(records, c.id) == Some(c)
    ensures var (r1, o1) := Perform(sha, records, PreviewCall(c.id), 0, LUCK);
            o1.Success? && CanApprove(sha, r1, c.id)
  {
    var edited := c.(steps := PLAN, planHash := PinOf(sha, PLAN), preview := "", blast := [], inverse := NO_INVERSE);
    var previewed := edited.(status := Previewed, updatedAt := 0);
    assert NO_INVERSE.Honest() by {
      assert !IsSpace("x"[0]);
    }
    assert Edit(sha, PreviewCall(c.id), c) == Success(edited);
    assert Valid(previewed);
    assert Perform(sha, records, PreviewCall(c.id), 0, LUCK) == (records[c.id := previewed], Success(previewed));
    var applying := previewed.(decidedBy := "h", decisionNote := "", status := Applying, updatedAt := 0);
    assert Valid(applying);
  }

  /** The call at `t` ran alone and succeeded. */
  ghost predicate Ran(sys: System, after: System, t: nat) {
    && after.lock == None && |after.threads| == |sys.threads| && sys.log <= after.log && Succeeded(after, t)
    && forall u :: 0 <= u < |sys.threads| && u != t ==> after.threads[u] == sys.threads[u]
  }

  ghost predicate CanApprove(sha: Bytes -> Digest, records: Records, id: string) {
    id in records && Perform(sha, records, ApproveCall(id), 0, LUCK).1.Success?
  }

  lemma PreviewSolo(sha: Bytes -> Digest, calls: seq<Call>, sys: System, t: nat, c: Change)
    requires CollisionFree(sha) && Valid(c) && c.status == Proposed && Lookup(sys.records, c.id) == Some(c)
    requires |sys.threads| == |calls| && t < |calls| && calls[t] == PreviewCall(c.id)
    requires sys.lock == None && sys.threads[t] == Waiting
    ensures var after := Schedule(sha, calls, sys, Solo(t));
            Ran(sys, after, t) && CanApprove(sha, after.records, c.id)
  {
    PreviewThenApprove(sha, sys.records, c);
    SoloRuns(sha, calls, sys, t);
  }

  lemma ApprovalSolo(sha: Bytes -> Digest, calls: seq<Call>, sys: System, t: nat, id: string)
    requires CanApprove(sha, sys.records, id)
    requires |sys.threads| == |calls| && t < |calls| && calls[t] == ApproveCall(id)
    requires sys.lock == None && sys.threads[t] == Waiting
    ensures Ran(sys, Schedule(sha, calls, sys, Solo(t)), t)
  {
    SoloRuns(sha, calls, sys, t);
  }

  /** Preview and approve by the calls at `t` and `t + 1`, each uninterrupted. */
  lemma ApproveSolo(sha: Bytes -> Digest, calls: seq<Call>, sys: System, t: nat, c: Change)
    requires CollisionFree(sha) && Valid(c) && c.status == Proposed && Lookup(sys.records, c.id) == Some(c)
    requires |sys.threads| == |calls| && t + 1 < |calls|
    requires calls[t] == PreviewCall(c.id) && calls[t+1] == ApproveCall(c.id)
    requires sys.lock == None && sys.threads[t] == Waiting && sys.threads[t+1] == Waiting
    ensures var after := Schedule(sha, calls, sys, Solo(t) + Solo(t + 1));
            && Succeeded(after, t + 1) && after.lock == None && sys.log <= after.log
            && forall u :: 0 <= u < |calls| && u != t && u != t + 1 ==> after.threads[u] == sys.threads[u]
  {
    PreviewSolo(sha, calls, sys, t, c);
    ApprovalSolo(sha, calls, Schedule(sha, calls, sys, Solo(t)), t + 1, c.id);
    ScheduleConcat(sha, calls, sys, Solo(t), Solo(t + 1));
  }

  /** Two rounds of preview and approval. */
  function TwoRounds(id: string): seq<Call> {
    [PreviewCall(id), ApproveCall(id), PreviewCall(id), ApproveCall(id)]
  }

  function TwiceProposed(a: Change, b: Change): seq<Call> {
    [Propose(a), Propose(b)] + TwoRounds(a.id)
  }

  /** A proposal that has looked and found nothing saves its record over whatever came since. */
  lemma LateSave(sha: Bytes -> Digest, a: Change, b: Change, sys: System, t: nat)
    requires Clash(a, b) && t < 2
    requires |sys.threads| == 6 && sys.threads[t] == Checked(0)
    ensures var after := Next(sha, TwiceProposed(a, b), sys, Action(t, 0, LUCK));
            && Lookup(after.records, a.id) == Some(Fresh(if t == 0 then a else b, 0))
            && after.lock == sys.lock && sys.log <= after.log
            && forall u :: 0 <= u < 6 && u != t ==> after.threads[u] == sys.threads[u]
  {
    assert TwiceProposed(a, b)[t] == Propose(if t == 0 then a else b);
  }

  lemma BothLook(sha: Bytes -> Digest, a: Change, b: Change)
    requires Clash(a, b)
    ensures var calls := TwiceProposed(a, b);
            Schedule(sha, calls, Start(map[], calls), [Action(0, 0, LUCK)] + [Action(1, 0, LUCK)]) ==
              System(map[], None, [Checked(0), Checked(0), Waiting, Waiting, Waiting, Waiting], [])
  {
    var calls := TwiceProposed(a, b);
    var s0 := Start(map[], calls);
    var s1 := Next(sha, calls, s0, Action(0, 0, LUCK));
    assert s1 == s0.(threads := s0.threads[0 := Checked(0)]);
    OneStep(sha, calls, s0, Action(0, 0, LUCK));
    ScheduleConcat(sha, calls, s0, [Action(0, 0, LUCK)], [Action(1, 0, LUCK)]);
    OneStep(sha, calls, s1, Action(1, 0, LUCK));
    assert s0.threads[0 := Checked(0)][1 := Checked(0)] == [Checked(0), Checked(0), Waiting, Waiting, Waiting, Waiting];
  }

  /** Two proposals of one id both look before either saves; the second save wipes out the
      first life, and the Change is approved a second time. */
  lemma ProposedTwiceApprovedTwice(sha: Bytes -> Digest, a: Change, b: Change) returns (actions: seq<Action>)
    requires CollisionFree(sha) && Clash(a, b)
    ensures var sys := Schedule(sha, TwiceProposed(a, b), Start(map[], TwiceProposed(a, b)), actions);
            Succeeded(sys, 3) && Succeeded(sys, 5)
  {
    var calls := TwiceProposed(a, b);
    var s0 := Start(map[], calls);
    BothLook(sha, a, b);
    actions := [Action(0, 0, LUCK)] + [Action(1, 0, LUCK)];
    var t := 0;
    while t < 2
      invariant 0 <= t <= 2
      invariant var sys := Schedule(sha, calls, s0, actions);
        && sys.lock == None && (t == 0 ==> sys.threads[0] == Checked(0)) && (t < 2 ==> sys.threads[1] == Checked(0))
        && (forall u :: 2 + 2 * t <= u < 6 ==> sys.threads[u] == Waiting)
        && (t > 0 ==> Succeeded(sys, 3)) && (t > 1 ==> Succeeded(sys, 5))
    {
      actions := SaveAndApprove(sha, a, b, actions, t);
      t := t + 1;
    }
  }

  /** One proposal saves; then its preview and its approval run uninterrupted. */
  lemma SaveAndApprove(sha: Bytes -> Digest, a: Change, b: Change, before: seq<Action>, t: nat)
    returns (actions: seq<Action>)
    requires CollisionFree(sha) && Clash(a, b) && t < 2
    requires var sys := Schedule(sha, TwiceProposed(a, b), Start(map[], TwiceProposed(a, b)), before);
             && sys.lock == None && sys.threads[t] == Checked(0)
             && sys.threads[2 + 2*t] == Waiting && sys.threads[3 + 2*t] == Waiting
    ensures var sys := Schedule(sha, TwiceProposed(a, b), Start(map[], TwiceProposed(a, b)), before);
            var after := Schedule(sha, TwiceProposed(a, b), Start(map[], TwiceProposed(a, b)), actions);
            && after.lock == None && Succeeded(after, 3 + 2*t) && sys.log <= after.log
            && forall u :: 0 <= u < 6 && u != t && u != 2 + 2*t && u != 3 + 2*t ==> after.threads[u] == sys.threads[u]
  {
    var calls, u := TwiceProposed(a, b), 2 + 2 * t;
    var s0 := Start(map[], calls);
    var sys, save := Schedule(sha, calls, s0, before), Action(t, 0, LUCK);
    LateSave(sha, a, b, sys, t);
    var saved := Next(sha, calls, sys, save);
    OneStep(sha, calls, sys, save);
    ScheduleConcat(sha, calls, s0, before, [save]);
    ApproveSolo(sha, calls, saved, u, Fresh(if t == 0 then a else b, 0));
    ScheduleConcat(sha, calls, s0, before + [save], Solo(u) + Solo(u + 1));
    actions := before + [save] + (Solo(u) + Solo(u + 1));
  }

  ghost predicate NoProposals(calls: seq<Call>) {
    forall i :: 0 <= i < |calls| ==> !calls[i].Propose?
  }

  /** Two different calls approve the same Change, and both are told they succeeded. */
  ghost predicate DoubleApproval(sha: Bytes -> Digest, calls: seq<Call>, past: seq<Event>, actions: seq<Action>,
                                 t: nat, u: nat)
  {
    var sys := Schedule(sha, calls, Start(Run(Service(sha), map[], past), calls), actions);
    && t < |calls| && u < |calls| && t != u
    && calls[t].Approve? && calls[u].Approve? && calls[t].id == calls[u].id
    && Succeeded(sys, t) && Succeeded(sys, u)
  }

  /** Exactly when two proposals under way at once can let a Change be approved twice: when both
      are acceptable and name the same id. */
  lemma ApprovedTwiceExactly(sha: Bytes -> Digest, a: Change, b: Change)
    requires CollisionFree(sha)
    ensures (exists rest, past, actions, t, u ::
              NoProposals(rest) && DoubleApproval(sha, [Propose(a), Propose(b)] + rest, past, actions, t, u))
            <==> Clash(a, b)
  {
    if Clash(a, b) {
      var actions := ProposedTwiceApprovedTwice(sha, a, b);
      assert Run(Service(sha), map[], []) == map[];
      assert NoProposals(TwoRounds(a.id));
      assert DoubleApproval(sha, [Propose(a), Propose(b)] + TwoRounds(a.id), [], actions, 3, 5);
    } else {
      forall rest, past, actions, t, u | NoProposals(rest)
        ensures !DoubleApproval(sha, [Propose(a), Propose(b)] + rest, past, actions, t, u)
      {
        NeverTwice(sha, a, b, rest, past, actions, t, u);
      }
    }
  }

  lemma NeverTwice(sha: Bytes -> Digest, a: Change, b: Change, rest: seq<Call>, past: seq<Event>, actions: seq<Action>,
                   t: nat, u: nat)
    requires !Clash(a, b) && NoProposals(rest)
    ensures !DoubleApproval(sha, [Propose(a), Propose(b)] + rest, past, actions, t, u)
  {
    var calls := [Propose(a), Propose(b)] + rest;
    assert ProposedOnce(calls);
    if t < |calls| && u < |calls| && t != u && calls[t].Approve? && calls[u].Approve? && calls[t].id == calls[u].id {
      AtMostOneApproval(sha, calls, past, actions, t, u);
    }
  }
}
