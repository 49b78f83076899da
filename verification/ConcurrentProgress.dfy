/**
  The Change service under concurrency always gets somewhere: no schedule leaves calls that block
  one another for good.
 */
module ConcurrentProgress {
  import opened Prelude
  import opened Lifecycle
  import opened ConcurrentCalls

  predicate InMutex(thread: Thread) {
    thread.Holding? || thread.HasRead? || thread.Releasing?
  }

  /** Only calls that move a record take the mutex, and whoever the lock names is inside it. */
  ghost predicate Orderly(calls: seq<Call>, sys: System) {
    && |sys.threads| == |calls|
    && (forall t :: 0 <= t < |calls| ==>
          (InMutex(sys.threads[t]) ==> !calls[t].Propose?) && (sys.threads[t].Checked? ==> calls[t].Propose?))
    && (sys.lock.Some? ==> sys.lock.value < |calls| && InMutex(sys.threads[sys.lock.value]))
  }

  /** How many steps a call still has to take, at most. */
  function StepsLeft(thread: Thread): nat {
    match thread
    case Waiting => 4
    case Holding => 3
    case HasRead(_) => 2
    case Releasing(_) => 1
    case Checked(_) => 1
    case Done(_) => 0
  }

  /** The call has nothing to do, or has to wait for the mutex. */
  predicate Stuck(sys: System, call: Call, t: nat)
    requires t < |sys.threads|
  {
    sys.threads[t].Done? || (sys.threads[t].Waiting? && !call.Propose? && sys.lock.Some?)
  }

  /** Call `t` takes a step forward and no other call is touched, unless it has nothing to do or
      waits for a mutex somebody is in. */
  ghost predicate Forward(calls: seq<Call>, sys: System, after: System, t: nat)
    requires t < |calls| && Orderly(calls, sys)
  {
    && Orderly(calls, after)
    && (forall u :: 0 <= u < |calls| && u != t ==> after.threads[u] == sys.threads[u])
    && if Stuck(sys, calls[t], t) then after == sys else StepsLeft(after.threads[t]) < StepsLeft(sys.threads[t])
  }

  lemma ProposeForward(calls: seq<Call>, sys: System, t: nat, now: Time, io: Io)
    requires Orderly(calls, sys) && t < |calls| && calls[t].Propose?
    ensures Forward(calls, sys, ProposeStep(sys, t, calls[t], now, io), t)
  {
  }

  lemma MutateForward(sha: Bytes -> Digest, calls: seq<Call>, sys: System, t: nat, now: Time, io: Io)
    requires Orderly(calls, sys) && t < |calls| && !calls[t].Propose?
    ensures Forward(calls, sys, MutateStep(sha, sys, t, calls[t], now, io), t)
  {
  }

  /** Every step goes forward or has to wait. */
  lemma StepsForward(sha: Bytes -> Digest, calls: seq<Call>, sys: System, a: Action)
    requires Orderly(calls, sys) && a.thread < |calls|
    ensures Forward(calls, sys, Next(sha, calls, sys, a), a.thread)
  {
    var call := calls[a.thread];
    if call.Propose? {
      ProposeForward(calls, sys, a.thread, a.now, a.io);
    } else {
      MutateForward(sha, calls, sys, a.thread, a.now, a.io);
    }
  }

  lemma {:induction false} AlwaysOrderly(sha: Bytes -> Digest, calls: seq<Call>, actions: seq<Action>)
    ensures Orderly(calls, Schedule(sha, calls, Start(map[], calls), actions))
    decreases |actions|
  {
    if actions == [] {
    } else {
      var last := actions[|actions|-1];
      AlwaysOrderly(sha, calls, actions[..|actions|-1]);
      if last.thread < |calls| {
        StepsForward(sha, calls, Schedule(sha, calls, Start(map[], calls), actions[..|actions|-1]), last);
      }
    }
  }

  /** As long as a call is unfinished, some call can take a step. */
  lemma NoDeadlock(calls: seq<Call>, sys: System, t: nat) returns (next: nat)
    requires Orderly(calls, sys) && t < |calls| && !sys.threads[t].Done?
    ensures next < |calls| && !Stuck(sys, calls[next], next)
  {
    next := if Stuck(sys, calls[t], t) then sys.lock.value else t;
  }

  function AllLeft(threads: seq<Thread>): nat {
    if threads == [] then 0 else AllLeft(threads[..|threads|-1]) + StepsLeft(threads[|threads|-1])
  }

  lemma {:induction false} LessLeft(before: seq<Thread>, after: seq<Thread>, t: nat)
    requires |before| == |after| && t < |before| && StepsLeft(after[t]) < StepsLeft(before[t])
    requires forall u :: 0 <= u < |before| && u != t ==> after[u] == before[u]
    ensures AllLeft(after) < AllLeft(before)
    decreases |before|
  {
    var n := |before| - 1;
    if t == n {
      assert after[..n] == before[..n];
    } else {
      LessLeft(before[..n], after[..n], t);
    }
  }

  lemma {:induction false} AtMostFourEach(threads: seq<Thread>)
    ensures AllLeft(threads) <= 4 * |threads|
  {
    if threads == [] {
    } else {
      AtMostFourEach(threads[..|threads|-1]);
    }
  }

  lemma ScheduleMore(sha: Bytes -> Digest, calls: seq<Call>, sys: System, actions: seq<Action>, a: Action)
    requires |sys.threads| == |calls|
    ensures Schedule(sha, calls, sys, actions + [a]) == Next(sha, calls, Schedule(sha, calls, sys, actions), a)
  {
    assert (actions + [a])[..|actions|] == actions;
  }

  lemma {:induction false} Finish(sha: Bytes -> Digest, calls: seq<Call>, start: System, past: seq<Action>,
                                  now: Time, io: Io) returns (more: seq<Action>)
    requires |start.threads| == |calls| && Orderly(calls, Schedule(sha, calls, start, past))
    ensures |more| <= AllLeft(Schedule(sha, calls, start, past).threads)
    ensures forall t :: 0 <= t < |calls| ==> Schedule(sha, calls, start, past + more).threads[t].Done?
    decreases AllLeft(Schedule(sha, calls, start, past).threads)
  {
    var sys := Schedule(sha, calls, start, past);
    if t :| 0 <= t < |calls| && !sys.threads[t].Done? {
      var next := NoDeadlock(calls, sys, t);
      var a := Action(next, now, io);
      StepsForward(sha, calls, sys, a);
      LessLeft(sys.threads, Next(sha, calls, sys, a).threads, next);
      ScheduleMore(sha, calls, start, past, a);
      var rest := Finish(sha, calls, start, past + [a], now, io);
      more := [a] + rest;
      assert past + more == past + [a] + rest;
    } else {
      more := [];
      assert past + more == past;
    }
  }

  /** However the calls were interleaved so far, and even if every load and save from now on fails:
      at most four steps for each call finish them all. */
  lemma EveryCallCanFinish(sha: Bytes -> Digest, calls: seq<Call>, actions: seq<Action>, now: Time, io: Io)
    returns (more: seq<Action>)
    ensures |more| <= 4 * |calls|
    ensures forall t :: 0 <= t < |calls| ==>
              Schedule(sha, calls, Start(map[], calls), actions + more).threads[t].Done?
  {
    AlwaysOrderly(sha, calls, actions);
    more := Finish(sha, calls, Start(map[], calls), actions, now, io);
    AtMostFourEach(Schedule(sha, calls, Start(map[], calls), actions).threads);
  }
}
