/**
  The device-flow poll loop of RFC 8628 (sections 3.2 and 3.5): wait, ask, and go on until the
  operator has authorized, the server refuses, or the flow expires. Times are in seconds.
 */
module DeviceFlow {
  import opened Prelude

  type Time = int

  datatype Reply = Token(refresh: string) | Pending | SlowDown | ServerError | TransportError

  datatype Reason = Cancelled | Expired | PollFailed | NoRefreshToken | Rejected

  datatype Outcome = Authorized(token: string) | Denied(reason: Reason)

  datatype Poll = Poll(at: Time, interval: nat)

  /** The course of events: when the loop starts, what the server answers to each poll, how much
      longer than asked each sleep takes, how long each request takes, and before which rounds
      the caller has given up. */
  datatype World = World(start: Time, replies: nat -> Reply, oversleep: nat -> nat, latency: nat -> nat,
    cancelled: nat -> bool)

  function StartInterval(given: int): (i: nat)
    ensures i > 0
  {
    if given <= 0 then 5 else given
  }

  function Lifetime(given: int): nat {
    if given <= 0 then 600 else given
  }

  /** How often the server asked to slow down before round k. */
  function SlowDowns(w: World, k: nat): nat {
    if k == 0 then 0 else SlowDowns(w, k - 1) + if w.replies(k - 1) == SlowDown then 1 else 0
  }

  function IntervalAt(w: World, i: nat, k: nat): nat {
    i + 5 * SlowDowns(w, k)
  }

  /** The clock when round k begins. */
  function ClockAt(w: World, i: nat, k: nat): Time {
    if k == 0 then w.start
    else ClockAt(w, i, k - 1) + IntervalAt(w, i, k - 1) + w.oversleep(k - 1) + w.latency(k - 1)
  }

  /** The poll of round k: after sleeping the interval then in force. */
  function PollAt(w: World, i: nat, k: nat): Poll {
    Poll(ClockAt(w, i, k) + IntervalAt(w, i, k) + w.oversleep(k), IntervalAt(w, i, k))
  }

  predicate Goes(w: World, i: nat, deadline: Time, k: nat) {
    !w.cancelled(k) && ClockAt(w, i, k) <= deadline
  }

  predicate GoOn(r: Reply) { r == Pending || r == SlowDown }

  /** How the flow ends after n polls, each earlier one answered with "go on". */
  ghost predicate EndsWith(w: World, i: nat, deadline: Time, n: nat, outcome: Outcome) {
    match outcome
    case Authorized(token) => n > 0 && w.replies(n - 1) == Token(token) && token != ""
    case Denied(NoRefreshToken) => n > 0 && w.replies(n - 1) == Token("")
    case Denied(PollFailed) => n > 0 && w.replies(n - 1) == TransportError
    case Denied(Rejected) => n > 0 && w.replies(n - 1) == ServerError
    case Denied(Cancelled) => w.cancelled(n) && (n > 0 ==> GoOn(w.replies(n - 1)))
    case Denied(Expired) => !w.cancelled(n) && ClockAt(w, i, n) > deadline && (n > 0 ==> GoOn(w.replies(n - 1)))
  }

  /** The polls made so far are the scheduled ones, and each was begun in time. */
  ghost predicate OnSchedule(w: World, i: nat, deadline: Time, polls: seq<Poll>) {
    && (forall k :: 0 <= k < |polls| ==> polls[k] == PollAt(w, i, k) && Goes(w, i, deadline, k))
    && (forall k :: 0 <= k < |polls| - 1 ==> GoOn(w.replies(k)))
  }

  /** The loop. It stops, because every round lasts at least the starting interval. */
  method PollForRefreshToken(interval: int, expiresIn: int, w: World) returns (outcome: Outcome, polls: seq<Poll>)
    ensures OnTheClock(w, interval, expiresIn, polls, outcome)
  {
    var i := StartInterval(interval);
    var current := i;
    var now := w.start;
    var deadline := now + Lifetime(expiresIn);
    polls := [];
    ghost var most := MostRounds(w, i, Lifetime(expiresIn));
    while true
      invariant current == IntervalAt(w, i, |polls|) && now == ClockAt(w, i, |polls|)
      invariant OnSchedule(w, i, deadline, polls) && |polls| <= most
      invariant polls != [] ==> GoOn(w.replies(|polls| - 1))
      decreases deadline - now
    {
      ghost var k := |polls|;
      if w.cancelled(|polls|) {
        outcome := Denied(Cancelled);
        break;
      }
      if now > deadline {
        outcome := Denied(Expired);
        break;
      }
      assert k + 1 <= most;
      now := now + current + w.oversleep(|polls|);
      var reply := w.replies(|polls|);
      var taken := w.latency(|polls|);
      OnePollMore(w, i, deadline, polls);
      polls := polls + [Poll(now, current)];
      now := now + taken;
      match reply
      case Token(refresh) =>
        outcome := if refresh == "" then Denied(NoRefreshToken) else Authorized(refresh);
        break;
      case TransportError =>
        outcome := Denied(PollFailed);
        break;
      case ServerError =>
        outcome := Denied(Rejected);
        break;
      case Pending =>
      case SlowDown => current := current + 5;
    }
    RunMeans(w, interval, expiresIn, polls, outcome);
  }

  lemma OnePollMore(w: World, i: nat, deadline: Time, polls: seq<Poll>)
    requires OnSchedule(w, i, deadline, polls) && Goes(w, i, deadline, |polls|)
    requires polls != [] ==> GoOn(w.replies(|polls| - 1))
    ensures OnSchedule(w, i, deadline, polls + [PollAt(w, i, |polls|)])
    ensures ClockAt(w, i, |polls| + 1) == PollAt(w, i, |polls|).at + w.latency(|polls|)
    ensures IntervalAt(w, i, |polls| + 1) == IntervalAt(w, i, |polls|) + if w.replies(|polls|) == SlowDown then 5 else 0
  {
  }

  lemma {:induction false} RoundsTakeTime(w: World, i: nat, k: nat)
    ensures ClockAt(w, i, k) >= w.start + k * i
  {
    if k == 0 {
    } else {
      RoundsTakeTime(w, i, k - 1);
      assert k * i == (k - 1) * i + i;
    }
  }

  /** Rounds begun before the deadline number at most one more than fit into the lifetime. */
  lemma RoundsFit(w: World, i: nat, k: nat, lifetime: nat)
    requires i > 0 && ClockAt(w, i, k) <= w.start + lifetime
    ensures k + 1 <= lifetime / i + 1
  {
    RoundsTakeTime(w, i, k);
    QuotientBounds(k, i, lifetime);
  }

  lemma MostRounds(w: World, i: nat, lifetime: nat) returns (most: nat)
    requires i > 0
    ensures most == lifetime / i + 1
    ensures forall k: nat :: ClockAt(w, i, k) <= w.start + lifetime ==> k + 1 <= most
  {
    most := lifetime / i + 1;
    forall k: nat | ClockAt(w, i, k) <= w.start + lifetime ensures k + 1 <= most {
      RoundsFit(w, i, k, lifetime);
    }
  }

  lemma QuotientBounds(k: nat, i: nat, n: nat)
    requires i > 0 && k * i <= n
    ensures k <= n / i
  {
    assert (k - n / i - 1) * i == k * i - (n / i) * i - i;
  }

  /** The first poll comes one starting interval after the start. Each later poll comes after the
      answer to the one before it and a sleep of the interval then in force, which never
      shrinks: it is five seconds longer after a slow_down. */
  lemma PollsAreSpaced(w: World, i: nat, k: nat)
    ensures PollAt(w, i, 0) == Poll(w.start + i + w.oversleep(0), i)
    ensures PollAt(w, i, k + 1).at ==
              PollAt(w, i, k).at + w.latency(k) + PollAt(w, i, k + 1).interval + w.oversleep(k + 1)
    ensures PollAt(w, i, k + 1).interval == PollAt(w, i, k).interval + if w.replies(k) == SlowDown then 5 else 0
  {
  }

  /** One poll after another. The earlier one was answered by "pending" or "slow down", and the
      next round began by the deadline. */
  ghost predicate NextPoll(w: World, deadline: Time, k: nat, before: Poll, poll: Poll) {
    && w.replies(k) in {Pending, SlowDown}
    && poll.interval == before.interval + (if w.replies(k) == SlowDown then 5 else 0)
    && before.at + w.latency(k) <= deadline
    && poll.at == before.at + w.latency(k) + poll.interval + w.oversleep(k + 1)
  }

  /** The polls made by a deadline, at a starting interval, as the clock and the answers have it. */
  ghost predicate PollsOnTheClock(w: World, i: nat, deadline: Time, polls: seq<Poll>) {
    && (polls != [] ==> polls[0] == Poll(w.start + i + w.oversleep(0), i))
    && (forall j, k :: 0 <= j < k == j + 1 < |polls| ==> NextPoll(w, deadline, j, polls[j], polls[k]))
    && (forall k :: 0 <= k < |polls| ==> !w.cancelled(k))
  }

  /** How the flow ends. */
  ghost predicate EndsOnTheClock(w: World, deadline: Time, polls: seq<Poll>, outcome: Outcome) {
    var n := |polls|;
    if n > 0 && w.replies(n - 1) !in {Pending, SlowDown} then
      match w.replies(n - 1)
      case Token(refresh) => outcome == if refresh == "" then Denied(NoRefreshToken) else Authorized(refresh)
      case TransportError => outcome == Denied(PollFailed)
      case _ => outcome == Denied(Rejected)
    else if w.cancelled(n) then outcome == Denied(Cancelled)
    else
      && outcome == Denied(Expired)
      && deadline < if n == 0 then w.start else polls[n-1].at + w.latency(n - 1)
  }

  /** The server's interval and lifetime count when they are positive; five seconds and ten
      minutes do when not. */
  ghost predicate OnTheClock(w: World, interval: int, expiresIn: int, polls: seq<Poll>, outcome: Outcome) {
    var i := if interval > 0 then interval else 5;
    var lifetime := if expiresIn > 0 then expiresIn else 600;
    && PollsOnTheClock(w, i, w.start + lifetime, polls)
    && EndsOnTheClock(w, w.start + lifetime, polls, outcome)
    && |polls| <= lifetime / i + 1
  }

  lemma PollsMean(w: World, i: nat, deadline: Time, polls: seq<Poll>)
    requires OnSchedule(w, i, deadline, polls)
    ensures PollsOnTheClock(w, i, deadline, polls)
    ensures polls != [] ==> Goes(w, i, deadline, |polls| - 1)
  {
    forall j, k | 0 <= j < k == j + 1 < |polls| ensures NextPoll(w, deadline, j, polls[j], polls[k]) {
      PollsAreSpaced(w, i, j);
      assert GoOn(w.replies(j)) && Goes(w, i, deadline, k);
    }
    forall k | 0 <= k < |polls| ensures !w.cancelled(k) {
      assert Goes(w, i, deadline, k);
    }
    PollsAreSpaced(w, i, 0);
  }

  lemma EndMeans(w: World, i: nat, deadline: Time, polls: seq<Poll>, outcome: Outcome)
    requires OnSchedule(w, i, deadline, polls) && EndsWith(w, i, deadline, |polls|, outcome)
    ensures EndsOnTheClock(w, deadline, polls, outcome)
  {
    if polls != [] {
      assert polls[|polls|-1] == PollAt(w, i, |polls| - 1);
    }
  }

  lemma RunMeans(w: World, interval: int, expiresIn: int, polls: seq<Poll>, outcome: Outcome)
    requires OnSchedule(w, StartInterval(interval), w.start + Lifetime(expiresIn), polls)
    requires EndsWith(w, StartInterval(interval), w.start + Lifetime(expiresIn), |polls|, outcome)
    ensures OnTheClock(w, interval, expiresIn, polls, outcome)
  {
    var i, lifetime := StartInterval(interval), Lifetime(expiresIn);
    PollsMean(w, i, w.start + lifetime, polls);
    EndMeans(w, i, w.start + lifetime, polls, outcome);
    if polls != [] {
      RoundsFit(w, i, |polls| - 1, lifetime);
    }
  }

  /** The server's answers, the clock and the caller leave the loop no choice: there is one list of
      polls and one outcome. */
  lemma RunIsDetermined(w: World, interval: int, expiresIn: int, a: seq<Poll>, b: seq<Poll>, o: Outcome, o': Outcome)
    requires OnTheClock(w, interval, expiresIn, a, o) && OnTheClock(w, interval, expiresIn, b, o')
    ensures a == b && o == o'
  {
    SameBeginning(w, interval, expiresIn, a, b, o, o', if |a| <= |b| then |a| else |b|);
    NotLonger(w, interval, expiresIn, a, b, o, o');
    NotLonger(w, interval, expiresIn, b, a, o', o);
  }

  lemma {:induction false} SameBeginning(w: World, interval: int, expiresIn: int, a: seq<Poll>, b: seq<Poll>,
                                         o: Outcome, o': Outcome, n: nat)
    requires OnTheClock(w, interval, expiresIn, a, o) && OnTheClock(w, interval, expiresIn, b, o')
    requires n <= |a| && n <= |b|
    ensures a[..n] == b[..n]
  {
    if n > 0 {
      SameBeginning(w, interval, expiresIn, a, b, o, o', n - 1);
      if n > 1 {
        assert a[n-2] == a[..n-1][n-2] == b[..n-1][n-2] == b[n-2];
        var deadline := w.start + if expiresIn > 0 then expiresIn else 600;
        assert NextPoll(w, deadline, n - 2, a[n-2], a[n-1]) && NextPoll(w, deadline, n - 2, b[n-2], b[n-1]);
      }
      assert a[..n] == a[..n-1] + [a[n-1]] && b[..n] == b[..n-1] + [b[n-1]];
    }
  }

  /** Whether another poll follows these. */
  ghost predicate AnotherFollows(w: World, deadline: Time, polls: seq<Poll>) {
    var n := |polls|;
    && !w.cancelled(n)
    && (n > 0 ==> w.replies(n - 1) in {Pending, SlowDown})
    && (if n == 0 then w.start else polls[n-1].at + w.latency(n - 1)) <= deadline
  }

  lemma NoneFollows(w: World, deadline: Time, polls: seq<Poll>, outcome: Outcome)
    requires EndsOnTheClock(w, deadline, polls, outcome)
    ensures !AnotherFollows(w, deadline, polls)
  {
  }

  lemma OneFollows(w: World, i: nat, deadline: Time, polls: seq<Poll>, n: nat)
    requires PollsOnTheClock(w, i, deadline, polls) && n < |polls| && w.start <= deadline
    ensures AnotherFollows(w, deadline, polls[..n])
  {
    if n > 0 {
      assert NextPoll(w, deadline, n - 1, polls[n-1], polls[n]);
    }
  }

  lemma NotLonger(w: World, interval: int, expiresIn: int, a: seq<Poll>, b: seq<Poll>, o: Outcome, o': Outcome)
    requires OnTheClock(w, interval, expiresIn, a, o) && OnTheClock(w, interval, expiresIn, b, o')
    requires a[..if |a| <= |b| then |a| else |b|] == b[..if |a| <= |b| then |a| else |b|]
    ensures |b| <= |a|
  {
    if |a| < |b| {
      var deadline := w.start + if expiresIn > 0 then expiresIn else 600;
      assert a == b[..|a|];
      OneFollows(w, if interval > 0 then interval else 5, deadline, b, |a|);
      NoneFollows(w, deadline, a, o);
    }
  }

  /** A poll may fall after the deadline, since only the start of a round is checked, but by no
      more than its own interval and the oversleep. */
  lemma LastPollMayBeLate(w: World, interval: int, expiresIn: int, polls: seq<Poll>, outcome: Outcome, k: nat)
    requires OnTheClock(w, interval, expiresIn, polls, outcome) && k < |polls|
    ensures polls[k].at <=
              w.start + (if expiresIn > 0 then expiresIn else 600) + polls[k].interval + w.oversleep(k)
  {
    if k > 0 {
      var deadline := w.start + if expiresIn > 0 then expiresIn else 600;
      assert NextPoll(w, deadline, k - 1, polls[k-1], polls[k]);
    }
  }

  /** The bound is reached: when the lifetime is one interval and the first round is answered
      promptly, the loop makes a second poll, a whole interval after the deadline. */
  lemma LatePollHappens(w: World, i: nat, polls: seq<Poll>, outcome: Outcome)
    requires i > 0 && OnTheClock(w, i, i, polls, outcome)
    requires w.replies(0) == Pending && w.oversleep(0) == 0 && w.latency(0) == 0 && w.oversleep(1) == 0
    requires !w.cancelled(0) && !w.cancelled(1)
    ensures |polls| >= 2 && polls[1].at == w.start + i + polls[1].interval
  {
    assert |polls| != 0;
    assert |polls| != 1;
    assert NextPoll(w, w.start + i, 0, polls[0], polls[1]);
  }
}
