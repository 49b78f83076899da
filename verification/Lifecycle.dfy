/**
  The Change record: its status graph, its validity, and what each call does to a store of
  records. A store may fail to load or to save; a failed save leaves it unchanged.
 */
module Lifecycle {
  import opened Prelude
  import opened Pin

  type Time = int

  datatype Status = Proposed | Previewed | AwaitingApproval | Applying | Applied | Denied | Failed | Reverted | Expired

  /** The only legal moves. */
  function Transitions(s: Status): seq<Status> {
    match s
    case Proposed => [Previewed, Denied, Expired, Failed]
    case Previewed => [AwaitingApproval, Applying, Denied, Expired, Failed]
    case AwaitingApproval => [Applying, Denied, Expired]
    case Applying => [Applied, Failed]
    case Applied => [Reverted]
    case Failed => [Reverted]
    case Denied => []
    case Expired => []
    case Reverted => []
  }

  predicate Terminal(s: Status) { Transitions(s) == [] }

  predicate CanMoveTo(s: Status, next: Status) { next in Transitions(s) }

  /** White space as the Unicode tables have it. */
  predicate IsSpace(c: char) {
    || '\t' <= c <= '\r' || c == ' ' || c == '\U{0085}' || c == '\U{00A0}' || c == '\U{1680}'
    || '\U{2000}' <= c <= '\U{200A}' || c == '\U{2028}' || c == '\U{2029}' || c == '\U{202F}'
    || c == '\U{205F}' || c == '\U{3000}'
  }

  predicate Blank(s: string) {
    forall i :: 0 <= i < |s| ==> IsSpace(s[i])
  }

  /** The number of bytes a string takes in UTF-8. */
  function Utf8Length(s: string): nat {
    if s == [] then 0
    else
      var c := s[|s|-1] as int;
      Utf8Length(s[..|s|-1]) + if c < 0x80 then 1 else if c < 0x800 then 2 else if c < 0x10000 then 3 else 4
  }

  /** White space is the 25 characters the Unicode tables list. */
  lemma SpaceExactly(c: char)
    ensures IsSpace(c) <==>
              c as int in {9, 10, 11, 12, 13, 32, 133, 160, 5760, 8192, 8193, 8194, 8195, 8196, 8197, 8198, 8199, 8200,
                           8201, 8202, 8232, 8233, 8239, 8287, 12288}
  {
  }

  /** The bytes a string takes are those of its parts: one for a character of seven bits, two up
      to eleven bits, three up to sixteen, four for any other. */
  lemma {:induction false} Utf8LengthExactly(a: string, b: string)
    ensures Utf8Length(a + b) == Utf8Length(a) + Utf8Length(b)
    ensures forall c: char {:trigger Utf8Length([c])} ::
              Utf8Length([c]) == if c as int <= 127 then 1 else if c as int <= 2047 then 2
                                 else if c as int <= 65535 then 3 else 4
    decreases |b|
  {
    forall c: char ensures [c][..0] == [] {
    }
    if b == [] {
      assert a + b == a;
    } else {
      assert (a + b)[..|a + b|-1] == a + b[..|b|-1];
      Utf8LengthExactly(a, b[..|b|-1]);
    }
  }

  datatype Inverse = Inverse(kind: string, steps: seq<Step>, reason: string) {
    predicate Available() { kind != "" && kind != "none" }

    /** Neither an unavailable inverse without a reason nor an available one with nothing to run. */
    predicate Honest() {
      && kind != ""
      && if kind == "none" then !Blank(reason) && steps == [] else steps != []
    }
  }

  datatype ResourceCount = ResourceCount(kind: string, count: int)

  datatype Proposer = Proposer(kind: string, name: string, model: string)

  /** `carried` holds the fields no call here reads or writes: scope, policy, provenance. */
  datatype Change = Change(id: string, intent: string, proposer: Proposer, carried: seq<string>,
                           steps: seq<Step>, planHash: Digest, preview: string, blast: seq<ResourceCount>,
                           inverse: Inverse,
                           status: Status, createdAt: Time, updatedAt: Time,
                           decidedBy: string, decisionNote: string, failureReason: string)

  predicate IdChar(c: char, dash: bool) {
    'a' <= c <= 'z' || '0' <= c <= '9' || (dash && c == '-')
  }

  predicate ValidId(id: string) {
    && 1 <= |id| <= 64
    && IdChar(id[0], false) && IdChar(id[|id|-1], false)
    && forall i :: 0 <= i < |id| ==> IdChar(id[i], true)
  }

  /** What a record must satisfy to be saved. The inverse is demanded from preview onward. */
  predicate Valid(c: Change) {
    && ValidId(c.id)
    && !Blank(c.intent) && Utf8Length(c.intent) <= 4096
    && (c.proposer.kind == "agent" || c.proposer.kind == "human") && c.proposer.name != ""
    && (forall i :: 0 <= i < |c.blast| ==> c.blast[i].kind != "" && c.blast[i].count >= 0)
    && (c.status != Proposed ==> c.inverse.Honest())
    && (forall i :: 0 <= i < |c.steps| ==> c.steps[i].argv != [])
  }

  predicate Revertible(c: Change) {
    c.inverse.Available() && (c.status == Applied || c.status == Failed)
  }

  datatype Error = InvalidInput | NotFound | PinMismatch | InvalidTransition | StoreFailed

  type Outcome = Result<Change, Error>

  type Records = map<string, Change>

  datatype Io = Io(loadFails: bool, saveFails: bool)

  datatype Call =
    | Propose(change: Change)
    | Preview(id: string, steps: seq<Step>, preview: string, blast: seq<ResourceCount>, inverse: Inverse)
    | RequestApproval(id: string)
    | Approve(id: string, decidedBy: string, note: string, running: Option<seq<Step>>)
    | Deny(id: string, decidedBy: string, note: string)
    | Expire(id: string, reason: string)
    | MarkApplied(id: string)
    | MarkFailed(id: string, reason: string)
    | Revert(id: string, decidedBy: string)

  function Target(call: Call): string {
    if call.Propose? then call.change.id else call.id
  }

  /** The status a call asks for. */
  function Wanted(call: Call): Status {
    match call
    case Propose(_) => Proposed
    case Preview(_, _, _, _, _) => Previewed
    case RequestApproval(_) => AwaitingApproval
    case Approve(_, _, _, _) => Applying
    case Deny(_, _, _) => Denied
    case Expire(_, _) => Expired
    case MarkApplied(_) => Applied
    case MarkFailed(_, _) => Failed
    case Revert(_, _) => Reverted
  }

  function EditPreview(sha: Bytes -> Digest, c: Change, steps: seq<Step>, preview: string, blast: seq<ResourceCount>,
                       inverse: Inverse): Outcome
  {
    if steps == [] || !inverse.Honest() then Failure(InvalidInput)
    else
      var planHash := PinOf(sha, steps);
      Success(c.(steps := steps, planHash := planHash, preview := preview, blast := blast, inverse := inverse))
  }

  function EditApprove(sha: Bytes -> Digest, c: Change, decidedBy: string, note: string,
                       running: Option<seq<Step>>): Outcome
  {
    if decidedBy == "" then Failure(InvalidInput)
    else if VerifyPin(sha, c.planHash, PlanToRun(c, running)) != Verified then Failure(PinMismatch)
    else Success(c.(decidedBy := decidedBy, decisionNote := note))
  }

  /** The steps an approval is about: those handed in, or the stored ones. */
  function PlanToRun(c: Change, running: Option<seq<Step>>): seq<Step> {
    if running.Some? then running.value else c.steps
  }

  /** The edit a call makes to a record it may move. */
  function Edit(sha: Bytes -> Digest, call: Call, c: Change): Outcome {
    match call
    case Propose(_) => Failure(InvalidTransition)
    case Preview(_, steps, preview, blast, inverse) => EditPreview(sha, c, steps, preview, blast, inverse)
    case RequestApproval(_) => if c.planHash == "" then Failure(InvalidInput) else Success(c)
    case Approve(_, decidedBy, note, running) => EditApprove(sha, c, decidedBy, note, running)
    case Deny(_, decidedBy, note) =>
      if decidedBy == "" then Failure(InvalidInput) else Success(c.(decidedBy := decidedBy, decisionNote := note))
    case Expire(_, reason) => Success(c.(failureReason := reason))
    case MarkApplied(_) => Success(c)
    case MarkFailed(_, reason) => Success(c.(failureReason := reason))
    case Revert(_, decidedBy) => if decidedBy == "" || !Revertible(c) then Failure(InvalidInput) else Success(c)
  }

  /** From the loaded record to the one to save: the move must be legal, the edit must go
      through, and the result must be valid. */
  function Advance(c: Change, next: Status, edit: Change -> Outcome, now: Time): Outcome {
    if !CanMoveTo(c.status, next) then Failure(InvalidTransition)
    else
      match edit(c)
      case Failure(e) => Failure(e)
      case Success(edited) =>
        var moved := edited.(status := next, updatedAt := now);
        if Valid(moved) then Success(moved) else Failure(InvalidInput)
  }

  function Saved(records: Records, outcome: Outcome, io: Io): (Records, Outcome) {
    match outcome
    case Failure(_) => (records, outcome)
    case Success(c) => if io.saveFails then (records, Failure(StoreFailed)) else (records[c.id := c], outcome)
  }

  /** Load, move, save. */
  function Mutate(records: Records, id: string, next: Status, edit: Change -> Outcome, now: Time,
                  io: Io): (Records, Outcome)
  {
    if io.loadFails then (records, Failure(StoreFailed))
    else if id !in records then (records, Failure(NotFound))
    else Saved(records, Advance(records[id], next, edit, now), io)
  }

  /** A new proposal as it is stored. */
  function Fresh(c: Change, now: Time): Change {
    c.(status := Proposed, createdAt := now, updatedAt := now)
  }

  function ProposeCall(records: Records, c: Change, now: Time, io: Io): (Records, Outcome) {
    if !Valid(Fresh(c, now)) then (records, Failure(InvalidInput))
    else if io.loadFails then (records, Failure(StoreFailed))
    else if c.id in records then (records, Failure(InvalidInput))
    else Saved(records, Success(Fresh(c, now)), io)
  }

  function Perform(sha: Bytes -> Digest, records: Records, call: Call, now: Time, io: Io): (Records, Outcome) {
    if call.Propose? then ProposeCall(records, call.change, now, io)
    else Mutate(records, call.id, Wanted(call), (c: Change) => Edit(sha, call, c), now, io)
  }

  /** How far along its life a record is. */
  function Rank(s: Status): nat {
    match s
    case Proposed => 0
    case Previewed => 1
    case AwaitingApproval => 2
    case Applying => 3
    case Applied => 4
    case Failed => 4
    case Denied => 5
    case Expired => 5
    case Reverted => 5
  }

  /** Every legal move goes strictly forward, so no life is longer than five moves. */
  lemma MovesGoForward(s: Status, next: Status)
    requires CanMoveTo(s, next)
    ensures Rank(s) < Rank(next) <= 5
    ensures Rank(s) < 3 < Rank(next) ==> next == Denied || next == Expired || next == Failed
  {
  }
}
