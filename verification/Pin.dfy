/**
  The plan pin: a hash over a length-prefixed rendering of the commands and the gate.
 */
module Pin {
  import opened Prelude
  import opened LengthPrefix

  datatype Step = Step(index: int, argv: seq<Bytes>, gated: bool, description: string)

  /** What the pin is meant to fix of a step: the exact command and whether it is gated. */
  datatype PinnedStep = PinnedStep(argv: seq<Bytes>, gated: bool)

  function Pinned(steps: seq<Step>): (p: seq<PinnedStep>)
    ensures |p| == |steps|
  {
    seq(|steps|, i requires 0 <= i < |steps| => PinnedStep(steps[i].argv, steps[i].gated))
  }

  /** "opslify.change.plan.v1" */
  const VERSION: Bytes := [111, 112, 115, 108, 105, 102, 121, 46, 99, 104, 97, 110, 103, 101, 46, 112, 108, 97, 110, 46,
    118, 49]
  /** "gated" */
  const GATED: Bytes := [103, 97, 116, 101, 100]

  function ArgBytes(a: Bytes): Bytes { Field(a) + [BAR] }

  function ArgvBytes(argv: seq<Bytes>): Bytes { Concat(ArgBytes, argv) }

  function GateBytes(gated: bool): Bytes {
    if gated then GATED + [NEWLINE] else [NEWLINE]
  }

  function StepBytes(i: nat, s: Step): Bytes {
    Decimal(i) + [BAR] + (Decimal(|s.argv|) + [BAR] + (ArgvBytes(s.argv) + GateBytes(s.gated)))
  }

  /** How one step is rendered, given its place. The inductions below are about any rendering;
      the theorems are about `StepBytes`. */
  type Rendering = (nat, Step) -> Bytes

  function Rendered(render: Rendering, steps: seq<Step>): Bytes {
    if steps == [] then []
    else Rendered(render, steps[..|steps|-1]) + render(|steps| - 1, steps[|steps|-1])
  }

  function StepsBytes(steps: seq<Step>): Bytes {
    Rendered(StepBytes, steps)
  }

  function Preimage(steps: seq<Step>): Bytes {
    VERSION + [NEWLINE] + StepsBytes(steps)
  }

  /** Render one step field by field. */
  method RenderStep(i: nat, s: Step) returns (buf: Bytes)
    ensures buf == StepBytes(i, s)
  {
    var argv := AppendAll(ArgBytes, s.argv);
    buf := Decimal(i) + [BAR] + (Decimal(|s.argv|) + [BAR] + (argv + GateBytes(s.gated)));
  }

  lemma PreimageGrows(steps: seq<Step>, i: nat)
    requires i < |steps|
    ensures Preimage(steps[..i+1]) == Preimage(steps[..i]) + StepBytes(i, steps[i])
  {
    assert steps[..i+1][..i] == steps[..i];
  }

  /** The bytes themselves: "opslify.change.plan.v1" and a newline, then for each step its place,
      the number of its arguments, each argument after its length, and "gated" if it is, with a
      bar after each number and argument and a newline at the end. */
  lemma PreimageBytes(steps: seq<Step>, s: Step)
    ensures Preimage([]) ==
              [111, 112, 115, 108, 105, 102, 121, 46, 99, 104, 97, 110, 103, 101, 46, 112, 108, 97, 110, 46, 118, 49]
              + [10]
    ensures Preimage(steps + [s]) ==
              Preimage(steps) + (Decimal(|steps|) + [124] + Decimal(|s.argv|) + [124] + ArgvBytes(s.argv)
              + if s.gated then [103, 97, 116, 101, 100, 10] else [10])
  {
    PreimageSnoc(steps, s);
    StepBytesAre(|steps|, s);
  }

  lemma PreimageSnoc(steps: seq<Step>, s: Step)
    ensures Preimage(steps + [s]) == Preimage(steps) + StepBytes(|steps|, s)
  {
    var more := steps + [s];
    PreimageGrows(more, |steps|);
    assert more[..|steps|] == steps && more[..|steps|+1] == more;
  }

  lemma StepBytesAre(i: nat, s: Step)
    ensures StepBytes(i, s) ==
              Decimal(i) + [124] + Decimal(|s.argv|) + [124] + ArgvBytes(s.argv)
              + if s.gated then [103, 97, 116, 101, 100, 10] else [10]
  {
    Flat(Decimal(i), [124], Decimal(|s.argv|), [124], ArgvBytes(s.argv), GateBytes(s.gated));
    assert GATED + [NEWLINE] == [103, 97, 116, 101, 100, 10];
  }

  lemma ArgvBytesAre(argv: seq<Bytes>, a: Bytes)
    ensures ArgvBytes([]) == []
    ensures ArgvBytes(argv + [a]) == ArgvBytes(argv) + (Decimal(|a|) + [58] + a + [124])
  {
    ConcatBack(ArgBytes, argv, a);
  }

  /** Write the preimage step by step and hash it. */
  method Pin(sha: Bytes -> Digest, steps: seq<Step>) returns (digest: Digest)
    ensures digest == PinOf(sha, steps)
  {
    var buf := VERSION + [NEWLINE];
    var i := 0;
    while i < |steps|
      invariant 0 <= i <= |steps| && buf == Preimage(steps[..i])
    {
      var rendered := RenderStep(i, steps[i]);
      PreimageGrows(steps, i);
      buf := buf + rendered;
      i := i + 1;
    }
    assert steps[..i] == steps;
    digest := sha(buf);
  }

  function PinOf(sha: Bytes -> Digest, steps: seq<Step>): Digest {
    sha(Preimage(steps))
  }

  datatype Verdict = Verified | NeverPinned | Mismatch

  function VerifyPin(sha: Bytes -> Digest, approved: Digest, steps: seq<Step>): Verdict {
    if approved == "" then NeverPinned
    else if PinOf(sha, steps) != approved then Mismatch
    else Verified
  }

  // ---------------------------------------------------------------------------
  // The reader
  // ---------------------------------------------------------------------------

  function ReadArgv(s: Bytes, n: nat): (r: Option<(seq<Bytes>, Bytes)>)
    ensures r.Some? ==> |r.value.1| <= |s|
    decreases n
  {
    if n == 0 then Some(([], s))
    else
      match ReadFieldThen(s, BAR)
      case None => None
      case Some((a, rest)) =>
        match ReadArgv(rest, n - 1)
        case None => None
        case Some((more, left)) => Some(([a] + more, left))
  }

  /** The end of a step: the gate mark, if any, and the newline. */
  function ReadGate(s: Bytes): (r: Option<(bool, Bytes)>)
    ensures r.Some? ==> |r.value.1| < |s|
  {
    if s != [] && s[0] == NEWLINE then Some((false, s[1..]))
    else if |s| > |GATED| && s[..|GATED|] == GATED && s[|GATED|] == NEWLINE then Some((true, s[|GATED|+1..]))
    else None
  }

  function ReadStep(s: Bytes): (r: Option<(PinnedStep, Bytes)>)
    ensures r.Some? ==> |r.value.1| < |s|
  {
    match ReadNumber(s, BAR)
    case None => None
    case Some((_, afterIndex)) =>
      match ReadNumber(afterIndex, BAR)
      case None => None
      case Some((n, afterCount)) =>
        match ReadArgv(afterCount, n)
        case None => None
        case Some((argv, afterArgv)) =>
          match ReadGate(afterArgv)
          case None => None
          case Some((gated, rest)) => Some((PinnedStep(argv, gated), rest))
  }

  function ReadSteps(s: Bytes): Option<seq<PinnedStep>>
    decreases |s|
  {
    if s == [] then Some([])
    else
      match ReadStep(s)
      case None => None
      case Some((step, rest)) =>
        match ReadSteps(rest)
        case None => None
        case Some(more) => Some([step] + more)
  }

  function ReadPlan(s: Bytes): Option<seq<PinnedStep>> {
    if |s| > |VERSION| && s[..|VERSION|] == VERSION && s[|VERSION|] == NEWLINE
    then ReadSteps(s[|VERSION|+1..])
    else None
  }

  lemma {:induction false} ArgvReads(argv: seq<Bytes>, rest: Bytes)
    ensures ReadArgv(ArgvBytes(argv) + rest, |argv|) == Some((argv, rest))
    decreases |argv|
  {
    if argv == [] {
      assert [] + rest == rest;
    } else {
      var tail := ArgvBytes(argv[1..]) + rest;
      ConcatFront(ArgBytes, argv);
      assert ArgvBytes(argv) + rest == Field(argv[0]) + [BAR] + tail;
      FieldThenReads(argv[0], BAR, tail);
      ArgvReads(argv[1..], rest);
      assert [argv[0]] + argv[1..] == argv;
    }
  }

  lemma GateReads(gated: bool, rest: Bytes)
    ensures ReadGate(GateBytes(gated) + rest) == Some((gated, rest))
  {
    var s := GateBytes(gated) + rest;
    if gated {
      assert s[..|GATED|] == GATED && s[|GATED|+1..] == rest;
    } else {
      assert s[1..] == rest;
    }
  }

  lemma StepReads(i: nat, s: Step, rest: Bytes)
    ensures ReadStep(StepBytes(i, s) + rest) == Some((PinnedStep(s.argv, s.gated), rest))
  {
    var gate := GateBytes(s.gated);
    var afterArgv := gate + rest;
    var afterCount := ArgvBytes(s.argv) + afterArgv;
    var afterIndex := Decimal(|s.argv|) + [BAR] + afterCount;
    assert StepBytes(i, s) + rest == Decimal(i) + [BAR] + afterIndex;
    NumberReads(i, BAR, afterIndex);
    NumberReads(|s.argv|, BAR, afterCount);
    ArgvReads(s.argv, afterArgv);
    GateReads(s.gated, rest);
  }

  /** Reading the last step first is not possible, so the reader is followed from the front. */
  function RenderedFrom(render: Rendering, steps: seq<Step>, i: nat): Bytes
    requires i <= |steps|
    decreases |steps| - i
  {
    if i == |steps| then [] else render(i, steps[i]) + RenderedFrom(render, steps, i + 1)
  }

  lemma Associate(a: Bytes, b: Bytes, c: Bytes)
    ensures (a + b) + c == a + (b + c)
  {
  }

  lemma {:induction false} RenderedSplit(render: Rendering, steps: seq<Step>, i: nat)
    requires i <= |steps|
    ensures Rendered(render, steps) == Rendered(render, steps[..i]) + RenderedFrom(render, steps, i)
    decreases |steps| - i
  {
    if i == |steps| {
      assert steps[..i] == steps;
    } else {
      RenderedSplit(render, steps, i + 1);
      assert steps[..i+1][..i] == steps[..i];
      assert Rendered(render, steps[..i+1]) == Rendered(render, steps[..i]) + render(i, steps[i]);
      Associate(Rendered(render, steps[..i]), render(i, steps[i]), RenderedFrom(render, steps, i + 1));
    }
  }

  /** A rendering the reader undoes, whatever follows it. */
  ghost predicate Readable(render: Rendering) {
    forall i: nat, s: Step, rest: Bytes :: ReadSteps(rest).Some? ==>
      ReadSteps(render(i, s) + rest) == Some([PinnedStep(s.argv, s.gated)] + ReadSteps(rest).value)
  }

  lemma FirstStepReads(i: nat, s: Step, rest: Bytes)
    requires ReadSteps(rest).Some?
    ensures ReadSteps(StepBytes(i, s) + rest) == Some([PinnedStep(s.argv, s.gated)] + ReadSteps(rest).value)
  {
    StepReads(i, s, rest);
    assert ReadStep(StepBytes(i, s) + rest).Some?;
  }

  lemma StepBytesReadable()
    ensures Readable(StepBytes)
  {
    forall i: nat, s: Step, rest: Bytes | ReadSteps(rest).Some?
      ensures ReadSteps(StepBytes(i, s) + rest) == Some([PinnedStep(s.argv, s.gated)] + ReadSteps(rest).value)
    {
      FirstStepReads(i, s, rest);
    }
  }

  lemma {:induction false} RenderedReads(render: Rendering, steps: seq<Step>, i: nat)
    requires Readable(render) && i <= |steps|
    ensures ReadSteps(RenderedFrom(render, steps, i)) == Some(Pinned(steps)[i..])
    decreases |steps| - i
  {
    if i == |steps| {
      assert Pinned(steps)[i..] == [];
    } else {
      RenderedReads(render, steps, i + 1);
      assert Pinned(steps)[i..] == [Pinned(steps)[i]] + Pinned(steps)[i+1..];
    }
  }

  /** The preimage determines the plan: reading it back yields every command and every gate,
      for arguments of any bytes at all. */
  lemma PreimageReadsBack(steps: seq<Step>)
    ensures ReadPlan(Preimage(steps)) == Some(Pinned(steps))
  {
    var s := Preimage(steps);
    RenderedSplit(StepBytes, steps, 0);
    assert steps[..0] == [] && Rendered(StepBytes, steps[..0]) == [];
    assert s[..|VERSION|] == VERSION && s[|VERSION|+1..] == RenderedFrom(StepBytes, steps, 0);
    StepBytesReadable();
    RenderedReads(StepBytes, steps, 0);
    assert Pinned(steps)[0..] == Pinned(steps);
  }

  lemma PinnedSplit(steps: seq<Step>)
    requires steps != []
    ensures var n := |steps| - 1;
            Pinned(steps) == Pinned(steps[..n]) + [PinnedStep(steps[n].argv, steps[n].gated)]
  {
  }

  /** A rendering that looks at nothing but the command and the gate. */
  ghost predicate PinnedOnly(render: Rendering) {
    forall i: nat, x: Step, y: Step :: x.argv == y.argv && x.gated == y.gated ==> render(i, x) == render(i, y)
  }

  lemma {:induction false} PinnedDeterminesBytes(render: Rendering, a: seq<Step>, b: seq<Step>)
    requires PinnedOnly(render) && Pinned(a) == Pinned(b)
    ensures Rendered(render, a) == Rendered(render, b)
    decreases |a|
  {
    assert |Pinned(a)| == |Pinned(b)|;
    if a == [] {
    } else {
      var n := |a| - 1;
      PinnedSplit(a);
      PinnedSplit(b);
      assert Pinned(a)[..n] == Pinned(a[..n]) && Pinned(b)[..n] == Pinned(b[..n]);
      assert Pinned(a)[n] == Pinned(b)[n];
      PinnedDeterminesBytes(render, a[..n], b[..n]);
    }
  }

  lemma StepBytesPinnedOnly()
    ensures PinnedOnly(StepBytes)
  {
  }

  /** Two plans share a preimage exactly when they run the same commands behind the same gates;
      descriptions and step numbers do not enter. */
  lemma PreimageInjective(a: seq<Step>, b: seq<Step>)
    ensures Preimage(a) == Preimage(b) <==> Pinned(a) == Pinned(b)
  {
    PreimageReadsBack(a);
    PreimageReadsBack(b);
    if Pinned(a) == Pinned(b) {
      StepBytesPinnedOnly();
      PinnedDeterminesBytes(StepBytes, a, b);
    }
  }

  /** A plan passes against the pin of another exactly when it is that plan in every command
      and every gate. */
  lemma VerifyAcceptsOnlyThePlan(sha: Bytes -> Digest, reviewed: seq<Step>, running: seq<Step>)
    requires CollisionFree(sha)
    ensures VerifyPin(sha, PinOf(sha, reviewed), running) == Verified <==> Pinned(running) == Pinned(reviewed)
  {
    PreimageInjective(reviewed, running);
    assert sha(Preimage(running)) == sha(Preimage(reviewed)) ==> Preimage(running) == Preimage(reviewed);
  }
}
