/**
 * The handshake between a judging run and the goroutine that uploads its outputs (worker/worker.go, judgeOnDAG and
 * uploader): a bounded channel of outputs, and an unbuffered one on which the uploader says that it is done.
 */
module Upload {
  import opened Scoring
  import opened Seqs

  const CAPACITY: nat := 32
  const MAX_RETRIES: nat := 5

  /** How far the judging run has got. */
  datatype Judge = Pushing | Awaiting | ClosingFinish | Returned

  datatype Uploader = Looping | Uploading(output: Output, retries: nat) | Leaving | Gone

  /** An output that was dealt with: whether it was stored, and how many attempts at it failed. */
  datatype Dealt = Dealt(output: Output, stored: bool, failures: nat)

  /** pending are the outputs that the run has yet to send, queue those in the channel, processed those dealt with. */
  datatype Handshake = Handshake(pending: seq<Output>, queue: seq<Output>, processed: seq<Dealt>, judge: Judge,
                                 uploader: Uploader, outputsClosed: bool, finishClosed: bool, cancelled: bool)

  datatype Action =
    | Push | CloseOutputs | Meet | CloseFinish
    | Take | Attempt(stored: bool, giveUp: bool) | SeeClosed | SeeCancelled
    | Cancel

  function Init(outputs: seq<Output>): Handshake {
    Handshake(outputs, [], [], Pushing, Looping, false, false, false)
  }

  /** Whether the participant whose action this is stands there and is not blocked. */
  predicate Enabled(s: Handshake, a: Action) {
    match a
    case Push => s.judge == Pushing && s.pending != [] && |s.queue| < CAPACITY
    case CloseOutputs => s.judge == Pushing && s.pending == []
    case Meet => s.judge == Awaiting && s.uploader == Leaving
    case CloseFinish => s.judge == ClosingFinish
    case Take => s.uploader == Looping && s.queue != []
    case Attempt(stored, giveUp) => s.uploader.Uploading? && (giveUp ==> s.cancelled)
    case SeeClosed => s.uploader == Looping && s.queue == [] && s.outputsClosed
    case SeeCancelled => s.uploader == Looping && s.cancelled
    case Cancel => !s.cancelled
  }

  /** The failed attempts at an output, counting the present one unless it is successful. */
  function Failures(retries: nat, stored: bool): nat {
    (if retries <= MAX_RETRIES then MAX_RETRIES - retries else 0) + if stored then 0 else 1
  }

  function Apply(s: Handshake, a: Action): Handshake
    requires Enabled(s, a)
  {
    match a
    case Push => s.(pending := s.pending[1..], queue := s.queue + [s.pending[0]])
    case CloseOutputs => s.(judge := Awaiting, outputsClosed := true)
    case Meet => s.(judge := ClosingFinish, uploader := Gone)
    case CloseFinish => s.(judge := Returned, finishClosed := true)
    case Take => s.(queue := s.queue[1..], uploader := Uploading(s.queue[0], MAX_RETRIES))
    case Attempt(stored, giveUp) =>
      var Uploading(output, retries) := s.uploader;
      if !stored && !giveUp && retries > 0 then s.(uploader := Uploading(output, retries - 1))
      else s.(uploader := Looping, processed := s.processed + [Dealt(output, stored, Failures(retries, stored))])
    case SeeClosed => s.(uploader := Leaving)
    case SeeCancelled => s.(uploader := Leaving)
    case Cancel => s.(cancelled := true)
  }

  predicate IsRun(s: Handshake, actions: seq<Action>)
    decreases |actions|
  {
    actions == [] || (Enabled(s, actions[0]) && IsRun(Apply(s, actions[0]), actions[1..]))
  }

  function After(s: Handshake, actions: seq<Action>): Handshake
    requires IsRun(s, actions)
    decreases |actions|
  {
    if actions == [] then s else After(Apply(s, actions[0]), actions[1..])
  }

  // ----- what every step keeps

  function InHand(u: Uploader): seq<Output> {
    if u.Uploading? then [u.output] else []
  }

  function Outputs(processed: seq<Dealt>): (outputs: seq<Output>)
    ensures |outputs| == |processed| && forall i :: 0 <= i < |processed| ==> outputs[i] == processed[i].output
  {
    seq(|processed|, i requires 0 <= i < |processed| => processed[i].output)
  }

  lemma OutputsSnoc(processed: seq<Dealt>, d: Dealt)
    ensures Outputs(processed + [d]) == Outputs(processed) + [d.output]
  {
  }

  /** Every output, in its order: dealt with, in hand, in the channel, to be sent. */
  function Everywhere(s: Handshake): seq<Output> {
    Outputs(s.processed) + (InHand(s.uploader) + (s.queue + s.pending))
  }

  ghost predicate HandshakeOk(outputs: seq<Output>, s: Handshake) {
    && Everywhere(s) == outputs
    && |s.queue| <= CAPACITY
    && (s.judge != Pushing ==> s.pending == [])
    && (s.outputsClosed <==> s.judge != Pushing)
    && (s.finishClosed <==> s.judge == Returned)
    && (s.uploader == Gone <==> s.judge == ClosingFinish || s.judge == Returned)
    && (s.uploader == Leaving || s.uploader == Gone ==> s.cancelled || (s.queue == [] && s.outputsClosed))
    && (s.uploader.Uploading? ==> s.uploader.retries <= MAX_RETRIES)
    && forall d :: d in s.processed ==> WellDealt(d, s.cancelled)
  }

  /** A stored output took at most the retries; one that was not stored failed every time, unless cancelled. */
  predicate WellDealt(d: Dealt, cancelled: bool) {
    if d.stored then d.failures <= MAX_RETRIES
    else 0 < d.failures <= MAX_RETRIES + 1 && (d.failures == MAX_RETRIES + 1 || cancelled)
  }

  lemma InitOk(outputs: seq<Output>)
    ensures HandshakeOk(outputs, Init(outputs))
  {
    assert [] + outputs == outputs;
  }

  lemma MoveHead<T>(a: seq<T>, b: seq<T>)
    requires b != []
    ensures a + [b[0]] + b[1..] == a + b
    ensures [b[0]] + (b[1..] + a) == b + a
  {
  }

  /** No output is lost, repeated or overtaken in any step. */
  lemma ConservedStep(s: Handshake, a: Action)
    requires Enabled(s, a)
    ensures Everywhere(Apply(s, a)) == Everywhere(s)
  {
    match a {
      case Push =>
        MoveHead(s.queue, s.pending);
      case Take =>
        MoveHead(s.pending, s.queue);
        assert [] + (s.queue + s.pending) == s.queue + s.pending;
      case Attempt(stored, _) =>
        var rest := s.queue + s.pending;
        assert [] + rest == rest;
        OutputsSnoc(s.processed, Dealt(s.uploader.output, stored, Failures(s.uploader.retries, stored)));
        ConcatAssociative(Outputs(s.processed), [s.uploader.output], rest);
      case _ =>
    }
  }

  lemma StepOk(outputs: seq<Output>, s: Handshake, a: Action)
    requires HandshakeOk(outputs, s) && Enabled(s, a)
    ensures HandshakeOk(outputs, Apply(s, a))
  {
    ConservedStep(s, a);
  }

  lemma {:induction false} RunOk(outputs: seq<Output>, s: Handshake, actions: seq<Action>)
    requires HandshakeOk(outputs, s) && IsRun(s, actions)
    ensures HandshakeOk(outputs, After(s, actions))
    decreases |actions|
  {
    if actions != [] {
      StepOk(outputs, s, actions[0]);
      RunOk(outputs, Apply(s, actions[0]), actions[1..]);
    }
  }

  /** The state that some run of these outputs leads to. */
  ghost predicate Reachable(outputs: seq<Output>, s: Handshake) {
    exists actions :: IsRun(Init(outputs), actions) && After(Init(outputs), actions) == s
  }

  lemma ReachableOk(outputs: seq<Output>, s: Handshake)
    requires Reachable(outputs, s)
    ensures HandshakeOk(outputs, s)
  {
    var actions :| IsRun(Init(outputs), actions) && After(Init(outputs), actions) == s;
    InitOk(outputs);
    RunOk(outputs, Init(outputs), actions);
  }

  /** When the run returns without cancellation, all outputs have been dealt with, each once and in order. */
  lemma ReturnedProcessedAll(outputs: seq<Output>, s: Handshake)
    requires Reachable(outputs, s) && s.judge == Returned
    ensures Outputs(s.processed) <= outputs
    ensures !s.cancelled ==> Outputs(s.processed) == outputs
    ensures Outputs(s.processed) + s.queue == outputs
  {
    ReachableOk(outputs, s);
    assert s.queue + [] == s.queue && [] + s.queue == s.queue;
    assert Outputs(s.processed) + [] == Outputs(s.processed);
  }

  /** In any reachable state: an output was stored unless all six attempts at it failed or the run was cancelled. */
  lemma StoredUnlessFailed(outputs: seq<Output>, s: Handshake, i: nat)
    requires Reachable(outputs, s) && i < |s.processed|
    ensures i < |outputs| && s.processed[i].output == outputs[i]
    ensures s.processed[i].failures <= 6
    ensures !s.cancelled ==> (s.processed[i].stored <==> s.processed[i].failures < 6)
  {
    ReachableOk(outputs, s);
    assert s.processed[i] in s.processed;
    assert Everywhere(s)[i] == Outputs(s.processed)[i];
  }

  // ----- the failures counted are those that occurred

  /** The failed attempts of a run at the output in place i, which is in hand once i others have been dealt with. */
  function FailedAttempts(s: Handshake, actions: seq<Action>, i: nat): nat
    requires IsRun(s, actions)
    decreases |actions|
  {
    if actions == [] then 0
    else FailedAttempts(Apply(s, actions[0]), actions[1..], i)
         + if actions[0].Attempt? && !actions[0].stored && |s.processed| == i then 1 else 0
  }

  /** The failed attempts so far at the output in place i. */
  function Counted(s: Handshake, i: nat): int {
    if i < |s.processed| then s.processed[i].failures
    else if i == |s.processed| && s.uploader.Uploading? then MAX_RETRIES - s.uploader.retries
    else 0
  }

  lemma CountedStep(outputs: seq<Output>, s: Handshake, a: Action, i: nat)
    requires HandshakeOk(outputs, s) && Enabled(s, a)
    ensures Counted(Apply(s, a), i)
         == Counted(s, i) + if a.Attempt? && !a.stored && |s.processed| == i then 1 else 0
  {
  }

  /** For each output, the failures counted are the failed attempts of the run at it. */
  lemma {:induction false} FailuresAreCounted(outputs: seq<Output>, s: Handshake, actions: seq<Action>, i: nat)
    requires HandshakeOk(outputs, s) && IsRun(s, actions)
    ensures Counted(After(s, actions), i) == Counted(s, i) + FailedAttempts(s, actions, i)
    decreases |actions|
  {
    if actions != [] {
      CountedStep(outputs, s, actions[0], i);
      StepOk(outputs, s, actions[0]);
      FailuresAreCounted(outputs, Apply(s, actions[0]), actions[1..], i);
    }
  }

  /** What is in hand is the output in that place. */
  lemma InHandIsNext(outputs: seq<Output>, s: Handshake)
    requires HandshakeOk(outputs, s) && s.uploader.Uploading?
    ensures |s.processed| < |outputs| && s.uploader.output == outputs[|s.processed|]
  {
    assert Everywhere(s)[|s.processed|] == s.uploader.output;
  }

  /** Nobody sends on a closed channel or closes one twice. */
  lemma ChannelsAreOpen(outputs: seq<Output>, s: Handshake)
    requires Reachable(outputs, s)
    ensures s.judge == Pushing ==> !s.outputsClosed
    ensures s.uploader == Leaving ==> !s.finishClosed
    ensures s.judge == ClosingFinish ==> !s.finishClosed
  {
    ReachableOk(outputs, s);
  }

  // ----- progress

  /** Nothing but a cancellation can happen, though the run has not returned. */
  ghost predicate Stuck(s: Handshake) {
    s.judge != Returned && forall a :: Enabled(s, a) ==> a == Cancel
  }

  /** The uploader has left on cancellation, the channel is full, and outputs are still to be sent. */
  predicate IsDeadEnd(s: Handshake) {
    s.judge == Pushing && s.pending != [] && |s.queue| == CAPACITY && s.uploader == Leaving
  }

  lemma SomeAction(outputs: seq<Output>, s: Handshake) returns (a: Action)
    requires HandshakeOk(outputs, s) && s.judge != Returned && !IsDeadEnd(s)
    ensures Enabled(s, a) && a != Cancel
  {
    match s.uploader {
      case Uploading(_, _) =>
        a := Attempt(true, false);
      case Looping =>
        a := if s.queue != [] then Take else if s.outputsClosed then SeeClosed
             else if s.pending != [] then Push else CloseOutputs;
      case Leaving =>
        a := if s.judge == Awaiting then Meet else if s.pending != [] then Push else CloseOutputs;
      case Gone =>
        a := CloseFinish;
    }
  }

  /** There is one way to be stuck, and it takes a cancellation and more outputs than the channel holds. */
  lemma StuckIff(outputs: seq<Output>, s: Handshake)
    requires Reachable(outputs, s)
    ensures Stuck(s) <==> IsDeadEnd(s)
    ensures Stuck(s) ==> s.cancelled && |outputs| > 32
  {
    ReachableOk(outputs, s);
    if s.judge != Returned && !IsDeadEnd(s) {
      var a := SomeAction(outputs, s);
    }
  }

  /** With nobody receiving, the channel can be filled. */
  lemma {:induction false} FillUp(s: Handshake, n: nat) returns (actions: seq<Action>)
    requires s.judge == Pushing && s.uploader == Leaving && |s.queue| + n <= CAPACITY && n <= |s.pending|
    ensures IsRun(s, actions)
    ensures After(s, actions) == s.(pending := s.pending[n..], queue := s.queue + s.pending[..n])
    decreases n
  {
    if n == 0 {
      actions := [];
      assert s.pending[0..] == s.pending && s.queue + s.pending[..0] == s.queue;
    } else {
      var rest := FillUp(Apply(s, Push), n - 1);
      actions := [Push] + rest;
      assert actions[1..] == rest;
      assert s.pending[1..][n - 1..] == s.pending[n..];
      assert s.queue + [s.pending[0]] + s.pending[1..][..n - 1] == s.queue + s.pending[..n];
    }
  }

  lemma GetsStuck(outputs: seq<Output>) returns (s: Handshake)
    requires |outputs| > CAPACITY
    ensures Reachable(outputs, s) && Stuck(s)
  {
    var s1 := Apply(Init(outputs), Cancel);
    var s2 := Apply(s1, SeeCancelled);
    var filling := FillUp(s2, CAPACITY);
    var actions := [Cancel, SeeCancelled] + filling;
    assert actions[1..][1..] == filling;
    assert actions[1..][0] == SeeCancelled;
    s := After(s2, filling);
    assert IsRun(s1, actions[1..]) && IsRun(Init(outputs), actions);
    assert After(Init(outputs), actions) == s;
    StuckIff(outputs, s);
  }

  /** A run of these outputs can get stuck exactly if they do not fit into the channel, which holds 32. */
  lemma CanGetStuckIff(outputs: seq<Output>)
    ensures (exists s :: Reachable(outputs, s) && Stuck(s)) <==> |outputs| > 32
  {
    if |outputs| > CAPACITY {
      var s := GetsStuck(outputs);
    }
    if s :| Reachable(outputs, s) && Stuck(s) {
      StuckIff(outputs, s);
    }
  }

  // ----- every run ends

  function UploaderMeasure(u: Uploader): nat {
    match u
    case Uploading(_, retries) => retries + 3
    case Looping => 2
    case Leaving => 1
    case Gone => 0
  }

  function Measure(s: Handshake): nat {
    8 * |s.pending| + 7 * |s.queue| + UploaderMeasure(s.uploader)
    + (match s.judge case Pushing => 3 case Awaiting => 2 case ClosingFinish => 1 case Returned => 0)
    + if s.cancelled then 0 else 1
  }

  lemma MeasureStep(s: Handshake, a: Action)
    requires Enabled(s, a)
    ensures Measure(Apply(s, a)) < Measure(s)
  {
  }

  lemma {:induction false} RunLength(s: Handshake, actions: seq<Action>)
    requires IsRun(s, actions)
    ensures |actions| + Measure(After(s, actions)) <= Measure(s)
    decreases |actions|
  {
    if actions != [] {
      MeasureStep(s, actions[0]);
      RunLength(Apply(s, actions[0]), actions[1..]);
    }
  }

  /** No run takes more than eight steps per output and six more. */
  lemma RunsAreBounded(outputs: seq<Output>, actions: seq<Action>)
    requires IsRun(Init(outputs), actions)
    ensures |actions| <= 8 * |outputs| + 6
  {
    RunLength(Init(outputs), actions);
  }
}
