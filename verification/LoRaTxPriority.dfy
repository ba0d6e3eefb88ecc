/** Bounded priority inversion of the LoRa transmit task. */
module LoRaTxPriority {
  import opened Prelude
  import opened LoRaScheduler
  import opened LoRaTx
  import opened LoRaTxInvariants

  predicate IsResultQueue(source: Source) {
    IsHigherPriority(source, Recovery)
  }

  /** The step hands a frame to the UART. */
  predicate Commits(s: Tx, step: Step)
    requires Enabled(s, step)
  {
    step.Prepared? && step.ready
  }

  /** What the last look at the queues settles on has nothing but Recovery above it. */
  lemma HighestIsChosen(s: Tx, selected: Source, schedule: Schedule, now: u64, queue: Source)
    requires WellSourced(s) && IsResultQueue(queue)
    requires var p := HigherPriority(s, selected, schedule, now);
             IsHigherPriority(queue, if p.Keep? then selected else HigherEnvelope(s, p).source)
    ensures s.queues.Of(queue) == []
  {
    hide QueuesSourced, RecoveryAllowed;
    var p := HigherPriority(s, selected, schedule, now);
    if !p.Keep? {
      HigherIsHigher(s, selected, schedule, now);
    }
  }

  lemma QueueStaysEmpty(s: Tx, now: u64, queue: Source)
    requires s.phase.Preparing? && s.queues.Of(queue) == []
    ensures PreparedTaken(s, true, now).queues.Of(queue) == []
  {
    hide HigherPriority;
  }

  /** When a frame goes to the UART, every non-Recovery queue of higher priority is empty. */
  lemma CommitYields(s: Tx, step: Step, queue: Source)
    requires WellSourced(s) && Enabled(s, step) && Commits(s, step) && IsResultQueue(queue)
    requires IsHigherPriority(queue, Apply(s, step).phase.envelope.source)
    ensures Apply(s, step).queues.Of(queue) == []
  {
    hide QueuesSourced, HigherPriority, IsHigherPriority, HigherEnvelope;
    var selected := s.phase.envelope.source;
    PreparedMoves(s, true, step.now);
    HighestIsChosen(s, selected, s.phase.schedule, step.now, queue);
    QueueStaysEmpty(s, step.now, queue);
  }

  /** Emergency results go before command results, these before time requests, and these before
      Recovery and periodic frames. */
  predicate Below(source: Source, queue: Source) {
    match queue
    case EmergencyResult => source != EmergencyResult
    case CommandResult => source == GroundTimeRequest || source == Recovery || source == Periodic
    case GroundTimeRequest => source == Recovery || source == Periodic
    case _ => false
  }

  lemma BelowIsLower(source: Source, queue: Source)
    requires IsResultQueue(queue)
    ensures Below(source, queue) <==> IsHigherPriority(queue, source)
  {
  }

  /** While the task waits, it serves the queues of results and time requests in that order: a frame is
      only taken when nothing waits above it. */
  lemma WaitingServesTheHighest(s: Tx, step: Step, queue: Source)
    requires WellSourced(s) && Enabled(s, step) && step.Poll?
    requires IsResultQueue(queue) && s.queues.Of(queue) != []
    ensures var phase := Apply(s, step).phase;
            && phase.Preparing? && !Below(phase.envelope.source, queue)
            && (phase.envelope.source == queue ==> phase.envelope == s.queues.Of(queue)[0])
  {
    var source := ReadyArm(s, step.recoveryPoll, step.periodicPoll).value.source;
    HeadAndTail(s.queues, source);
    hide QueuesSourced, Receive, RecoveryArm, PeriodicArmTaken, ControlRollTaken;
  }

  /** The step hands the UART a frame of lower priority than the queue's. */
  predicate CommitsBelow(s: Tx, step: Step, queue: Source)
    requires Enabled(s, step)
  {
    Commits(s, step) && Apply(s, step).phase.Sending? && Below(Apply(s, step).phase.envelope.source, queue)
  }

  function CommitsBelowIn(s: Tx, steps: seq<Step>, queue: Source): nat
    requires CanRun(s, steps)
    decreases |steps|
  {
    if steps == [] then 0
    else (if CommitsBelow(s, steps[0], queue) then 1 else 0)
         + CommitsBelowIn(Apply(s, steps[0]), steps[1..], queue)
  }

  /** 1 while a frame of lower priority is being written. */
  function OnAirBelow(s: Tx, queue: Source): nat {
    if s.phase.Sending? && s.phase.onAir && Below(s.phase.envelope.source, queue) then 1 else 0
  }

  /** The queue holds a frame in every state of the run. */
  predicate WaitsThroughout(s: Tx, steps: seq<Step>, queue: Source)
    requires CanRun(s, steps)
    decreases |steps|
  {
    s.queues.Of(queue) != [] &&
    (steps == [] || WaitsThroughout(Apply(s, steps[0]), steps[1..], queue))
  }

  lemma {:induction false} NoLowerFrameWhileWaiting(s: Tx, steps: seq<Step>, queue: Source)
    requires Shaped(s) && CanRun(s, steps) && IsResultQueue(queue) && WaitsThroughout(s, steps, queue)
    ensures CommitsBelowIn(s, steps, queue) == 0
    decreases |steps|
  {
    hide Shaped, Enabled, Apply;
    if steps != [] {
      ShapedStep(s, steps[0]);
      if CommitsBelow(s, steps[0], queue) {
        CommitYieldsShaped(s, steps[0], queue);
      }
      NoLowerFrameWhileWaiting(Apply(s, steps[0]), steps[1..], queue);
    }
  }

  lemma CommitYieldsShaped(s: Tx, step: Step, queue: Source)
    requires Shaped(s) && Enabled(s, step) && CommitsBelow(s, step, queue) && IsResultQueue(queue)
    ensures Apply(s, step).queues.Of(queue) == []
  {
    BelowIsLower(Apply(s, step).phase.envelope.source, queue);
    hide Apply, IsHigherPriority, Below, Shaped;
    ShapedIsWellSourced(s);
    CommitYields(s, step, queue);
  }

  lemma {:induction false} ShapedRun(s: Tx, steps: seq<Step>)
    requires Shaped(s) && CanRun(s, steps)
    ensures Shaped(Run(s, steps))
    decreases |steps|
  {
    hide Shaped, Enabled, Apply;
    if steps != [] {
      ShapedStep(s, steps[0]);
      ShapedRun(Apply(s, steps[0]), steps[1..]);
    }
  }

  /** From any moment of any run, while a queue of results or time requests goes unserved, at most
      one frame of lower priority reaches the UART: the one already being written. */
  lemma InversionIsBounded(bootAt: u64, recoveryFrom: u64, past: seq<Step>, steps: seq<Step>, queue: Source)
    requires bootAt <= recoveryFrom && IsResultQueue(queue)
    requires CanRun(Init(bootAt, recoveryFrom), past)
    requires var s := Run(Init(bootAt, recoveryFrom), past);
             CanRun(s, steps) && WaitsThroughout(s, steps, queue)
    ensures var s := Run(Init(bootAt, recoveryFrom), past);
            OnAirBelow(s, queue) + CommitsBelowIn(s, steps, queue) <= 1
  {
    ShapedRun(Init(bootAt, recoveryFrom), past);
    NoLowerFrameWhileWaiting(Run(Init(bootAt, recoveryFrom), past), steps, queue);
  }
}
