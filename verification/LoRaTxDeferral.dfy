/** When the deferral slot is safe: no run that keeps the clock from crossing a deadline between an
    attempt and the next pass loses a frame, and a run that crosses one can. */
module LoRaTxDeferral {
  import opened Prelude
  import opened LoRaScheduler
  import opened LoRaTx
  import opened LoRaTxInvariants
  import opened LoRaTxConservation

  /** The clock reaches a regular or retry deadline set after the last attempt ended. */
  predicate CrossesDeadline(s: Tx, now: u64) {
    || (s.deadlineValid && s.history.attemptEnd < s.nextTxAt <= now)
    || (s.retryAt.Some? && s.history.attemptEnd < s.retryAt.value <= now)
  }

  /** A pass that begins with a deferred frame begins before the next deadline. */
  predicate Uncrossed(s: Tx, step: Step) {
    step.Begin? && s.deferred.Some? ==> !CrossesDeadline(s, step.now)
  }

  /** The slot is only occupied from the preemption to the top of the next pass, and every deadline
      lies after the attempt in between. */
  ghost predicate SlotIsShortLived(s: Tx) {
    s.deferred.Some? ==>
      match s.phase
      case Top =>
        && (s.deadlineValid ==> s.history.attemptEnd < s.nextTxAt)
        && (s.retryAt.Some? ==> s.history.attemptEnd < s.retryAt.value)
      case Sending(e, _, _) => IsHigherPriority(e.source, Recovery)
      case _ => false
  }

  lemma BlockedMeansCrossed(s: Tx, now: u64)
    requires SlotIsShortLived(s) && s.phase.Top? && DeferralBlocked(s, now)
    ensures CrossesDeadline(s, now)
  {
  }

  lemma PreparedShortLived(s: Tx, ready: bool, now: u64)
    requires WellSourced(s) && SlotIsShortLived(s) && s.phase.Preparing?
    ensures SlotIsShortLived(PreparedTaken(s, ready, now))
    ensures s.deferred == None
  {
    hide HigherPriority, PreparedTaken, QueuesSourced;
    PreparedMoves(s, ready, now);
    PreparedSends(s, ready, now);
    if Preempts(s, ready, now) {
      HigherIsHigher(s, s.phase.envelope.source, s.phase.schedule, now);
    }
  }

  lemma PreparedSends(s: Tx, ready: bool, now: u64)
    requires s.phase.Preparing?
    ensures PreparedTaken(s, ready, now).phase.Sending?
  {
    hide HigherPriority;
  }

  lemma SkipIsAfter(s: Tx, now: u64)
    ensures SkipOverdue(s, now).deadlineValid ==> SkipOverdue(s, now).nextTxAt > now
  {
    if s.deadlineValid {
      var point, steps := AdvanceDeadlineIsFirstSlot(s.nextTxAt, now, s.interval);
    }
  }

  lemma CompletedShortLived(s: Tx, completedAt: u64, now: u64)
    requires SlotIsShortLived(s) && Enabled(s, Completed(completedAt, now))
    ensures SlotIsShortLived(AttemptDone(s, completedAt, now))
  {
    hide SkipOverdue, OverdueSlots;
    SkipOverdueFrame(Recorded(s, completedAt), now);
    SkipIsAfter(Recorded(s, completedAt), now);
  }

  lemma PollShortLived(s: Tx, a: u64, b: u64, now: u64, recoveryActive: bool)
    requires s.deferred == None && Enabled(s, Poll(a, b, now, recoveryActive))
    ensures PollArms(s, a, b, now, recoveryActive).deferred == None
  {
    hide RecoveryArm, QueueArmTaken, ControlRollTaken;
    OtherArmsFrame(s, a, b, now, recoveryActive);
  }

  lemma ShortLivedStep(s: Tx, step: Step)
    requires Shaped(s) && SlotIsShortLived(s) && Enabled(s, step) && Uncrossed(s, step)
    ensures SlotIsShortLived(Apply(s, step))
    ensures !OverwritesDeferral(s, step)
  {
    hide PollArms, PreparedTaken, AttemptDone, QueuesSourced, HigherPriority, CrossesDeadline, ScheduleOf;
    match step
    case Begin(now) =>
      if DeferralBlocked(s, now) {
        BlockedMeansCrossed(s, now);
      }
    case Poll(a, b, now, recoveryActive) => PollShortLived(s, a, b, now, recoveryActive);
    case PacketReady(packet, now) =>
      hide PacketTaken;
      PacketMoves(s, packet, now);
    case Prepared(ready, now) => PreparedShortLived(s, ready, now);
    case Completed(completedAt, now) => CompletedShortLived(s, completedAt, now);
    case _ =>
  }

  predicate UncrossedRun(s: Tx, steps: seq<Step>)
    requires CanRun(s, steps)
    decreases |steps|
  {
    steps == [] || (Uncrossed(s, steps[0]) && UncrossedRun(Apply(s, steps[0]), steps[1..]))
  }

  /** No preemption of the run writes an occupied deferral slot. */
  predicate NeverOverwrites(s: Tx, steps: seq<Step>)
    requires CanRun(s, steps)
    decreases |steps|
  {
    steps == [] || (!OverwritesDeferral(s, steps[0]) && NeverOverwrites(Apply(s, steps[0]), steps[1..]))
  }

  /** Every frame is accounted for in every state of the run. */
  ghost predicate AlwaysConserved(s: Tx, steps: seq<Step>)
    requires CanRun(s, steps)
    decreases |steps|
  {
    AllConserved(s) && (steps == [] || AlwaysConserved(Apply(s, steps[0]), steps[1..]))
  }

  lemma {:induction false} ConservedExactly(s: Tx, steps: seq<Step>)
    requires Shaped(s) && AllConserved(s) && CanRun(s, steps)
    ensures AlwaysConserved(s, steps) <==> NeverOverwrites(s, steps)
    decreases |steps|
  {
    hide Shaped, AllConserved, OverwritesDeferral;
    if steps != [] {
      ShapedStep(s, steps[0]);
      OverwritingIsTheOnlyLoss(s, steps[0]);
      if AllConserved(Apply(s, steps[0])) {
        ConservedExactly(Apply(s, steps[0]), steps[1..]);
      }
    }
  }

  /** A run stays conserved throughout exactly when it never overwrites the deferral slot. */
  lemma RunLosesExactly(bootAt: u64, recoveryFrom: u64, steps: seq<Step>)
    requires bootAt <= recoveryFrom && CanRun(Init(bootAt, recoveryFrom), steps)
    ensures AlwaysConserved(Init(bootAt, recoveryFrom), steps) <==> NeverOverwrites(Init(bootAt, recoveryFrom), steps)
  {
    assert AllConserved(Init(bootAt, recoveryFrom));
    ConservedExactly(Init(bootAt, recoveryFrom), steps);
  }

  lemma {:induction false} UncrossedNeverOverwrites(s: Tx, steps: seq<Step>)
    requires Shaped(s) && SlotIsShortLived(s) && CanRun(s, steps) && UncrossedRun(s, steps)
    ensures NeverOverwrites(s, steps)
    decreases |steps|
  {
    hide Shaped, SlotIsShortLived, Uncrossed, OverwritesDeferral;
    if steps != [] {
      ShapedStep(s, steps[0]);
      ShortLivedStep(s, steps[0]);
      UncrossedNeverOverwrites(Apply(s, steps[0]), steps[1..]);
    }
  }

  /** When no pass with a deferred frame starts past a deadline, the deferral slot is empty whenever
      a preemption of the run writes it. */
  lemma SlotIsFreeWhenWritten(bootAt: u64, recoveryFrom: u64, steps: seq<Step>)
    requires bootAt <= recoveryFrom
    requires CanRun(Init(bootAt, recoveryFrom), steps) && UncrossedRun(Init(bootAt, recoveryFrom), steps)
    ensures NeverOverwrites(Init(bootAt, recoveryFrom), steps)
  {
    UncrossedNeverOverwrites(Init(bootAt, recoveryFrom), steps);
  }

  lemma {:induction false} EndIsConserved(s: Tx, steps: seq<Step>)
    requires CanRun(s, steps) && AlwaysConserved(s, steps)
    ensures AllConserved(Run(s, steps))
    decreases |steps|
  {
    hide AllConserved;
    if steps != [] {
      EndIsConserved(Apply(s, steps[0]), steps[1..]);
    }
  }

  /** In every run in which no pass with a deferred frame starts past a deadline, the frames taken
      from each queue are, in order, those attempted and then those held: none is lost, sent twice
      or overtaken by a younger frame of its source. */
  lemma EveryFrameOnce(bootAt: u64, recoveryFrom: u64, steps: seq<Step>, source: Source)
    requires bootAt <= recoveryFrom && source != Periodic
    requires CanRun(Init(bootAt, recoveryFrom), steps) && UncrossedRun(Init(bootAt, recoveryFrom), steps)
    ensures var s := Run(Init(bootAt, recoveryFrom), steps);
            From(s.history.taken, source) == From(s.history.attempted, source) + Held(s, source)
  {
    var s0 := Init(bootAt, recoveryFrom);
    SlotIsFreeWhenWritten(bootAt, recoveryFrom, steps);
    RunLosesExactly(bootAt, recoveryFrom, steps);
    EndIsConserved(s0, steps);
    assert Conserved(Run(s0, steps), source);
  }

  lemma Then(steps: seq<Step>, s: Tx, step: Step) returns (longer: seq<Step>, t: Tx)
    requires CanRun(Init(0, 0), steps) && Run(Init(0, 0), steps) == s && Enabled(s, step)
    ensures t == Apply(s, step)
    ensures CanRun(Init(0, 0), longer) && Run(Init(0, 0), longer) == t
  {
    RunExtend(Init(0, 0), steps, step);
    longer, t := steps + [step], Apply(s, step);
  }

  const R1 := Envelope(Recovery, 1)
  const R2 := Envelope(Recovery, 2)
  const E3 := Envelope(EmergencyResult, 3)
  const C4 := Envelope(CommandResult, 4)
  const E5 := Envelope(EmergencyResult, 5)

  lemma FirstRecoverySent() returns (steps: seq<Step>, s: Tx)
    ensures CanRun(Init(0, 0), steps) && Run(Init(0, 0), steps) == s
    ensures s == Init(0, 0).(nextRecoveryAt := 200_000, recoverySent := true,
                             history := History([R1], [R1], [Attempt(Recovery), Overdue(0, 500_000)], Some(0), 0))
  {
    steps, s := [], Init(0, 0);
    steps, s := Then(steps, s, Arrive(R1));
    steps, s := Then(steps, s, Begin(0));
    steps, s := Then(steps, s, Poll(0, 0, 0, false));
    steps, s := Then(steps, s, Prepared(true, 0));
    steps, s := Then(steps, s, Completed(0, 0));
  }

  /** A Recovery frame waits in the deferral slot 1 us before a slot. */
  lemma DeferredJustBeforeSlot() returns (steps: seq<Step>, s: Tx)
    ensures CanRun(Init(0, 0), steps) && Run(Init(0, 0), steps) == s
    ensures s == Init(0, 0).(clock := 499_999, nextRecoveryAt := 200_000, recoverySent := true, deferred := Some(R2),
                             history := History([R1, R2, E3], [R1, E3],
                               [Attempt(Recovery), Overdue(0, 500_000), Attempt(EmergencyResult), Overdue(0, 500_000)],
                               Some(0), 499_999))
  {
    hide Run, CanRun;
    steps, s := FirstRecoverySent();
    steps, s := Then(steps, s, Arrive(R2));
    steps, s := Then(steps, s, Begin(200_000));
    steps, s := Then(steps, s, Poll(200_000, 200_000, 200_000, false));
    steps, s := Then(steps, s, Arrive(E3));
    steps, s := Then(steps, s, Prepared(true, 200_000));
    steps, s := Then(steps, s, Completed(499_999, 499_999));
  }

  /** A run that crosses the slot at 0.5 s between an attempt and the next pass: the deferred
      Recovery frame is held back, a command result is preempted in its turn, and the Recovery
      frame is overwritten before it was ever attempted. */
  lemma CrossingCanLoseAFrame() returns (steps: seq<Step>)
    ensures CanRun(Init(0, 0), steps)
    ensures var s := Run(Init(0, 0), steps);
            && R2 in s.history.taken && R2 !in s.history.attempted
            && Held(s, Recovery) == []
  {
    hide Run, CanRun;
    var s;
    steps, s := DeferredJustBeforeSlot();
    assert s.history.attempted == [R1, E3] && s.history.taken[1] == R2;
    steps, s := Then(steps, s, Begin(500_000));
    steps, s := Then(steps, s, Arrive(C4));
    steps, s := Then(steps, s, Poll(500_000, 500_000, 500_000, false));
    steps, s := Then(steps, s, Arrive(E5));
    steps, s := Then(steps, s, Prepared(true, 500_000));
    assert s.history.taken[1] == R2;
  }
}
