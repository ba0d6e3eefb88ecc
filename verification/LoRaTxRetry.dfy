/** The one-shot retry of the LoRa transmit task: when a Recovery attempt earns the periodic frame one, how
    long it is kept, and what that means for the regular slots Recovery frames take
    (src/tasks/lora_task_base.rs:1151-1162, 1224-1246, 1338-1376). */
module LoRaTxRetry {
  import opened Prelude
  import opened LoRaScheduler
  import opened LoRaTx
  import opened LoRaTxInvariants

  // ---- The schedule of a pass

  /** A pass aims at the earliest of the deadlines that exist, and at the regular one in a tie. */
  lemma ScheduleIsEarliest(s: Tx)
    ensures var schedule := ScheduleOf(s);
            && (schedule.valid <==> s.deadlineValid || s.retryAt.Some?)
            && (schedule.valid ==>
                  || (s.deadlineValid && schedule.at == s.nextTxAt && !schedule.retrySelected)
                  || (s.retryAt.Some? && schedule.at == s.retryAt.value && schedule.retrySelected))
            && (s.deadlineValid ==> schedule.at <= s.nextTxAt)
            && (s.retryAt.Some? ==> schedule.at <= s.retryAt.value)
            && (schedule.retrySelected <==> s.retryAt.Some? && (s.deadlineValid ==> s.retryAt.value < s.nextTxAt))
  {
  }

  // ---- One step

  /** A valid regular slot has passed by the end of the step, and a later one follows it. */
  predicate SlotPassed(s: Tx, now: u64, t: Tx) {
    s.deadlineValid && s.nextTxAt <= now && t.deadlineValid
  }

  /** The end of the gap after a Recovery attempt. */
  function GapEnd(completedAt: u64): Option<u64> {
    if completedAt + 200_000 < U64_LIMIT then Some(completedAt + 200_000) else None
  }

  /** A retry that the end of a non-periodic attempt has reached is given up. */
  function Unless(retryAt: Option<u64>, reached: u64): Option<u64> {
    if retryAt.Some? && retryAt.value > reached then retryAt else None
  }

  /** The retry after the end of an attempt. */
  lemma RetryAfterAttempt(s: Tx, completedAt: u64, now: u64)
    requires Enabled(s, Completed(completedAt, now))
    ensures var t := Apply(s, Completed(completedAt, now));
            t.retryAt ==
            match s.phase.envelope.source
            case Recovery =>
              if s.phase.displacedRegular || SlotPassed(s, now, t) then GapEnd(completedAt)
              else Unless(s.retryAt, completedAt)
            case Periodic => s.retryAt
            case _ => Unless(s.retryAt, completedAt)
  {
    var after := Recorded(s, completedAt);
    OverdueMeansPassed(after, now);
    SkipOverdueFrame(after, now);
    hide SkipOverdue, OverdueSlots;
  }

  lemma OverdueMeansPassed(s: Tx, now: u64)
    ensures OverdueSlots(s, now) != 0 <==> SlotPassed(s, now, SkipOverdue(s, now))
  {
    if s.deadlineValid {
      var point, steps := AdvanceDeadlineIsFirstSlot(s.nextTxAt, now, s.interval);
      if s.interval > 0 {
        assert steps == 0 ==> point == s.nextTxAt;
        assert steps > 0 ==> s.nextTxAt <= point - s.interval by {
          if steps > 0 {
            MultiplesGrow(0, steps - 1, s.interval);
            MultiplesGrow(steps - 1, steps, s.interval);
          }
        }
      }
      hide AdvanceDeadline;
    }
  }

  /** Apart from the end of an attempt, only a periodic slot touches the retry: it uses it up. */
  lemma RetryLastsExactly(s: Tx, step: Step)
    requires Enabled(s, step)
    ensures var t := Apply(s, step);
            !step.Completed? ==>
              t.retryAt == if step.Poll? && t.phase.Fetching? && !t.phase.eventOnly then None else s.retryAt
  {
    hide SkipOverdue, OverdueSlots, AttemptDone, PreparedTaken, SelectPeriodicDeadline, PacketTaken;
    match step
    case Poll(a, b, now, recoveryActive) =>
      PollKeepsRetry(s, a, b, now, recoveryActive);
      hide PollArms;
    case PacketReady(packet, now) => PacketKeepsRetry(s, packet, now);
    case Prepared(ready, now) => PreparedKeepsRetry(s, ready, now);
    case _ =>
  }

  lemma PollKeepsRetry(s: Tx, a: u64, b: u64, now: u64, recoveryActive: bool)
    requires s.phase.Waiting? && ReadyArm(s, a, b).Some?
    ensures var t := PollArms(s, a, b, now, recoveryActive);
            t.retryAt == if t.phase.Fetching? && !t.phase.eventOnly then None else s.retryAt
  {
    OtherArmsFrame(s, a, b, now, recoveryActive);
    hide ReadyArm, PeriodicInterval, RegularDeadlineAfterSelection;
    match ReadyArm(s, a, b).value
    case QueueArm(source) =>
      if source == Recovery { RecoveryArmPhase(s, now); } else { QueueArmPhase(s, source, now); }
      hide RecoveryArm, QueueArmTaken;
    case _ =>
  }

  lemma RecoveryArmPhase(s: Tx, now: u64)
    requires s.phase.Waiting? && (s.pending.Some? || s.queues.recovery != [])
    ensures var t := RecoveryArm(s, now);
            && t.history.marks == s.history.marks
            && (t.phase.Top? || (t.phase.Preparing? && !t.phase.regular))
  {
    hide Receive, RecoveryAllowed, Due;
    if s.pending.None? {
      ReceiveFrame(s, Recovery);
    }
  }

  lemma QueueArmPhase(s: Tx, source: Source, now: u64)
    requires s.phase.Waiting? && s.queues.Of(source) != []
    ensures var t := QueueArmTaken(s, source, now);
            t.history.marks == s.history.marks && t.phase.Preparing? && !t.phase.regular
  {
    hide Receive;
    ReceiveFrame(s, source);
  }

  lemma PacketKeepsRetry(s: Tx, packet: Option<Packet>, now: u64)
    requires s.phase.Fetching?
    ensures PacketTaken(s, packet, now).retryAt == s.retryAt
  {
    hide SkipOverdue;
    SkipOverdueFrame(s.(recoverySent := UpdateRecoveryFairness(s.recoverySent, Periodic),
                        history := s.history.(marks := s.history.marks + [EmptySlot])), now);
  }

  lemma PreparedKeepsRetry(s: Tx, ready: bool, now: u64)
    requires s.phase.Preparing?
    ensures PreparedTaken(s, ready, now).retryAt == s.retryAt
  {
    hide HigherPriority, SaturatingAdd32, Receive;
    var p := HigherPriority(s, s.phase.envelope.source, s.phase.schedule, now);
    if p.FromQueue? {
      ReceiveFrame(s, p.source);
    }
  }

  // ---- Runs

  /** The last thing that happened to the periodic slots is that a regular one was selected: its frame has
      been neither attempted nor found missing. */
  predicate SlotUnserved(s: Tx) {
    s.history.marks != [] && s.history.marks[|s.history.marks| - 1].RegularSlot?
  }

  /** What the phase says about the selected slot is what happened. */
  predicate SlotTracked(s: Tx) {
    match s.phase
    case Top => !SlotUnserved(s)
    case Waiting(_, _) => !SlotUnserved(s)
    case Fetching(_, regular, eventOnly) => (regular <==> SlotUnserved(s)) && (eventOnly ==> !regular)
    case Preparing(_, e, regular) => (regular <==> SlotUnserved(s)) && (regular ==> e.source == Periodic)
    case Sending(e, _, displaced) => displaced <==> SlotUnserved(s) && e.source == Recovery
  }

  lemma SkipServed(s: Tx, now: u64)
    requires !SlotUnserved(s)
    ensures !SlotUnserved(SkipOverdue(s, now))
  {
    hide AdvanceDeadline, SaturatingAdd32;
  }

  lemma TrackedStep(s: Tx, step: Step)
    requires WellSourced(s) && SlotTracked(s) && Enabled(s, step)
    ensures SlotTracked(Apply(s, step))
  {
    hide SkipOverdue, OverdueSlots, PreparedTaken, PacketTaken, SelectPeriodicDeadline, QueuesSourced;
    hide PeriodicInterval, RegularDeadlineAfterSelection;
    match step
    case Poll(a, b, now, recoveryActive) => TrackedPoll(s, a, b, now, recoveryActive);
    case PacketReady(packet, now) => TrackedPacket(s, packet, now);
    case Prepared(ready, now) => TrackedPrepared(s, ready, now);
    case Completed(completedAt, now) => SkipServed(Recorded(s, completedAt), now);
    case _ =>
  }

  lemma TrackedPacket(s: Tx, packet: Option<Packet>, now: u64)
    requires SlotTracked(s) && s.phase.Fetching?
    ensures SlotTracked(PacketTaken(s, packet, now))
  {
    hide SkipOverdue;
    SkipServed(s.(recoverySent := UpdateRecoveryFairness(s.recoverySent, Periodic),
                  history := s.history.(marks := s.history.marks + [EmptySlot])), now);
  }

  lemma TrackedPoll(s: Tx, a: u64, b: u64, now: u64, recoveryActive: bool)
    requires SlotTracked(s) && Enabled(s, Poll(a, b, now, recoveryActive))
    ensures SlotTracked(PollArms(s, a, b, now, recoveryActive))
  {
    assert ReadyArm(s, a, b).Some?;
    hide ReadyArm, PeriodicInterval, RegularDeadlineAfterSelection;
    match ReadyArm(s, a, b).value
    case QueueArm(source) =>
      if source == Recovery { RecoveryArmPhase(s, now); } else { QueueArmPhase(s, source, now); }
      hide RecoveryArm, QueueArmTaken;
    case _ =>
  }

  lemma TrackedPrepared(s: Tx, ready: bool, now: u64)
    requires WellSourced(s) && SlotTracked(s) && s.phase.Preparing?
    ensures SlotTracked(PreparedTaken(s, ready, now))
  {
    hide HigherPriority, SaturatingAdd32, QueuesSourced;
    var p := HigherPriority(s, s.phase.envelope.source, s.phase.schedule, now);
    if !p.Keep? {
      HigherIsHigher(s, s.phase.envelope.source, s.phase.schedule, now);
    }
  }

  lemma {:induction false} TrackedRun(s: Tx, steps: seq<Step>)
    requires Shaped(s) && SlotTracked(s) && CanRun(s, steps)
    ensures SlotTracked(Run(s, steps))
    decreases |steps|
  {
    hide SlotTracked, Shaped, Enabled, Apply;
    if steps != [] {
      ShapedStep(s, steps[0]);
      assert WellSourced(s) by {
        ShapedIsWellSourced(s);
      }
      TrackedStep(s, steps[0]);
      TrackedRun(Apply(s, steps[0]), steps[1..]);
    }
  }

  /** In every run, a Recovery attempt that took a regular slot, or during which one passed, leaves a
      periodic slot scheduled at most 200 ms after its end; without such a slot it earns no retry. */
  lemma LostSlotIsRescheduled(bootAt: u64, recoveryFrom: u64, steps: seq<Step>, completedAt: u64, now: u64)
    requires bootAt <= recoveryFrom && CanRun(Init(bootAt, recoveryFrom), steps)
    requires var s := Run(Init(bootAt, recoveryFrom), steps);
             Enabled(s, Completed(completedAt, now)) && s.phase.envelope.source == Recovery
    ensures var s := Run(Init(bootAt, recoveryFrom), steps);
            var t := Apply(s, Completed(completedAt, now));
            if SlotUnserved(s) || SlotPassed(s, now, t) then
              && t.retryAt == GapEnd(completedAt)
              && (GapEnd(completedAt).Some? ==>
                    ScheduleOf(t).valid && ScheduleOf(t).at <= completedAt + RECOVERY_GAP)
            else t.retryAt == Unless(s.retryAt, completedAt)
  {
    TrackedRun(Init(bootAt, recoveryFrom), steps);
    var s := Run(Init(bootAt, recoveryFrom), steps);
    hide Run, CanRun, Init;
    RetryAfterAttempt(s, completedAt, now);
    hide Apply, SlotUnserved, SlotPassed, ScheduleOf;
    ScheduleIsEarliest(Apply(s, Completed(completedAt, now)));
  }
}
