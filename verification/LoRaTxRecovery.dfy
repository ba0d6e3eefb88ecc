/** Recovery pacing and fairness of the LoRa transmit task, over every run. */
module LoRaTxRecovery {
  import opened Prelude
  import opened LoRaScheduler
  import opened LoRaTx
  import opened LoRaTxInvariants

  /** A periodic opportunity: a periodic frame was attempted, or its slot came without a packet. */
  predicate Opportunity(mark: Mark) {
    mark == Attempt(Periodic) || mark == EmptySlot
  }

  /** Every Recovery attempt so far was followed by a periodic opportunity. */
  ghost predicate OpportunitySinceRecovery(marks: seq<Mark>) {
    forall i | 0 <= i < |marks| && marks[i] == Attempt(Recovery) ::
      exists j :: i < j < |marks| && Opportunity(marks[j])
  }

  lemma AppendMark(marks: seq<Mark>, mark: Mark)
    ensures OpportunitySinceRecovery(marks + [mark]) <==>
            (Opportunity(mark) || (mark != Attempt(Recovery) && OpportunitySinceRecovery(marks)))
  {
    var longer := marks + [mark];
    if Opportunity(mark) {
      assert longer[|marks|] == mark;
    } else if mark == Attempt(Recovery) {
      assert longer[|marks|] == mark;
    } else if OpportunitySinceRecovery(marks) {
      forall i | 0 <= i < |longer| && longer[i] == Attempt(Recovery)
        ensures exists j :: i < j < |longer| && Opportunity(longer[j])
      {
        assert marks[i] == longer[i];
        var j :| i < j < |marks| && Opportunity(marks[j]);
        assert longer[j] == marks[j];
      }
    } else {
      var i :| 0 <= i < |marks| && marks[i] == Attempt(Recovery)
        && !exists j :: i < j < |marks| && Opportunity(marks[j]);
      assert longer[i] == marks[i];
      forall j | i < j < |longer|
        ensures !Opportunity(longer[j])
      {
        if j < |marks| {
          assert longer[j] == marks[j];
        }
      }
    }
  }

  /** The fairness flag says exactly that a periodic opportunity is owed. */
  ghost predicate FlagIsDebt(s: Tx) {
    s.recoverySent <==> !OpportunitySinceRecovery(s.history.marks)
  }

  lemma SkipKeepsDebt(s: Tx, now: u64)
    requires FlagIsDebt(s)
    ensures FlagIsDebt(SkipOverdue(s, now))
  {
    if s.deadlineValid && AdvanceDeadline(s.nextTxAt, now, s.interval).Some? {
      AppendMark(s.history.marks, Overdue(AdvanceDeadline(s.nextTxAt, now, s.interval).value.missedSlots, s.interval));
    }
  }

  lemma CompletedKeepsDebt(s: Tx, completedAt: u64, now: u64)
    requires FlagIsDebt(s) && s.phase.Sending?
    ensures FlagIsDebt(AttemptDone(s, completedAt, now))
  {
    var source := s.phase.envelope.source;
    hide OpportunitySinceRecovery, SkipOverdue, OverdueSlots;
    AppendMark(s.history.marks, Attempt(source));
    SkipKeepsDebt(Recorded(s, completedAt), now);
  }

  lemma PacketKeepsDebt(s: Tx, packet: Option<Packet>, now: u64)
    requires FlagIsDebt(s) && s.phase.Fetching?
    ensures FlagIsDebt(PacketTaken(s, packet, now))
  {
    hide OpportunitySinceRecovery, SkipOverdue;
    if packet.None? && !s.phase.eventOnly {
      AppendMark(s.history.marks, EmptySlot);
      SkipKeepsDebt(s.(recoverySent := false, history := s.history.(marks := s.history.marks + [EmptySlot])), now);
    }
  }

  lemma PollMarks(s: Tx, recoveryPoll: u64, periodicPoll: u64, now: u64, recoveryActive: bool)
    requires s.phase.Waiting? && ReadyArm(s, recoveryPoll, periodicPoll).Some?
    ensures var t := PollArms(s, recoveryPoll, periodicPoll, now, recoveryActive);
            && t.recoverySent == s.recoverySent
            && (t.history.marks == s.history.marks
                || t.history.marks ==
                   s.history.marks + [RegularSlot(PeriodicInterval(recoveryActive, s.controlRollActive))])
  {
    hide RecoveryArm, QueueArmTaken, ControlRollTaken, PeriodicInterval, CheckedAdd64;
    OtherArmsFrame(s, recoveryPoll, periodicPoll, now, recoveryActive);
  }

  lemma PollKeepsDebt(s: Tx, recoveryPoll: u64, periodicPoll: u64, now: u64, recoveryActive: bool)
    requires FlagIsDebt(s) && s.phase.Waiting? && ReadyArm(s, recoveryPoll, periodicPoll).Some?
    ensures FlagIsDebt(PollArms(s, recoveryPoll, periodicPoll, now, recoveryActive))
  {
    hide OpportunitySinceRecovery, PollArms;
    PollMarks(s, recoveryPoll, periodicPoll, now, recoveryActive);
    AppendMark(s.history.marks, RegularSlot(PeriodicInterval(recoveryActive, s.controlRollActive)));
  }

  lemma DebtStep(s: Tx, step: Step)
    requires FlagIsDebt(s) && Enabled(s, step)
    ensures FlagIsDebt(Apply(s, step))
  {
    hide OpportunitySinceRecovery, PollArms, PacketTaken, AttemptDone, HigherPriority;
    match step
    case Poll(a, b, now, recoveryActive) => PollKeepsDebt(s, a, b, now, recoveryActive);
    case PacketReady(packet, now) => PacketKeepsDebt(s, packet, now);
    case Completed(completedAt, now) => CompletedKeepsDebt(s, completedAt, now);
    case _ =>
  }

  /** A Recovery frame is selected for transmission, or was before a higher priority displaced it. */
  predicate RecoveryChosen(s: Tx) {
    || (s.deferred.Some? && s.deferred.value.source == Recovery)
    || (s.phase.Preparing? && s.phase.envelope.source == Recovery)
  }

  /** The next Recovery time is the end of the last attempt plus the gap (capped where the clock
      ends), and whatever Recovery frame is chosen was chosen no earlier than that. */
  ghost predicate RecoveryTimed(s: Tx) {
    && (s.history.lastRecoveryEnd.Some? ==>
          s.nextRecoveryAt == Min(s.history.lastRecoveryEnd.value + RECOVERY_GAP, U64_MAX))
    && (RecoveryChosen(s) ==> s.clock >= s.nextRecoveryAt)
  }

  lemma RecoveryArmTimed(s: Tx, recoveryPoll: u64, now: u64)
    requires Shaped(s) && RecoveryTimed(s) && s.phase.Waiting? && s.clock <= recoveryPoll <= now
    requires if s.pending.Some? then recoveryPoll >= s.nextRecoveryAt else s.queues.recovery != []
    ensures RecoveryTimed(RecoveryArm(s, now))
  {
  }

  lemma QueueArmTimed(s: Tx, source: Source, now: u64)
    requires Shaped(s) && RecoveryTimed(s) && s.phase.Waiting? && s.clock <= now
    requires s.queues.Of(source) != [] && source != Recovery
    ensures RecoveryTimed(QueueArmTaken(s, source, now))
  {
    HeadAndTail(s.queues, source);
  }

  lemma PeriodicArmTimed(s: Tx, now: u64, recoveryActive: bool)
    requires RecoveryTimed(s) && s.phase.Waiting? && s.clock <= now
    ensures RecoveryTimed(PeriodicArmTaken(s, now, recoveryActive)) && RecoveryTimed(ControlRollTaken(s, now))
  {
    hide PeriodicInterval, CheckedAdd64;
  }

  lemma PollTimed(s: Tx, recoveryPoll: u64, periodicPoll: u64, now: u64, recoveryActive: bool)
    requires Shaped(s) && RecoveryTimed(s)
    requires Enabled(s, Poll(recoveryPoll, periodicPoll, now, recoveryActive))
    ensures RecoveryTimed(PollArms(s, recoveryPoll, periodicPoll, now, recoveryActive))
  {
    hide Shaped, RecoveryTimed, RecoveryArm, QueueArmTaken, PeriodicArmTaken, ControlRollTaken;
    match ReadyArm(s, recoveryPoll, periodicPoll).value
    case QueueArm(source) =>
      if source == Recovery { RecoveryArmTimed(s, recoveryPoll, now); } else { QueueArmTimed(s, source, now); }
    case _ => PeriodicArmTimed(s, now, recoveryActive);
  }

  lemma PacketTimed(s: Tx, packet: Option<Packet>, now: u64)
    requires RecoveryTimed(s) && Enabled(s, PacketReady(packet, now))
    ensures RecoveryTimed(PacketTaken(s, packet, now))
  {
    PacketGate(s, packet, now);
    PacketHolds(s, packet, now);
    hide PacketTaken;
  }

  lemma PacketHolds(s: Tx, packet: Option<Packet>, now: u64)
    requires s.phase.Fetching?
    ensures var t := PacketTaken(s, packet, now);
            && t.deferred == s.deferred && (t.phase.Preparing? ==> t.phase.envelope.source == Periodic)
  {
    hide SkipOverdue;
    SkipOverdueFrame(s.(recoverySent := UpdateRecoveryFairness(s.recoverySent, Periodic),
                        history := s.history.(marks := s.history.marks + [EmptySlot])), now);
  }

  lemma PreparedClock(s: Tx, ready: bool, now: u64)
    requires s.phase.Preparing?
    ensures var t := PreparedTaken(s, ready, now);
            && t.clock == now && t.phase.Sending? && t.nextRecoveryAt == s.nextRecoveryAt
            && t.history.lastRecoveryEnd == s.history.lastRecoveryEnd
  {
    hide HigherPriority, SaturatingAdd32, Receive;
    var p := HigherPriority(s, s.phase.envelope.source, s.phase.schedule, now);
    if p.FromQueue? {
      ReceiveFrame(s, p.source);
    }
  }

  lemma PreparedTimed(s: Tx, ready: bool, now: u64)
    requires Shaped(s) && RecoveryTimed(s) && Enabled(s, Prepared(ready, now))
    ensures RecoveryTimed(PreparedTaken(s, ready, now))
  {
    hide QueuesSourced, HigherPriority, PreparedTaken;
    PreparedMoves(s, ready, now);
    PreparedClock(s, ready, now);
  }

  lemma CompletedTimed(s: Tx, completedAt: u64, now: u64)
    requires Shaped(s) && RecoveryTimed(s) && Enabled(s, Completed(completedAt, now))
    ensures RecoveryTimed(AttemptDone(s, completedAt, now))
  {
    hide SkipOverdue, OverdueSlots, QueuesSourced;
    SkipOverdueFrame(Recorded(s, completedAt), now);
  }

  lemma BeginTimed(s: Tx, now: u64)
    requires Shaped(s) && RecoveryTimed(s) && Enabled(s, Begin(now))
    ensures RecoveryTimed(BeginPass(s, now))
  {
    hide QueuesSourced, SelectPeriodicDeadline, Due;
  }

  /** What other tasks do between two steps of the transmit task. */
  lemma OthersTimed(s: Tx, step: Step)
    requires RecoveryTimed(s) && Enabled(s, step)
    requires step.Arrive? || step.DropOldestTimeRequest? || step.SignalControlRoll?
    ensures RecoveryTimed(Apply(s, step))
  {
    hide BeginPass, PollArms, PacketTaken, PreparedTaken, AttemptDone;
  }

  lemma TimedStep(s: Tx, step: Step)
    requires Shaped(s) && RecoveryTimed(s) && Enabled(s, step)
    ensures RecoveryTimed(Apply(s, step))
  {
    hide Shaped, RecoveryTimed, BeginPass, PollArms, PacketTaken, PreparedTaken, AttemptDone;
    match step
    case Begin(now) => BeginTimed(s, now);
    case Poll(a, b, now, recoveryActive) => PollTimed(s, a, b, now, recoveryActive);
    case PacketReady(packet, now) => PacketTimed(s, packet, now);
    case Prepared(ready, now) => PreparedTimed(s, ready, now);
    case Completed(completedAt, now) => CompletedTimed(s, completedAt, now);
    case _ => OthersTimed(s, step);
  }

  // ---- The main result

  predicate RecoveryInFlight(phase: Phase) {
    InFlight(phase).Some? && InFlight(phase).value.source == Recovery
  }

  /** A step puts a Recovery frame into the task's hands: from its queue, from the pending slot,
      from the deferral slot or in place of a periodic frame. */
  predicate StartsRecovery(s: Tx, step: Step)
    requires Enabled(s, step)
  {
    !RecoveryInFlight(s.phase) && RecoveryInFlight(Apply(s, step).phase)
  }

  /** Whether a periodic frame is due when the step ends: the timer of this pass has expired, or
      the frame about to be displaced is itself periodic. */
  predicate PeriodicFrameDue(s: Tx, step: Step)
    requires Enabled(s, step)
  {
    var now := Apply(s, step).clock;
    match s.phase
    case Top => Due(ScheduleOf(s), now)
    case Waiting(schedule, _) => Due(schedule, now)
    case Preparing(schedule, e, _) => e.source == Periodic || Due(schedule, now)
    case _ => false
  }

  ghost predicate RecoverySound(s: Tx) {
    Shaped(s) && FlagIsDebt(s) && RecoveryTimed(s)
  }

  lemma RecoverySoundStep(s: Tx, step: Step)
    requires RecoverySound(s) && Enabled(s, step)
    ensures RecoverySound(Apply(s, step))
  {
    ShapedStep(s, step);
    DebtStep(s, step);
    TimedStep(s, step);
  }

  lemma PollStart(s: Tx, a: u64, b: u64, now: u64, recoveryActive: bool)
    requires RecoverySound(s) && Enabled(s, Poll(a, b, now, recoveryActive))
    requires StartsRecovery(s, Poll(a, b, now, recoveryActive))
    ensures now >= s.nextRecoveryAt && (Due(s.phase.schedule, now) ==> !s.recoverySent)
  {
    match ReadyArm(s, a, b).value
    case QueueArm(source) =>
      if source != Recovery {
        HeadAndTail(s.queues, source);
      }
    case _ =>
  }

  lemma PreparedStart(s: Tx, ready: bool, now: u64)
    requires RecoverySound(s) && Enabled(s, Prepared(ready, now)) && StartsRecovery(s, Prepared(ready, now))
    ensures now >= s.nextRecoveryAt && !s.recoverySent
  {
    HigherIsHigher(s, s.phase.envelope.source, s.phase.schedule, now);
  }

  lemma ClockIsLastReading(s: Tx, step: Step)
    requires Enabled(s, step)
    ensures step.Poll? || step.Prepared? || step.Begin? ==> Apply(s, step).clock == step.now
    ensures StartsRecovery(s, step) ==> step.Poll? || step.Prepared? || step.Begin?
  {
  }

  lemma RecoveryStartStep(s: Tx, step: Step)
    requires RecoverySound(s) && Enabled(s, step) && StartsRecovery(s, step)
    ensures s.history.lastRecoveryEnd.Some? ==>
              Apply(s, step).clock >= Min(s.history.lastRecoveryEnd.value + RECOVERY_GAP, U64_MAX)
    ensures PeriodicFrameDue(s, step) ==> OpportunitySinceRecovery(s.history.marks)
  {
    hide OpportunitySinceRecovery, Shaped;
    ClockIsLastReading(s, step);
    match step
    case Begin(now) =>
    case Poll(a, b, now, recoveryActive) => PollStart(s, a, b, now, recoveryActive);
    case Prepared(ready, now) => PreparedStart(s, ready, now);
    case _ =>
  }

  lemma {:induction false} RecoverySoundRun(s: Tx, steps: seq<Step>)
    requires RecoverySound(s) && CanRun(s, steps)
    ensures RecoverySound(Run(s, steps))
    decreases |steps|
  {
    if steps != [] {
      RecoverySoundStep(s, steps[0]);
      RecoverySoundRun(Apply(s, steps[0]), steps[1..]);
    }
  }

  /** In every run, however a Recovery frame comes to be selected, it is at least 200 ms after the
      previous Recovery attempt ended; and if a periodic frame is due at that moment, a periodic
      opportunity has been used since that attempt. */
  lemma RecoveryIsPacedAndFair(bootAt: u64, recoveryFrom: u64, steps: seq<Step>, step: Step)
    requires bootAt <= recoveryFrom
    requires CanRun(Init(bootAt, recoveryFrom), steps)
    requires Enabled(Run(Init(bootAt, recoveryFrom), steps), step)
    requires StartsRecovery(Run(Init(bootAt, recoveryFrom), steps), step)
    ensures var s := Run(Init(bootAt, recoveryFrom), steps);
            && (s.history.lastRecoveryEnd.Some? ==>
                  Apply(s, step).clock >= Min(s.history.lastRecoveryEnd.value + RECOVERY_GAP, U64_MAX))
            && (PeriodicFrameDue(s, step) ==> OpportunitySinceRecovery(s.history.marks))
  {
    RecoverySoundRun(Init(bootAt, recoveryFrom), steps);
    RecoveryStartStep(Run(Init(bootAt, recoveryFrom), steps), step);
  }

  // ---- And no later than that

  /** Before the first Recovery attempt the gate has always been open. */
  predicate GateStartsOpen(s: Tx) {
    s.history.lastRecoveryEnd.None? ==> s.nextRecoveryAt <= s.clock
  }

  lemma GateStep(s: Tx, step: Step)
    requires GateStartsOpen(s) && Enabled(s, step)
    ensures GateStartsOpen(Apply(s, step))
  {
    hide PollArms, PacketTaken, PreparedTaken, AttemptDone, ScheduleOf, DeferralBlocked, Due;
    match step
    case Poll(a, b, now, recoveryActive) => PollGate(s, a, b, now, recoveryActive);
    case PacketReady(packet, now) => PacketGate(s, packet, now);
    case Prepared(ready, now) => PreparedClock(s, ready, now);
    case Completed(completedAt, now) => CompletedGate(s, completedAt, now);
    case _ =>
  }

  lemma PacketGate(s: Tx, packet: Option<Packet>, now: u64)
    requires s.phase.Fetching?
    ensures var t := PacketTaken(s, packet, now);
            && t.nextRecoveryAt == s.nextRecoveryAt && t.clock == now
            && t.history.lastRecoveryEnd == s.history.lastRecoveryEnd
  {
    hide SkipOverdue;
    SkipOverdueFrame(s.(recoverySent := UpdateRecoveryFairness(s.recoverySent, Periodic),
                        history := s.history.(marks := s.history.marks + [EmptySlot])), now);
  }

  lemma CompletedGate(s: Tx, completedAt: u64, now: u64)
    requires GateStartsOpen(s) && Enabled(s, Completed(completedAt, now))
    ensures GateStartsOpen(AttemptDone(s, completedAt, now))
  {
    hide SkipOverdue, OverdueSlots;
    SkipOverdueFrame(Recorded(s, completedAt), now);
  }

  lemma PollGate(s: Tx, a: u64, b: u64, now: u64, recoveryActive: bool)
    requires s.phase.Waiting? && ReadyArm(s, a, b).Some?
    ensures var t := PollArms(s, a, b, now, recoveryActive);
            && t.nextRecoveryAt == s.nextRecoveryAt && t.clock == now
            && t.history.lastRecoveryEnd == s.history.lastRecoveryEnd
  {
    OtherArmsFrame(s, a, b, now, recoveryActive);
    hide ReadyArm, RecoveryArm, QueueArmTaken, PeriodicInterval, RegularDeadlineAfterSelection;
  }

  lemma {:induction false} GateRun(s: Tx, steps: seq<Step>)
    requires GateStartsOpen(s) && CanRun(s, steps)
    ensures GateStartsOpen(Run(s, steps))
    decreases |steps|
  {
    hide GateStartsOpen, Enabled, Apply;
    if steps != [] {
      GateStep(s, steps[0]);
      GateRun(Apply(s, steps[0]), steps[1..]);
    }
  }

  /** The gap after the last Recovery attempt, if there was one, is over. */
  predicate GapIsOver(h: History, now: u64) {
    h.lastRecoveryEnd.Some? ==> now >= Min(h.lastRecoveryEnd.value + RECOVERY_GAP, U64_MAX)
  }

  lemma GateIsGap(s: Tx, now: u64)
    requires GateStartsOpen(s) && RecoveryTimed(s) && s.clock <= now
    ensures now >= s.nextRecoveryAt <==> GapIsOver(s.history, now)
  {
  }

  /** The Recovery arm of select5 is taken: the frame is on its way exactly when the gap is over and no
      periodic frame that is owed its turn is due; otherwise it waits in the pending slot. */
  lemma RecoveryArmExactly(s: Tx, a: u64, b: u64, now: u64, recoveryActive: bool)
    requires RecoverySound(s) && GateStartsOpen(s) && Enabled(s, Poll(a, b, now, recoveryActive))
    requires ReadyArm(s, a, b) == Some(QueueArm(Recovery))
    ensures var t := Apply(s, Poll(a, b, now, recoveryActive));
            var e := if s.pending.Some? then s.pending.value else s.queues.recovery[0];
            if GapIsOver(s.history, now)
               && (Due(s.phase.schedule, now) ==> OpportunitySinceRecovery(s.history.marks))
            then t.phase.Preparing? && t.phase.envelope == e && t.pending == None
            else t.phase.Top? && t.pending == Some(e)
  {
    GateIsGap(s, now);
    hide OpportunitySinceRecovery, Shaped, Due, GapIsOver;
  }

  /** A Recovery frame takes the place of a prepared periodic frame exactly when the UART is ready, nothing
      of higher priority waits, there is one, the gap is over and a periodic opportunity was used since
      the last attempt. */
  lemma RecoveryDisplacesExactly(s: Tx, ready: bool, now: u64)
    requires RecoverySound(s) && GateStartsOpen(s) && Enabled(s, Prepared(ready, now))
    requires s.phase.envelope.source == Periodic
    ensures var t := Apply(s, Prepared(ready, now));
            t.phase.envelope.source == Recovery <==>
              && ready && s.queues.emergency == [] && s.queues.command == [] && s.queues.time == []
              && (s.pending.Some? || s.queues.recovery != [])
              && GapIsOver(s.history, now) && OpportunitySinceRecovery(s.history.marks)
  {
    GateIsGap(s, now);
    var p := HigherPriority(s, Periodic, s.phase.schedule, now);
    if !p.Keep? {
      HigherIsHigher(s, Periodic, s.phase.schedule, now);
    }
    PreparedMoves(s, ready, now);
    PreparedClock(s, ready, now);
    hide OpportunitySinceRecovery, QueuesSourced, GapIsOver, PreparedTaken;
  }

  /** So Recovery frames are neither early nor held back, in every run and for both ways they are chosen
      beside a periodic frame. */
  lemma RecoveryStartsExactly(bootAt: u64, recoveryFrom: u64, steps: seq<Step>, step: Step)
    requires bootAt <= recoveryFrom && CanRun(Init(bootAt, recoveryFrom), steps)
    requires var s := Run(Init(bootAt, recoveryFrom), steps);
             && Enabled(s, step)
             && ((step.Poll? && ReadyArm(s, step.recoveryPoll, step.periodicPoll) == Some(QueueArm(Recovery)))
                 || (step.Prepared? && s.phase.envelope.source == Periodic))
    ensures var s := Run(Init(bootAt, recoveryFrom), steps);
            StartsRecovery(s, step) <==>
              && GapIsOver(s.history, step.now)
              && (PeriodicFrameDue(s, step) ==> OpportunitySinceRecovery(s.history.marks))
              && (step.Prepared? ==>
                    && step.ready && s.queues.emergency == [] && s.queues.command == [] && s.queues.time == []
                    && (s.pending.Some? || s.queues.recovery != []))
  {
    RecoverySoundRun(Init(bootAt, recoveryFrom), steps);
    GateRun(Init(bootAt, recoveryFrom), steps);
    var s := Run(Init(bootAt, recoveryFrom), steps);
    hide Run, CanRun, Init, GateStartsOpen;
    RecoveryStarts(s, step);
  }

  lemma PendingIsRecovery(s: Tx)
    requires Shaped(s)
    ensures s.pending.Some? ==> s.pending.value.source == Recovery
    ensures s.queues.recovery != [] ==> s.queues.recovery[0].source == Recovery
  {
  }

  lemma RecoveryStarts(s: Tx, step: Step)
    requires RecoverySound(s) && GateStartsOpen(s) && Enabled(s, step)
    requires (step.Poll? && ReadyArm(s, step.recoveryPoll, step.periodicPoll) == Some(QueueArm(Recovery)))
             || (step.Prepared? && s.phase.envelope.source == Periodic)
    ensures StartsRecovery(s, step) <==>
              && GapIsOver(s.history, step.now)
              && (PeriodicFrameDue(s, step) ==> OpportunitySinceRecovery(s.history.marks))
              && (step.Prepared? ==>
                    && step.ready && s.queues.emergency == [] && s.queues.command == [] && s.queues.time == []
                    && (s.pending.Some? || s.queues.recovery != []))
  {
    PendingIsRecovery(s);
    ClockIsLastReading(s, step);
    match step {
      case Poll(a, b, now, recoveryActive) => RecoveryArmExactly(s, a, b, now, recoveryActive);
      case Prepared(ready, now) =>
        RecoveryDisplacesExactly(s, ready, now);
        PreparedClock(s, ready, now);
    }
    hide Apply, OpportunitySinceRecovery, GapIsOver, RecoverySound, Due, GateStartsOpen;
  }
}
