/** The body of `lora_tx_task` (src/tasks/lora_task_base.rs:787-850, 1134-1392): its variables, changed
    section by section between awaits, follow the steps of the state machine. */
module LoRaTxTask {
  import opened Prelude
  import opened LoRaScheduler
  import opened LoRaTx

  class TransmitTask {
    var nextTxAt: u64
    var periodicDeadlineValid: bool
    var periodicRetryAt: Option<u64>
    var nextRecoveryAt: u64
    var pendingRecovery: Option<Envelope>
    var deferredEnvelope: Option<Envelope>
    var recoverySentSincePeriodic: bool
    var interval: u64
    var controlRollCycleActive: bool
    var preferControlRoll: bool
    // the channels, the signal and the counter it shares with other tasks
    var channels: Queues
    var controlRollSignal: bool
    var missedSlotCount: u32
    // where it is, and what the run leaves behind
    var phase: Phase
    ghost var clock: u64
    ghost var history: History

    ghost function Value(): Tx
      reads this
    {
      Tx(clock, nextTxAt, periodicDeadlineValid, periodicRetryAt, nextRecoveryAt, pendingRecovery, deferredEnvelope,
         recoverySentSincePeriodic, interval, controlRollCycleActive, preferControlRoll, channels, controlRollSignal,
         missedSlotCount, phase, history)
    }

    constructor (bootAt: u64, recoveryFrom: u64)
      requires bootAt <= recoveryFrom
      ensures Value() == Init(bootAt, recoveryFrom)
    {
      var first := PeriodicInterval(false, false);
      var deadline := CheckedAdd64(bootAt, first);
      nextTxAt := if deadline.Some? then deadline.value else U64_MAX;
      periodicDeadlineValid := deadline.Some?;
      periodicRetryAt, nextRecoveryAt, pendingRecovery, deferredEnvelope := None, recoveryFrom, None, None;
      recoverySentSincePeriodic, interval, controlRollCycleActive, preferControlRoll := false, first, false, false;
      channels, controlRollSignal, missedSlotCount := Queues([], [], [], []), false, 0;
      phase, clock, history := Top, recoveryFrom, History([], [], [], None, recoveryFrom);
    }

    /** Lines 1151-1182: the schedule of this pass, and the deferred frame unless it must wait. */
    method BeginPass(now: u64)
      modifies this
      ensures Value() == LoRaTx.BeginPass(old(Value()), now)
    {
      var selection := SelectPeriodicDeadline(nextTxAt, periodicDeadlineValid, periodicRetryAt);
      var valid := if selection.retrySelected then periodicRetryAt.Some? else periodicDeadlineValid;
      var schedule := Schedule(selection.deadline, valid, selection.retrySelected);
      var periodicDue := valid && now >= selection.deadline;
      var blocked := deferredEnvelope.Some?
        && DeferredRecoveryBlocked(deferredEnvelope.value.source, recoverySentSincePeriodic, periodicDue);
      clock := now;
      if !blocked && deferredEnvelope.Some? {
        phase := Preparing(schedule, deferredEnvelope.value, false);
        deferredEnvelope := None;
      } else {
        phase := Waiting(schedule, RecoveryAllowed(recoverySentSincePeriodic, periodicDue));
      }
    }

    /** `try_receive` on one of the channels */
    method TryReceive(source: Source) returns (envelope: Option<Envelope>)
      modifies this`channels, this`history
      ensures var s := old(Value());
              if s.queues.Of(source) == [] then envelope == None && Value() == s
              else envelope == Some(s.queues.Of(source)[0]) && Value() == Receive(s, source)
    {
      var queue := channels.Of(source);
      if queue == [] {
        return None;
      }
      channels := channels.With(source, queue[1..]);
      history := history.(taken := history.taken + [queue[0]]);
      envelope := Some(queue[0]);
    }

    /** Lines 1207-1209. */
    method QueueArm(source: Source, now: u64)
      requires phase.Waiting? && channels.Of(source) != []
      modifies this
      ensures Value() == QueueArmTaken(old(Value()), source, now)
    {
      var envelope := TryReceive(source);
      clock := now;
      phase := Preparing(phase.schedule, envelope.value, false);
    }

    /** Lines 1210-1223. */
    method RecoveryArm(now: u64)
      requires phase.Waiting? && (pendingRecovery.Some? || channels.recovery != [])
      modifies this
      ensures Value() == LoRaTx.RecoveryArm(old(Value()), now)
    {
      var hadPending := pendingRecovery.Some?;
      var envelope := pendingRecovery;
      if !hadPending {
        envelope := TryReceive(Recovery);
      }
      var schedule := phase.schedule;
      var recoveryReady := hadPending || now >= nextRecoveryAt;
      var periodicDue := schedule.valid && now >= schedule.at;
      clock := now;
      if recoveryReady && RecoveryAllowed(recoverySentSincePeriodic, periodicDue) {
        pendingRecovery := None;
        phase := Preparing(schedule, envelope.value, false);
      } else {
        pendingRecovery := envelope;
        phase := Top;
      }
    }

    /** Lines 1224-1246. */
    method PeriodicArm(now: u64, recoveryActive: bool)
      requires phase.Waiting?
      modifies this`interval, this`nextTxAt, this`periodicDeadlineValid, this`periodicRetryAt, this`phase, this`clock
      modifies this`history
      ensures Value() == PeriodicArmTaken(old(Value()), now, recoveryActive)
    {
      hide PeriodicInterval, RegularDeadlineAfterSelection;
      interval := PeriodicInterval(recoveryActive, controlRollCycleActive);
      var retrySelected := phase.schedule.retrySelected;
      var next := RegularDeadlineAfterSelection(nextTxAt, retrySelected, interval);
      periodicRetryAt := None;
      clock := now;
      phase := Fetching(phase.schedule, !retrySelected, false);
      assert Value() == old(Value()).(clock := now, interval := interval, retryAt := None, phase := phase);
      hide Value;
      if !retrySelected {
        ConsumeRegularSlot(next);
      }
    }

    /** Lines 1233-1243. */
    method ConsumeRegularSlot(next: Option<u64>)
      modifies this`nextTxAt, this`periodicDeadlineValid, this`history
      ensures var s := old(Value());
              Value() == s.(nextTxAt := if next.Some? then next.value else s.nextTxAt,
                            deadlineValid := s.deadlineValid && next.Some?,
                            history := s.history.(marks := s.history.marks + [RegularSlot(s.interval)]))
    {
      history := history.(marks := history.marks + [RegularSlot(interval)]);
      match next {
        case Some(deadline) => nextTxAt := deadline;
        case None => periodicDeadlineValid := false;
      }
    }

    /** Lines 1269-1271. */
    method ControlRollArm(now: u64)
      requires phase.Waiting?
      modifies this`controlRollSignal, this`phase, this`clock
      ensures Value() == ControlRollTaken(old(Value()), now)
    {
      controlRollSignal := false;
      clock := now;
      phase := Fetching(phase.schedule, false, true);
    }

    /** select5: the arms are polled from left to right. */
    method Poll(recoveryPoll: u64, periodicPoll: u64, now: u64, recoveryActive: bool)
      requires phase.Waiting? && ReadyArm(Value(), recoveryPoll, periodicPoll).Some?
      modifies this
      ensures Value() == PollArms(old(Value()), recoveryPoll, periodicPoll, now, recoveryActive)
    {
      hide QueueArmTaken, LoRaTx.RecoveryArm, PeriodicArmTaken, ControlRollTaken;
      if channels.emergency != [] {
        QueueArm(EmergencyResult, now);
      } else if channels.command != [] {
        QueueArm(CommandResult, now);
      } else if channels.time != [] {
        QueueArm(GroundTimeRequest, now);
      } else if phase.recoveryAllowed
                && (if pendingRecovery.Some? then recoveryPoll >= nextRecoveryAt else channels.recovery != []) {
        RecoveryArm(now);
      } else if phase.schedule.valid && periodicPoll >= phase.schedule.at {
        PeriodicArm(now, recoveryActive);
      } else {
        ControlRollArm(now);
      }
    }

    /** skip_overdue_periodic_deadlines, and its callers' reaction when no slot can follow */
    method SkipOverduePeriodicDeadlines(now: u64) returns (skipped: u32)
      modifies this`nextTxAt, this`periodicDeadlineValid, this`missedSlotCount, this`history
      ensures Value() == SkipOverdue(old(Value()), now) && skipped == OverdueSlots(old(Value()), now)
    {
      if !periodicDeadlineValid {
        return 0;
      }
      match AdvanceDeadline(nextTxAt, now, interval) {
        case None =>
          periodicDeadlineValid := false;
          skipped := 0;
        case Some(advance) =>
          nextTxAt := advance.nextDeadline;
          missedSlotCount := SaturatingAdd32(missedSlotCount, advance.missedSlots);
          history := history.(marks := history.marks + [Overdue(advance.missedSlots, interval)]);
          skipped := advance.missedSlots;
      }
    }

    /** Lines 1247-1268 and 1271-1280. */
    method PacketReady(packet: Option<Packet>, now: u64)
      requires phase.Fetching?
      modifies this`recoverySentSincePeriodic, this`nextTxAt, this`periodicDeadlineValid, this`missedSlotCount
      modifies this`controlRollCycleActive, this`preferControlRoll, this`phase, this`clock, this`history
      ensures Value() == PacketTaken(old(Value()), packet, now)
    {
      hide SkipOverdue, UpdateRecoveryFairness;
      var schedule, regular, eventOnly := phase.schedule, phase.regular, phase.eventOnly;
      match packet {
        case None =>
          if !eventOnly {
            EmptySlotPassed(now);
          }
          phase := Top;
        case Some(built) =>
          if !eventOnly {
            controlRollCycleActive := built.cycleAvailable;
            preferControlRoll := built.cycleAvailable && !built.isControlRoll;
          }
          phase := Preparing(schedule, Envelope(Periodic, built.id), regular);
      }
      clock := now;
    }

    /** A slot without a packet still counts for fairness. */
    method EmptySlotPassed(now: u64)
      modifies this`recoverySentSincePeriodic, this`nextTxAt, this`periodicDeadlineValid, this`missedSlotCount
      modifies this`history
      ensures var s := old(Value());
              Value() == LoRaTx.SkipOverdue(
                s.(recoverySent := UpdateRecoveryFairness(s.recoverySent, Periodic),
                   history := s.history.(marks := s.history.marks + [EmptySlot])), now)
    {
      hide SkipOverdue, UpdateRecoveryFairness;
      recoverySentSincePeriodic := UpdateRecoveryFairness(recoverySentSincePeriodic, Periodic);
      history := history.(marks := history.marks + [EmptySlot]);
      var skipped := SkipOverduePeriodicDeadlines(now);
    }

    /** A Recovery frame: the pending one before the queue. */
    method TakeRecovery() returns (envelope: Option<Envelope>)
      modifies this`channels, this`history, this`pendingRecovery
      ensures var s := old(Value());
              if s.pending.Some? then envelope == s.pending && Value() == s.(pending := None)
              else if s.queues.Of(Recovery) == [] then envelope == None && Value() == s
              else envelope == Some(s.queues.Of(Recovery)[0]) && Value() == Receive(s, Recovery)
    {
      if pendingRecovery.Some? {
        envelope := pendingRecovery;
        pendingRecovery := None;
        return;
      }
      envelope := TryReceive(Recovery);
    }

    /** take_higher_priority_envelope */
    method TakeHigherPriorityEnvelope(selected: Source, schedule: Schedule, now: u64) returns (higher: Option<Envelope>)
      modifies this`channels, this`history, this`pendingRecovery
      ensures var s := old(Value());
              match HigherPriority(s, selected, schedule, now)
              case Keep => higher == None && Value() == s
              case FromPending => higher == s.pending && Value() == s.(pending := None)
              case FromQueue(source) => higher == Some(s.queues.Of(source)[0]) && Value() == Receive(s, source)
    {
      ghost var s := Value();
      assert s.recoverySent == recoverySentSincePeriodic && s.nextRecoveryAt == nextRecoveryAt;
      assert s.queues.Of(EmergencyResult) == s.queues.emergency && s.queues.Of(CommandResult) == s.queues.command;
      assert s.queues.Of(GroundTimeRequest) == s.queues.time && s.queues.Of(Recovery) == s.queues.recovery;
      hide Receive, Value, Queues.Of, RecoveryAllowed, PeriodicDueForReselection;
      if IsHigherPriority(EmergencyResult, selected) {
        higher := TryReceive(EmergencyResult);
        if higher.Some? { return; }
      }
      if IsHigherPriority(CommandResult, selected) {
        higher := TryReceive(CommandResult);
        if higher.Some? { return; }
      }
      if IsHigherPriority(GroundTimeRequest, selected) {
        higher := TryReceive(GroundTimeRequest);
        if higher.Some? { return; }
      }
      var periodicDue := PeriodicDueForReselection(selected, schedule.valid, now >= schedule.at);
      if IsHigherPriority(Recovery, selected) && RecoveryAllowed(recoverySentSincePeriodic, periodicDue)
         && now >= nextRecoveryAt
      {
        higher := TakeRecovery();
        return;
      }
      higher := None;
    }

    /** Lines 1287-1324. */
    method Prepared(ready: bool, now: u64)
      requires phase.Preparing?
      modifies this
      ensures Value() == PreparedTaken(old(Value()), ready, now)
    {
      hide HigherPriority, Receive, SaturatingAdd32, ShouldDeferPreempted, PreemptedPeriodicMissedSlots;
      hide RecoveryDisplacedRegularSlot;
      var schedule, selected, regular := phase.schedule, phase.envelope, phase.regular;
      var higher := None;
      if ready {
        higher := TakeHigherPriorityEnvelope(selected.source, schedule, now);
      }
      if higher.None? {
        clock := now;
        phase := Sending(selected, ready, false);
      } else {
        ghost var p := HigherPriority(old(Value()), selected.source, schedule, now);
        assert higher.value == HigherEnvelope(old(Value()), p);
        Preempt(selected, higher.value, regular, now);
      }
    }

    /** Lines 1303-1318. */
    method Preempt(selected: Envelope, higher: Envelope, regular: bool, now: u64)
      modifies this`deferredEnvelope, this`missedSlotCount, this`phase, this`clock
      ensures Value() == old(Value()).(
        clock := now,
        deferred := if ShouldDeferPreempted(selected.source) then Some(selected) else old(deferredEnvelope),
        missedSlots := SaturatingAdd32(old(missedSlotCount),
          if regular then PreemptedPeriodicMissedSlots(selected.source) else 0),
        phase := Sending(higher, true, RecoveryDisplacedRegularSlot(selected.source, higher.source, regular)))
    {
      if ShouldDeferPreempted(selected.source) {
        deferredEnvelope := Some(selected);
      }
      var displaced := RecoveryDisplacedRegularSlot(selected.source, higher.source, regular);
      var missed := if regular then PreemptedPeriodicMissedSlots(selected.source) else 0;
      missedSlotCount := SaturatingAdd32(missedSlotCount, missed);
      phase := Sending(higher, true, displaced);
      clock := now;
    }

    /** Lines 1337-1355. */
    method RecordAttempt(completedAt: u64)
      requires phase.Sending?
      modifies this`periodicRetryAt, this`nextRecoveryAt, this`recoverySentSincePeriodic, this`history
      ensures Value() == Recorded(old(Value()), completedAt)
    {
      var envelope := phase.envelope;
      periodicRetryAt := RetryAfterNonperiodicAttempt(periodicRetryAt, completedAt, envelope.source);
      if envelope.source == Recovery {
        var eligible := CheckedAdd64(completedAt, RECOVERY_GAP);
        nextRecoveryAt := if eligible.Some? then eligible.value else U64_MAX;
      }
      recoverySentSincePeriodic := UpdateRecoveryFairness(recoverySentSincePeriodic, envelope.source);
      history := history.(
        attempted := history.attempted + [envelope],
        marks := history.marks + [Attempt(envelope.source)],
        lastRecoveryEnd := if envelope.source == Recovery then Some(completedAt) else history.lastRecoveryEnd,
        attemptEnd := completedAt);
    }

    /** Lines 1337-1376. */
    method Completed(completedAt: u64, now: u64)
      requires phase.Sending?
      modifies this
      ensures Value() == AttemptDone(old(Value()), completedAt, now)
    {
      var source, displacedRegular := phase.envelope.source, phase.displacedRegular;
      RecordAttempt(completedAt);
      var overdue := SkipOverduePeriodicDeadlines(now);
      if source == Recovery && (displacedRegular || overdue != 0) {
        periodicRetryAt := RetryAfterRecovery(completedAt, RECOVERY_GAP, true);
      }
      clock := now;
      phase := Top;
    }

    /** What other tasks do to the channels and the signal. */
    method Outside(step: Step)
      requires Enabled(Value(), step) && (step.Arrive? || step.DropOldestTimeRequest? || step.SignalControlRoll?)
      modifies this`channels, this`controlRollSignal
      ensures Value() == Apply(old(Value()), step)
    {
      match step {
        case Arrive(e) => channels := channels.With(e.source, channels.Of(e.source) + [e]);
        case DropOldestTimeRequest => channels := channels.(time := channels.time[1..]);
        case SignalControlRoll => controlRollSignal := true;
      }
    }

    /** One stretch of the task between two awaits, or one of its environment. */
    method Take(step: Step)
      requires Enabled(Value(), step)
      modifies this
      ensures Value() == Apply(old(Value()), step)
    {
      hide LoRaTx.BeginPass, PollArms, PacketTaken, PreparedTaken, AttemptDone, ReadyArm;
      match step {
        case Begin(now) => BeginPass(now);
        case Poll(a, b, now, recoveryActive) => Poll(a, b, now, recoveryActive);
        case PacketReady(packet, now) => PacketReady(packet, now);
        case Prepared(ready, now) => Prepared(ready, now);
        case Completed(completedAt, now) => Completed(completedAt, now);
        case _ => Outside(step);
      }
    }
  }

  /** The task from boot through any run of the state machine: what is proved of runs holds of it. */
  method Perform(bootAt: u64, recoveryFrom: u64, steps: seq<Step>) returns (task: TransmitTask)
    requires bootAt <= recoveryFrom && CanRun(Init(bootAt, recoveryFrom), steps)
    ensures fresh(task) && task.Value() == Run(Init(bootAt, recoveryFrom), steps)
  {
    task := new TransmitTask(bootAt, recoveryFrom);
    hide Init, Enabled, Apply;
    assert steps[0..] == steps;
    for i := 0 to |steps|
      invariant fresh(task) && CanRun(task.Value(), steps[i..])
      invariant Run(task.Value(), steps[i..]) == Run(Init(bootAt, recoveryFrom), steps)
    {
      assert steps[i..][0] == steps[i] && steps[i..][1..] == steps[i + 1..];
      task.Take(steps[i]);
    }
  }
}
