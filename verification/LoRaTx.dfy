/** The LoRa transmit task (`lora_tx_task`, src/tasks/lora_task_base.rs) as a state machine.

    A step is a stretch of the task between two of its awaits, or something its environment does
    meanwhile. Every `Instant::now()` of the task is a parameter of its step, so the clock may move
    between any two readings. The radio, the UART and the packet builder succeed or fail freely. */
module LoRaTx {
  import opened Prelude
  import opened LoRaScheduler

  const RECOVERY_GAP: u64 := 200_000 // RECOVERY_LOG_INTERVAL_MS in microseconds
  const SLOT_GRID: u64 := 250_000

  /** periodic_interval_ms, in microseconds. */
  function PeriodicInterval(recoveryActive: bool, controlRollCycle: bool): u64 {
    if recoveryActive then 10_000_000 else if controlRollCycle then 250_000 else 500_000
  }

  /** A frame on its way to the radio; `id` tells frames apart. */
  datatype Envelope = Envelope(source: Source, id: nat)

  datatype Queues = Queues(
    emergency: seq<Envelope>, command: seq<Envelope>, time: seq<Envelope>, recovery: seq<Envelope>)
  {
    function Of(source: Source): seq<Envelope> {
      match source
      case EmergencyResult => emergency
      case CommandResult => command
      case GroundTimeRequest => time
      case Recovery => recovery
      case Periodic => []
    }

    function With(source: Source, queue: seq<Envelope>): Queues {
      match source
      case EmergencyResult => this.(emergency := queue)
      case CommandResult => this.(command := queue)
      case GroundTimeRequest => this.(time := queue)
      case Recovery => this.(recovery := queue)
      case Periodic => this
    }
  }

  /** What one pass of the loop decided about the periodic timer (lines 1151-1162). */
  datatype Schedule = Schedule(at: u64, valid: bool, retrySelected: bool)

  datatype Phase =
    | Top                                                                   // line 1150
    | Waiting(schedule: Schedule, recoveryAllowed: bool)                    // in select5
    | Fetching(schedule: Schedule, regular: bool, eventOnly: bool)          // in periodic_packet
    | Preparing(schedule: Schedule, envelope: Envelope, regular: bool)      // in prepare_transmit
    | Sending(envelope: Envelope, onAir: bool, displacedRegular: bool)      // in transmit_frame, if prepared

  /** What a run leaves behind for the periodic slots and the fairness flag. */
  datatype Mark =
    | RegularSlot(interval: u64)               // a regular slot was selected
    | Overdue(slots: u32, interval: u64)       // slots skipped because they had passed
    | Attempt(source: Source)                  // a frame was attempted
    | EmptySlot                                // a periodic slot without a packet

  /** The history of a run. */
  datatype History = History(
    taken: seq<Envelope>,               // envelopes received from a queue
    attempted: seq<Envelope>,           // envelopes whose attempt ended
    marks: seq<Mark>,
    lastRecoveryEnd: Option<u64>,       // end of the last Recovery attempt
    attemptEnd: u64)                    // end of the last attempt (line 1337)

  datatype Tx = Tx(
    clock: u64,
    nextTxAt: u64,
    deadlineValid: bool,
    retryAt: Option<u64>,
    nextRecoveryAt: u64,
    pending: Option<Envelope>,
    deferred: Option<Envelope>,
    recoverySent: bool,
    interval: u64,
    controlRollActive: bool,
    preferControlRoll: bool,
    queues: Queues,
    controlRollSignal: bool,
    missedSlots: u32,
    phase: Phase,
    history: History)

  /** What periodic_packet returns: the frame, and what it says about the control-roll cycle. */
  datatype Packet = Packet(id: nat, cycleAvailable: bool, isControlRoll: bool)

  datatype Step =
    | Arrive(arrived: Envelope)
    | DropOldestTimeRequest
    | SignalControlRoll
    | Begin(now: u64)
    | Poll(recoveryPoll: u64, periodicPoll: u64, now: u64, recoveryActive: bool)
    | PacketReady(packet: Option<Packet>, now: u64)
    | Prepared(ready: bool, now: u64)
    | Completed(completedAt: u64, now: u64)

  function Init(bootAt: u64, recoveryFrom: u64): Tx
    requires bootAt <= recoveryFrom
  {
    var interval := PeriodicInterval(false, false);
    var deadline := CheckedAdd64(bootAt, interval);
    Tx(recoveryFrom, if deadline.Some? then deadline.value else U64_MAX, deadline.Some?, None, recoveryFrom,
       None, None, false, interval, false, false, Queues([], [], [], []), false, 0, Top,
       History([], [], [], None, recoveryFrom))
  }

  // ---- The top of the loop

  function ScheduleOf(s: Tx): Schedule {
    var selection := SelectPeriodicDeadline(s.nextTxAt, s.deadlineValid, s.retryAt);
    Schedule(selection.deadline, if selection.retrySelected then s.retryAt.Some? else s.deadlineValid,
             selection.retrySelected)
  }

  predicate Due(schedule: Schedule, now: u64) {
    schedule.valid && now >= schedule.at
  }

  predicate DeferralBlocked(s: Tx, now: u64) {
    s.deferred.Some? && DeferredRecoveryBlocked(s.deferred.value.source, s.recoverySent, Due(ScheduleOf(s), now))
  }

  function BeginPass(s: Tx, now: u64): Tx {
    var schedule := ScheduleOf(s);
    if s.deferred.Some? && !DeferralBlocked(s, now) then
      s.(clock := now, deferred := None, phase := Preparing(schedule, s.deferred.value, false))
    else
      s.(clock := now, phase := Waiting(schedule, RecoveryAllowed(s.recoverySent, Due(schedule, now))))
  }

  // ---- select5: the first ready arm, left to right

  datatype Arm = QueueArm(source: Source) | PeriodicArm | ControlRollArm

  function ReadyArm(s: Tx, recoveryPoll: u64, periodicPoll: u64): (arm: Option<Arm>)
    requires s.phase.Waiting?
    ensures arm.Some? && arm.value.QueueArm? ==>
              s.queues.Of(arm.value.source) != [] || (arm.value.source == Recovery && s.pending.Some?)
  {
    if s.queues.emergency != [] then Some(QueueArm(EmergencyResult))
    else if s.queues.command != [] then Some(QueueArm(CommandResult))
    else if s.queues.time != [] then Some(QueueArm(GroundTimeRequest))
    else if s.phase.recoveryAllowed
            && (if s.pending.Some? then recoveryPoll >= s.nextRecoveryAt else s.queues.recovery != [])
    then Some(QueueArm(Recovery))
    else if Due(s.phase.schedule, periodicPoll) then Some(PeriodicArm)
    else if s.controlRollSignal then Some(ControlRollArm)
    else None
  }

  function Receive(s: Tx, source: Source): Tx
    requires s.queues.Of(source) != []
  {
    var queue := s.queues.Of(source);
    s.(queues := s.queues.With(source, queue[1..]),
       history := s.history.(taken := s.history.taken + [queue[0]]))
  }

  /** Lines 1207-1209. */
  function QueueArmTaken(s: Tx, source: Source, now: u64): Tx
    requires s.phase.Waiting? && s.queues.Of(source) != []
  {
    Receive(s, source).(clock := now, phase := Preparing(s.phase.schedule, s.queues.Of(source)[0], false))
  }

  /** Lines 1210-1223: a Recovery frame is started now or kept in the pending slot. */
  function RecoveryArm(s: Tx, now: u64): Tx
    requires s.phase.Waiting? && (s.pending.Some? || s.queues.recovery != [])
  {
    var hadPending := s.pending.Some?;
    var envelope := if hadPending then s.pending.value else s.queues.recovery[0];
    var received := if hadPending then s else Receive(s, Recovery);
    if (hadPending || now >= s.nextRecoveryAt)
       && RecoveryAllowed(s.recoverySent, Due(s.phase.schedule, now))
    then received.(clock := now, pending := None, phase := Preparing(s.phase.schedule, envelope, false))
    else received.(clock := now, pending := Some(envelope), phase := Top)
  }

  /** Lines 1224-1246: the slot is consumed before its packet is built. */
  function PeriodicArmTaken(s: Tx, now: u64, recoveryActive: bool): Tx
    requires s.phase.Waiting?
  {
    var interval := PeriodicInterval(recoveryActive, s.controlRollActive);
    var regular := !s.phase.schedule.retrySelected;
    var next := RegularDeadlineAfterSelection(s.nextTxAt, !regular, interval);
    var consumed := s.(clock := now, interval := interval, retryAt := None,
                       phase := Fetching(s.phase.schedule, regular, false));
    if !regular then consumed
    else consumed.(nextTxAt := if next.Some? then next.value else s.nextTxAt,
                   deadlineValid := s.deadlineValid && next.Some?,
                   history := s.history.(marks := s.history.marks + [RegularSlot(interval)]))
  }

  /** Lines 1269-1271. */
  function ControlRollTaken(s: Tx, now: u64): Tx
    requires s.phase.Waiting?
  {
    s.(clock := now, controlRollSignal := false, phase := Fetching(s.phase.schedule, false, true))
  }

  function PollArms(s: Tx, recoveryPoll: u64, periodicPoll: u64, now: u64, recoveryActive: bool): Tx
    requires s.phase.Waiting? && ReadyArm(s, recoveryPoll, periodicPoll).Some?
  {
    match ReadyArm(s, recoveryPoll, periodicPoll).value
    case QueueArm(source) =>
      if source == Recovery then RecoveryArm(s, now) else QueueArmTaken(s, source, now)
    case PeriodicArm => PeriodicArmTaken(s, now, recoveryActive)
    case ControlRollArm => ControlRollTaken(s, now)
  }

  // ---- Deadlines and packets

  /** skip_overdue_periodic_deadlines, and its callers' reaction when no slot can follow. */
  function SkipOverdue(s: Tx, now: u64): Tx {
    if !s.deadlineValid then s
    else
      match AdvanceDeadline(s.nextTxAt, now, s.interval)
      case None => s.(deadlineValid := false)
      case Some(advance) =>
        s.(nextTxAt := advance.nextDeadline, missedSlots := SaturatingAdd32(s.missedSlots, advance.missedSlots),
           history := s.history.(marks := s.history.marks + [Overdue(advance.missedSlots, s.interval)]))
  }

  /** The number of slots SkipOverdue reports to its caller. */
  function OverdueSlots(s: Tx, now: u64): u32 {
    if !s.deadlineValid then 0
    else
      match AdvanceDeadline(s.nextTxAt, now, s.interval)
      case None => 0
      case Some(advance) => advance.missedSlots
  }

  function PacketTaken(s: Tx, packet: Option<Packet>, now: u64): Tx
    requires s.phase.Fetching?
  {
    match packet
    case None =>
      if s.phase.eventOnly then s.(clock := now, phase := Top)
      else
        SkipOverdue(s.(recoverySent := UpdateRecoveryFairness(s.recoverySent, Periodic),
                       history := s.history.(marks := s.history.marks + [EmptySlot])), now)
        .(clock := now, phase := Top)
    case Some(built) =>
      var flagged := if s.phase.eventOnly then s
        else s.(controlRollActive := built.cycleAvailable,
                preferControlRoll := built.cycleAvailable && !built.isControlRoll);
      flagged.(clock := now, phase := Preparing(s.phase.schedule, Envelope(Periodic, built.id), s.phase.regular))
  }

  // ---- The last look at the queues before the UART write

  /** take_higher_priority_envelope: which frame, if any, replaces the selected one. */
  datatype Preemption = Keep | FromQueue(source: Source) | FromPending

  function HigherPriority(s: Tx, selected: Source, schedule: Schedule, now: u64): (p: Preemption)
    ensures p.FromQueue? ==> s.queues.Of(p.source) != []
    ensures p.FromPending? ==> s.pending.Some?
  {
    if IsHigherPriority(EmergencyResult, selected) && s.queues.emergency != [] then FromQueue(EmergencyResult)
    else if IsHigherPriority(CommandResult, selected) && s.queues.command != [] then FromQueue(CommandResult)
    else if IsHigherPriority(GroundTimeRequest, selected) && s.queues.time != [] then FromQueue(GroundTimeRequest)
    else if IsHigherPriority(Recovery, selected)
            && RecoveryAllowed(s.recoverySent,
                               PeriodicDueForReselection(selected, schedule.valid, now >= schedule.at))
            && now >= s.nextRecoveryAt
    then
      if s.pending.Some? then FromPending
      else if s.queues.recovery != [] then FromQueue(Recovery)
      else Keep
    else Keep
  }

  function HigherEnvelope(s: Tx, p: Preemption): Envelope
    requires p.FromQueue? ==> s.queues.Of(p.source) != []
    requires p.FromPending? ==> s.pending.Some?
    requires !p.Keep?
  {
    if p.FromPending? then s.pending.value else s.queues.Of(p.source)[0]
  }

  /** Lines 1283-1336 up to the UART write. */
  function PreparedTaken(s: Tx, ready: bool, now: u64): Tx
    requires s.phase.Preparing?
  {
    var selected := s.phase.envelope;
    var p := HigherPriority(s, selected.source, s.phase.schedule, now);
    if !ready || p.Keep? then
      s.(clock := now, phase := Sending(selected, ready, false))
    else
      var higher := HigherEnvelope(s, p);
      var moved := if p.FromPending? then s.(pending := None) else Receive(s, p.source);
      moved.(clock := now,
             deferred := if ShouldDeferPreempted(selected.source) then Some(selected) else s.deferred,
             missedSlots := SaturatingAdd32(s.missedSlots,
               if s.phase.regular then PreemptedPeriodicMissedSlots(selected.source) else 0),
             phase := Sending(higher, true,
               RecoveryDisplacedRegularSlot(selected.source, higher.source, s.phase.regular)))
  }

  // ---- After the attempt

  /** Lines 1337-1355: the retry, the Recovery gap and the fairness flag. */
  function Recorded(s: Tx, completedAt: u64): Tx
    requires s.phase.Sending?
  {
    var source := s.phase.envelope.source;
    var eligible := CheckedAdd64(completedAt, RECOVERY_GAP);
    s.(retryAt := RetryAfterNonperiodicAttempt(s.retryAt, completedAt, source),
       nextRecoveryAt :=
         if source != Recovery then s.nextRecoveryAt else if eligible.Some? then eligible.value else U64_MAX,
       recoverySent := UpdateRecoveryFairness(s.recoverySent, source),
       history := s.history.(
         attempted := s.history.attempted + [s.phase.envelope],
         marks := s.history.marks + [Attempt(source)],
         lastRecoveryEnd := if source == Recovery then Some(completedAt) else s.history.lastRecoveryEnd,
         attemptEnd := completedAt))
  }

  /** Lines 1356-1376: overdue slots are skipped; a Recovery frame that displaced one earns the
      periodic frame a retry. */
  function AttemptDone(s: Tx, completedAt: u64, now: u64): Tx
    requires s.phase.Sending?
  {
    var after := Recorded(s, completedAt);
    var displaced := s.phase.envelope.source == Recovery
                     && (s.phase.displacedRegular || OverdueSlots(after, now) != 0);
    SkipOverdue(after, now).(
      clock := now,
      phase := Top,
      retryAt := if displaced then RetryAfterRecovery(completedAt, RECOVERY_GAP, true) else after.retryAt)
  }

  // ---- Steps and runs

  predicate Enabled(s: Tx, step: Step) {
    match step
    case Arrive(e) => e.source != Periodic
    case DropOldestTimeRequest => s.queues.time != []
    case SignalControlRoll => true
    case Begin(now) => s.phase.Top? && s.clock <= now
    case Poll(a, b, now, _) => s.phase.Waiting? && s.clock <= a <= b <= now && ReadyArm(s, a, b).Some?
    case PacketReady(packet, now) => s.phase.Fetching? && s.clock <= now
    case Prepared(ready, now) => s.phase.Preparing? && s.clock <= now
    case Completed(completedAt, now) => s.phase.Sending? && s.clock <= completedAt <= now
  }

  function Apply(s: Tx, step: Step): Tx
    requires Enabled(s, step)
  {
    match step
    case Arrive(e) => s.(queues := s.queues.With(e.source, s.queues.Of(e.source) + [e]))
    case DropOldestTimeRequest => s.(queues := s.queues.(time := s.queues.time[1..]))
    case SignalControlRoll => s.(controlRollSignal := true)
    case Begin(now) => BeginPass(s, now)
    case Poll(a, b, now, recoveryActive) => PollArms(s, a, b, now, recoveryActive)
    case PacketReady(packet, now) => PacketTaken(s, packet, now)
    case Prepared(ready, now) => PreparedTaken(s, ready, now)
    case Completed(completedAt, now) => AttemptDone(s, completedAt, now)
  }

  predicate CanRun(s: Tx, steps: seq<Step>)
    decreases |steps|
  {
    steps == [] || (Enabled(s, steps[0]) && CanRun(Apply(s, steps[0]), steps[1..]))
  }

  function Run(s: Tx, steps: seq<Step>): Tx
    requires CanRun(s, steps)
    decreases |steps|
  {
    if steps == [] then s else Run(Apply(s, steps[0]), steps[1..])
  }

  lemma {:induction false} RunExtend(s: Tx, steps: seq<Step>, step: Step)
    requires CanRun(s, steps) && Enabled(Run(s, steps), step)
    ensures CanRun(s, steps + [step]) && Run(s, steps + [step]) == Apply(Run(s, steps), step)
    decreases |steps|
  {
    hide Enabled, Apply;
    if steps == [] {
      assert [] + [step] == [step];
      assert CanRun(Apply(s, step), []);
    } else {
      assert (steps + [step])[1..] == steps[1..] + [step];
      RunExtend(Apply(s, steps[0]), steps[1..], step);
    }
  }
}
