/** What every run of the LoRa transmit task keeps: frames stay where their source says, and
    a held-back Recovery frame keeps every other Recovery frame off the air. */
module LoRaTxInvariants {
  import opened Prelude
  import opened LoRaScheduler
  import opened LoRaTx

  ghost predicate AllFrom(queue: seq<Envelope>, source: Source) {
    forall i | 0 <= i < |queue| :: queue[i].source == source
  }

  ghost predicate QueuesSourced(q: Queues) {
    && AllFrom(q.emergency, EmergencyResult) && AllFrom(q.command, CommandResult)
    && AllFrom(q.time, GroundTimeRequest) && AllFrom(q.recovery, Recovery)
  }

  ghost predicate WellSourced(s: Tx) {
    && QueuesSourced(s.queues)
    && (s.pending.Some? ==> s.pending.value.source == Recovery)
    && (s.deferred.Some? ==> s.deferred.value.source != Periodic)
  }

  /** A frame kept in the deferral slot beyond the top of a pass is a Recovery frame waiting for
      its periodic opportunity, and then no other Recovery frame can be in flight. */
  ghost predicate DeferralHeld(s: Tx) {
    s.deferred.Some? ==>
      match s.phase
      case Top => true
      case Waiting(_, allowed) => s.deferred.value.source == Recovery && s.recoverySent && !allowed
      case Fetching(_, _, _) => s.deferred.value.source == Recovery && s.recoverySent
      case Preparing(_, e, _) => s.deferred.value.source == Recovery && s.recoverySent && e.source != Recovery
      case Sending(e, _, _) => e.source != Recovery
  }

  ghost predicate Shaped(s: Tx) {
    WellSourced(s) && DeferralHeld(s)
  }

  lemma ShapedIsWellSourced(s: Tx)
    requires Shaped(s)
    ensures WellSourced(s)
  {
  }

  lemma HeadAndTail(q: Queues, source: Source)
    requires QueuesSourced(q) && q.Of(source) != []
    ensures q.Of(source)[0].source == source
    ensures QueuesSourced(q.With(source, q.Of(source)[1..]))
  {
  }

  /** Receiving from a queue touches that queue and the record of taken frames, nothing else. */
  lemma ReceiveFrame(s: Tx, source: Source)
    requires s.queues.Of(source) != []
    ensures var t := Receive(s, source);
            t == s.(queues := t.queues, history := s.history.(taken := t.history.taken))
  {
  }

  lemma ArrivalShaped(s: Tx, e: Envelope)
    requires Shaped(s) && e.source != Periodic
    ensures Shaped(Apply(s, Arrive(e)))
  {
    assert QueuesSourced(s.queues.With(e.source, s.queues.Of(e.source) + [e]));
  }

  lemma BeginShaped(s: Tx, now: u64)
    requires Shaped(s) && s.phase.Top?
    ensures Shaped(BeginPass(s, now))
  {
  }

  lemma QueueArmFrame(s: Tx, source: Source, now: u64)
    requires s.phase.Waiting? && s.queues.Of(source) != []
    ensures var t := QueueArmTaken(s, source, now);
            && t == s.(clock := now, queues := t.queues, phase := t.phase,
                       history := s.history.(taken := t.history.taken))
            && !t.phase.Waiting?
  {
    hide Receive;
    ReceiveFrame(s, source);
  }

  lemma RecoveryArmFrame(s: Tx, now: u64)
    requires s.phase.Waiting? && (s.pending.Some? || s.queues.recovery != [])
    ensures var t := RecoveryArm(s, now);
            && t == s.(clock := now, pending := t.pending, queues := t.queues, phase := t.phase,
                       history := s.history.(taken := t.history.taken))
            && !t.phase.Waiting?
  {
    hide Receive, Due, RecoveryAllowed;
    if s.pending.None? {
      ReceiveFrame(s, Recovery);
    }
  }

  /** The arms other than the periodic one leave the deadlines, flags and marks alone. */
  lemma OtherArmsFrame(s: Tx, a: u64, b: u64, now: u64, recoveryActive: bool)
    requires s.phase.Waiting? && ReadyArm(s, a, b).Some?
    ensures var t := PollArms(s, a, b, now, recoveryActive);
            && (ReadyArm(s, a, b).value != PeriodicArm ==>
                  t == s.(clock := now, pending := t.pending, queues := t.queues, phase := t.phase,
                          controlRollSignal := t.controlRollSignal,
                          history := s.history.(taken := t.history.taken)))
            && t.deferred == s.deferred && t.clock == now && !t.phase.Waiting?
  {
    hide RecoveryArm, QueueArmTaken, PeriodicInterval, CheckedAdd64;
    match ReadyArm(s, a, b).value
    case QueueArm(source) =>
      if source == Recovery { RecoveryArmFrame(s, now); } else { QueueArmFrame(s, source, now); }
    case _ =>
  }

  lemma QueueArmShaped(s: Tx, source: Source, now: u64)
    requires Shaped(s) && s.phase.Waiting? && s.queues.Of(source) != [] && source != Recovery
    ensures Shaped(QueueArmTaken(s, source, now))
  {
    HeadAndTail(s.queues, source);
  }

  lemma RecoveryArmShaped(s: Tx, now: u64)
    requires Shaped(s) && s.phase.Waiting? && s.phase.recoveryAllowed
    requires s.pending.Some? || s.queues.recovery != []
    ensures Shaped(RecoveryArm(s, now))
  {
    if s.pending.None? {
      HeadAndTail(s.queues, Recovery);
    }
  }

  lemma PeriodicArmShaped(s: Tx, now: u64, recoveryActive: bool)
    requires Shaped(s) && s.phase.Waiting?
    ensures Shaped(PeriodicArmTaken(s, now, recoveryActive)) && Shaped(ControlRollTaken(s, now))
  {
  }

  lemma PollShaped(s: Tx, recoveryPoll: u64, periodicPoll: u64, now: u64, recoveryActive: bool)
    requires Shaped(s) && s.phase.Waiting? && ReadyArm(s, recoveryPoll, periodicPoll).Some?
    ensures Shaped(PollArms(s, recoveryPoll, periodicPoll, now, recoveryActive))
  {
    match ReadyArm(s, recoveryPoll, periodicPoll).value
    case QueueArm(source) =>
      if source == Recovery { RecoveryArmShaped(s, now); } else { QueueArmShaped(s, source, now); }
    case _ => PeriodicArmShaped(s, now, recoveryActive);
  }

  /** Skipping overdue slots touches the regular deadline, its counters and marks, nothing else. */
  lemma SkipOverdueFrame(s: Tx, now: u64)
    ensures var t := SkipOverdue(s, now);
            t == s.(nextTxAt := t.nextTxAt, deadlineValid := t.deadlineValid, missedSlots := t.missedSlots,
                    history := s.history.(marks := t.history.marks))
  {
    hide AdvanceDeadline, SaturatingAdd32;
  }

  lemma PacketShaped(s: Tx, packet: Option<Packet>, now: u64)
    requires Shaped(s) && s.phase.Fetching?
    ensures Shaped(PacketTaken(s, packet, now))
  {
    hide SkipOverdue, QueuesSourced;
    SkipOverdueFrame(s.(recoverySent := UpdateRecoveryFairness(s.recoverySent, Periodic),
                        history := s.history.(marks := s.history.marks + [EmptySlot])), now);
  }

  lemma HigherIsHigher(s: Tx, selected: Source, schedule: Schedule, now: u64)
    requires WellSourced(s)
    requires !HigherPriority(s, selected, schedule, now).Keep?
    ensures var p := HigherPriority(s, selected, schedule, now);
            var higher := HigherEnvelope(s, p).source;
            && IsHigherPriority(higher, selected)
            && higher == (if p.FromPending? then Recovery else p.source)
            && (higher == Recovery ==> selected == Periodic && !s.recoverySent && now >= s.nextRecoveryAt)
            && (p == FromQueue(Recovery) ==> s.pending == None)
  {
    var p := HigherPriority(s, selected, schedule, now);
    if p.FromQueue? {
      HeadAndTail(s.queues, p.source);
    }
  }

  /** The frame in the task's hands. */
  function InFlight(phase: Phase): Option<Envelope> {
    match phase
    case Preparing(_, e, _) => Some(e)
    case Sending(e, _, _) => Some(e)
    case _ => None
  }

  predicate Preempts(s: Tx, ready: bool, now: u64)
    requires s.phase.Preparing?
  {
    ready && !HigherPriority(s, s.phase.envelope.source, s.phase.schedule, now).Keep?
  }

  lemma PreparedMoves(s: Tx, ready: bool, now: u64)
    requires WellSourced(s) && s.phase.Preparing?
    ensures var selected := s.phase.envelope;
            var p := HigherPriority(s, selected.source, s.phase.schedule, now);
            var t := PreparedTaken(s, ready, now);
            && t.history.attempted == s.history.attempted
            && (!Preempts(s, ready, now) ==>
                  && t.history == s.history && InFlight(t.phase) == Some(selected)
                  && t.deferred == s.deferred && t.pending == s.pending)
            && (Preempts(s, ready, now) ==>
                  && InFlight(t.phase) == Some(HigherEnvelope(s, p))
                  && t.deferred == (if selected.source == Periodic then s.deferred else Some(selected))
                  && t.pending == (if p.FromPending? then None else s.pending)
                  && t.history == (if p.FromPending? then s.history else Receive(s, p.source).history))
  {
    hide HigherPriority, SaturatingAdd32;
  }

  lemma PreparedShaped(s: Tx, ready: bool, now: u64)
    requires Shaped(s) && s.phase.Preparing?
    ensures Shaped(PreparedTaken(s, ready, now))
  {
    var selected := s.phase.envelope.source;
    var p := HigherPriority(s, selected, s.phase.schedule, now);
    if ready && !p.Keep? {
      HigherIsHigher(s, selected, s.phase.schedule, now);
      if p.FromQueue? {
        HeadAndTail(s.queues, p.source);
      }
    }
  }

  lemma CompletedShaped(s: Tx, completedAt: u64, now: u64)
    requires Shaped(s) && s.phase.Sending?
    ensures Shaped(AttemptDone(s, completedAt, now))
  {
    hide SkipOverdue, OverdueSlots, QueuesSourced;
    SkipOverdueFrame(Recorded(s, completedAt), now);
  }

  lemma ShapedStep(s: Tx, step: Step)
    requires Shaped(s) && Enabled(s, step)
    ensures Shaped(Apply(s, step))
  {
    match step
    case Arrive(e) => ArrivalShaped(s, e);
    case DropOldestTimeRequest =>
    case SignalControlRoll =>
    case Begin(now) => BeginShaped(s, now);
    case Poll(a, b, now, recoveryActive) => PollShaped(s, a, b, now, recoveryActive);
    case PacketReady(packet, now) => PacketShaped(s, packet, now);
    case Prepared(ready, now) => PreparedShaped(s, ready, now);
    case Completed(completedAt, now) => CompletedShaped(s, completedAt, now);
  }
}
