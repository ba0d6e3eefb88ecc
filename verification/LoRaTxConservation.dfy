/** No frame the transmit task takes from a queue is lost or sent twice, except in the one case
    where the deferral slot is overwritten. */
module LoRaTxConservation {
  import opened Prelude
  import opened LoRaScheduler
  import opened LoRaTx
  import opened LoRaTxInvariants

  /** The frames of one source, in order. */
  function From(frames: seq<Envelope>, source: Source): seq<Envelope> {
    if frames == [] then []
    else
      var rest := From(frames[..|frames| - 1], source);
      if frames[|frames| - 1].source == source then rest + [frames[|frames| - 1]] else rest
  }

  lemma {:induction false} FromConcat(a: seq<Envelope>, b: seq<Envelope>, source: Source)
    ensures From(a + b, source) == From(a, source) + From(b, source)
    decreases |b|
  {
    if b == [] {
      assert a + b == a;
    } else {
      var n := |b| - 1;
      assert (a + b)[..|a| + n] == a + b[..n];
      FromConcat(a, b[..n], source);
    }
  }

  lemma FromOne(e: Envelope, source: Source)
    ensures From([e], source) == if e.source == source then [e] else []
  {
    assert [e][..0] == [];
  }

  function FromSlot(slot: Option<Envelope>, source: Source): seq<Envelope> {
    if slot.Some? && slot.value.source == source then [slot.value] else []
  }

  /** What the task holds of a source, oldest first. */
  function Held(s: Tx, source: Source): seq<Envelope> {
    FromSlot(InFlight(s.phase), source) + FromSlot(s.deferred, source) + FromSlot(s.pending, source)
  }

  /** The frames taken from a source's queue are, in that order, the frames attempted and then
      the frames held: each is attempted exactly once or held in exactly one place. */
  ghost predicate Conserved(s: Tx, source: Source) {
    From(s.history.taken, source) == From(s.history.attempted, source) + Held(s, source)
  }

  /** Line 1305 writes the deferral slot while it holds another frame. */
  predicate OverwritesDeferral(s: Tx, step: Step)
    requires Enabled(s, step)
  {
    && step.Prepared? && step.ready && s.deferred.Some? && ShouldDeferPreempted(s.phase.envelope.source)
    && !HigherPriority(s, s.phase.envelope.source, s.phase.schedule, step.now).Keep?
  }

  lemma TakeOne(s: Tx, from: Source, source: Source)
    requires WellSourced(s) && s.queues.Of(from) != []
    ensures var e := s.queues.Of(from)[0];
            && e.source == from
            && From(Receive(s, from).history.taken, source) ==
               From(s.history.taken, source) + (if from == source then [e] else [])
  {
    HeadAndTail(s.queues, from);
    FromConcat(s.history.taken, [s.queues.Of(from)[0]], source);
    FromOne(s.queues.Of(from)[0], source);
  }

  /** A step that takes the frames `more` and holds them after what it held before. */
  lemma Transfer(s: Tx, t: Tx, more: seq<Envelope>, source: Source)
    requires Conserved(s, source)
    requires From(t.history.taken, source) == From(s.history.taken, source) + more
    requires t.history.attempted == s.history.attempted
    requires Held(t, source) == Held(s, source) + more
    ensures Conserved(t, source)
  {
    hide From, Held;
  }

  lemma Unmoved(s: Tx, t: Tx, source: Source)
    requires Conserved(s, source)
    requires t.history.taken == s.history.taken && t.history.attempted == s.history.attempted
    requires Held(t, source) == Held(s, source)
    ensures Conserved(t, source)
  {
    Transfer(s, t, [], source);
  }

  lemma QueueArmConserves(s: Tx, from: Source, now: u64, source: Source)
    requires Shaped(s) && Conserved(s, source) && s.phase.Waiting?
    requires s.queues.Of(from) != [] && from != Recovery
    ensures Conserved(QueueArmTaken(s, from, now), source)
  {
    hide From, QueuesSourced, Conserved;
    TakeOne(s, from, source);
    Transfer(s, QueueArmTaken(s, from, now), if from == source then [s.queues.Of(from)[0]] else [], source);
  }

  lemma RecoveryArmMoves(s: Tx, now: u64)
    requires s.phase.Waiting? && (s.pending.Some? || s.queues.recovery != [])
    ensures var t := RecoveryArm(s, now);
            var e := if s.pending.Some? then s.pending else Some(s.queues.recovery[0]);
            && t.history == (if s.pending.Some? then s.history else Receive(s, Recovery).history)
            && t.deferred == s.deferred
            && ((InFlight(t.phase) == e && t.pending == None) || (InFlight(t.phase) == None && t.pending == e))
  {
  }

  lemma RecoveryArmConserves(s: Tx, now: u64, source: Source)
    requires Shaped(s) && Conserved(s, source) && s.phase.Waiting? && s.phase.recoveryAllowed
    requires s.pending.Some? || s.queues.recovery != []
    ensures Conserved(RecoveryArm(s, now), source)
  {
    hide From, QueuesSourced, Conserved, RecoveryArm;
    RecoveryArmMoves(s, now);
    assert s.deferred == None;
    if s.pending.None? {
      TakeOne(s, Recovery, source);
      Transfer(s, RecoveryArm(s, now), if source == Recovery then [s.queues.recovery[0]] else [], source);
    } else {
      Unmoved(s, RecoveryArm(s, now), source);
    }
  }

  lemma PeriodicArmConserves(s: Tx, now: u64, recoveryActive: bool, source: Source)
    requires Conserved(s, source) && s.phase.Waiting?
    ensures Conserved(PeriodicArmTaken(s, now, recoveryActive), source) && Conserved(ControlRollTaken(s, now), source)
  {
    hide From, Conserved, PeriodicInterval, CheckedAdd64;
    Unmoved(s, PeriodicArmTaken(s, now, recoveryActive), source);
    Unmoved(s, ControlRollTaken(s, now), source);
  }

  lemma PollConserves(s: Tx, a: u64, b: u64, now: u64, recoveryActive: bool, source: Source)
    requires Shaped(s) && Conserved(s, source) && Enabled(s, Poll(a, b, now, recoveryActive))
    ensures Conserved(PollArms(s, a, b, now, recoveryActive), source)
  {
    hide Conserved, Shaped, RecoveryArm, QueueArmTaken, PeriodicArmTaken, ControlRollTaken;
    match ReadyArm(s, a, b).value
    case QueueArm(from) =>
      if from == Recovery {
        RecoveryArmConserves(s, now, source);
      } else {
        QueueArmConserves(s, from, now, source);
      }
    case _ => PeriodicArmConserves(s, now, recoveryActive, source);
  }

  lemma BeginMoves(s: Tx, now: u64)
    requires s.phase.Top?
    ensures var t := BeginPass(s, now);
            && t.history == s.history && t.pending == s.pending
            && ((t.deferred == s.deferred && InFlight(t.phase) == None)
                || (t.deferred == None && InFlight(t.phase) == s.deferred))
  {
    hide ScheduleOf, DeferralBlocked, RecoveryAllowed, Due;
  }

  lemma BeginConserves(s: Tx, now: u64, source: Source)
    requires Conserved(s, source) && Enabled(s, Begin(now))
    ensures Conserved(BeginPass(s, now), source)
  {
    BeginMoves(s, now);
    hide From, Conserved, BeginPass;
    Unmoved(s, BeginPass(s, now), source);
  }

  lemma PacketMoves(s: Tx, packet: Option<Packet>, now: u64)
    requires s.phase.Fetching?
    ensures var t := PacketTaken(s, packet, now);
            && t.history.attempted == s.history.attempted && t.history.taken == s.history.taken
            && t.deferred == s.deferred && t.pending == s.pending
            && (InFlight(t.phase).Some? ==> InFlight(t.phase).value.source == Periodic)
  {
    hide SkipOverdue;
    SkipOverdueFrame(s.(recoverySent := UpdateRecoveryFairness(s.recoverySent, Periodic),
                        history := s.history.(marks := s.history.marks + [EmptySlot])), now);
  }

  lemma PacketConserves(s: Tx, packet: Option<Packet>, now: u64, source: Source)
    requires Conserved(s, source) && source != Periodic && Enabled(s, PacketReady(packet, now))
    ensures Conserved(PacketTaken(s, packet, now), source)
  {
    hide From, Conserved, PacketTaken;
    PacketMoves(s, packet, now);
    Unmoved(s, PacketTaken(s, packet, now), source);
  }

  lemma PreparedConserves(s: Tx, ready: bool, now: u64, source: Source)
    requires Shaped(s) && Conserved(s, source) && source != Periodic && Enabled(s, Prepared(ready, now))
    requires !OverwritesDeferral(s, Prepared(ready, now))
    ensures Conserved(PreparedTaken(s, ready, now), source)
  {
    hide From, QueuesSourced, Conserved, HigherPriority, PreparedTaken;
    var selected := s.phase.envelope.source;
    var p := HigherPriority(s, selected, s.phase.schedule, now);
    var after := PreparedTaken(s, ready, now);
    PreparedMoves(s, ready, now);
    if !Preempts(s, ready, now) {
      Unmoved(s, after, source);
    } else {
      HigherIsHigher(s, selected, s.phase.schedule, now);
      if p.FromQueue? {
        TakeOne(s, p.source, source);
        Transfer(s, after, if p.source == source then [s.queues.Of(p.source)[0]] else [], source);
      } else {
        Unmoved(s, after, source);
      }
    }
  }

  /** Overwriting the deferral slot loses the frame that was in it. */
  lemma OverwriteLoses(s: Tx, ready: bool, now: u64)
    requires Shaped(s) && s.deferred.Some? && Conserved(s, s.deferred.value.source)
    requires Enabled(s, Prepared(ready, now)) && OverwritesDeferral(s, Prepared(ready, now))
    ensures !Conserved(PreparedTaken(s, ready, now), s.deferred.value.source)
  {
    hide From, QueuesSourced, HigherPriority, PreparedTaken;
    var selected := s.phase.envelope.source;
    var p := HigherPriority(s, selected, s.phase.schedule, now);
    PreparedMoves(s, ready, now);
    HigherIsHigher(s, selected, s.phase.schedule, now);
    if p.FromQueue? {
      TakeOne(s, p.source, s.deferred.value.source);
    }
  }

  lemma CompletedMoves(s: Tx, completedAt: u64, now: u64)
    requires s.phase.Sending?
    ensures var t := AttemptDone(s, completedAt, now);
            && t.history.attempted == s.history.attempted + [s.phase.envelope]
            && t.history.taken == s.history.taken
            && t.deferred == s.deferred && t.pending == s.pending && InFlight(t.phase) == None
  {
    hide SkipOverdue, OverdueSlots;
    SkipOverdueFrame(Recorded(s, completedAt), now);
  }

  /** A step that ends the attempt of the frame it held first. */
  lemma Delivered(s: Tx, t: Tx, sent: Envelope, source: Source)
    requires Conserved(s, source)
    requires t.history.taken == s.history.taken && t.history.attempted == s.history.attempted + [sent]
    requires Held(s, source) == From([sent], source) + Held(t, source)
    ensures Conserved(t, source)
  {
    hide From, Held;
    FromConcat(s.history.attempted, [sent], source);
  }

  lemma CompletedConserves(s: Tx, completedAt: u64, now: u64, source: Source)
    requires Conserved(s, source) && Enabled(s, Completed(completedAt, now))
    ensures Conserved(AttemptDone(s, completedAt, now), source)
  {
    hide From, AttemptDone, Conserved;
    var sent := s.phase.envelope;
    CompletedMoves(s, completedAt, now);
    FromOne(sent, source);
    Delivered(s, AttemptDone(s, completedAt, now), sent, source);
  }

  lemma ConservedStep(s: Tx, step: Step, source: Source)
    requires Shaped(s) && Conserved(s, source) && source != Periodic && Enabled(s, step)
    requires !OverwritesDeferral(s, step)
    ensures Conserved(Apply(s, step), source)
  {
    hide From, Shaped, Conserved;
    match step
    case Begin(now) => BeginConserves(s, now, source);
    case Poll(a, b, now, recoveryActive) => PollConserves(s, a, b, now, recoveryActive, source);
    case PacketReady(packet, now) => PacketConserves(s, packet, now, source);
    case Prepared(ready, now) => PreparedConserves(s, ready, now, source);
    case Completed(completedAt, now) => CompletedConserves(s, completedAt, now, source);
    case _ => Unmoved(s, Apply(s, step), source);
  }

  ghost predicate AllConserved(s: Tx) {
    forall source | source != Periodic :: Conserved(s, source)
  }

  /** One step keeps every frame accounted for if and only if it does not overwrite an occupied
      deferral slot. */
  lemma OverwritingIsTheOnlyLoss(s: Tx, step: Step)
    requires Shaped(s) && AllConserved(s) && Enabled(s, step)
    ensures AllConserved(Apply(s, step)) <==> !OverwritesDeferral(s, step)
  {
    hide Conserved, Shaped;
    if OverwritesDeferral(s, step) {
      assert s.deferred.value.source != Periodic by {
        ShapedIsWellSourced(s);
      }
      OverwriteLoses(s, step.ready, step.now);
    } else {
      forall source | source != Periodic
        ensures Conserved(Apply(s, step), source)
      {
        ConservedStep(s, step, source);
      }
    }
  }
}
