/** The periodic slots of the LoRa transmit task: their phase never drifts, every slot is either
    selected or counted as missed, and after an attempt the task aims at the next free slot. */
module LoRaTxSlots {
  import opened Prelude
  import opened LoRaScheduler
  import opened LoRaTx
  import opened LoRaTxInvariants
  import opened LoRaTxDeferral

  // ---- Counting slots

  /** The time the marks account for: selected slots and skipped slots. */
  function Elapsed(marks: seq<Mark>): nat {
    if marks == [] then 0
    else
      Elapsed(marks[..|marks| - 1]) +
      match marks[|marks| - 1]
      case RegularSlot(interval) => interval
      case Overdue(slots, interval) => slots * interval
      case _ => 0
  }

  lemma ElapsedAppend(marks: seq<Mark>, mark: Mark)
    ensures Elapsed(marks + [mark]) == Elapsed(marks) + Elapsed([mark])
  {
    assert (marks + [mark])[..|marks|] == marks;
    assert [mark][..0] == [];
  }

  /** No skip was so long that its count saturated. */
  ghost predicate Unsaturated(marks: seq<Mark>) {
    forall i | 0 <= i < |marks| && marks[i].Overdue? :: marks[i].slots < U32_MAX
  }

  predicate IsInterval(interval: u64) {
    interval == 250_000 || interval == 500_000 || interval == 10_000_000
  }

  /** The regular deadline, while valid, is a whole number of grid steps after the boot deadline,
      and exactly the accounted slots after it. */
  ghost predicate Accounted(s: Tx, boot: u64) {
    && IsInterval(s.interval)
    && (s.deadlineValid ==>
          && s.nextTxAt >= boot
          && (s.nextTxAt - boot) % SLOT_GRID == 0
          && (Unsaturated(s.history.marks) ==> s.nextTxAt == boot + Elapsed(s.history.marks)))
  }

  lemma GridPoint(k: nat)
    ensures k * 250_000 % SLOT_GRID == 0
  {
  }

  lemma GridMultiple(steps: nat, interval: u64)
    requires IsInterval(interval)
    ensures steps * interval % SLOT_GRID == 0
  {
    if interval == 250_000 {
      GridPoint(steps);
    } else if interval == 500_000 {
      GridPoint(2 * steps);
      assert steps * interval == steps * 500_000;
    } else {
      GridPoint(40 * steps);
      assert steps * interval == steps * 10_000_000;
    }
  }

  lemma GridSum(a: nat, b: nat)
    requires a % SLOT_GRID == 0 && b % SLOT_GRID == 0
    ensures (a + b) % SLOT_GRID == 0
  {
  }

  lemma UnsaturatedPrefix(marks: seq<Mark>, mark: Mark)
    requires Unsaturated(marks + [mark])
    ensures Unsaturated(marks) && (mark.Overdue? ==> mark.slots < U32_MAX)
  {
    assert (marks + [mark])[|marks|] == mark;
    assert forall i | 0 <= i < |marks| :: (marks + [mark])[i] == marks[i];
  }

  lemma SkipAccounted(s: Tx, boot: u64, now: u64)
    requires Accounted(s, boot)
    ensures Accounted(SkipOverdue(s, now), boot)
  {
    if s.deadlineValid {
      var point, steps := AdvanceDeadlineIsFirstSlot(s.nextTxAt, now, s.interval);
      if point < U64_LIMIT {
        var mark := Overdue(Min(steps, U32_MAX), s.interval);
        var marks := s.history.marks + [mark];
        assert SkipOverdue(s, now).history.marks == marks;
        if Unsaturated(marks) { UnsaturatedPrefix(s.history.marks, mark); }
        hide AdvanceDeadline, Elapsed, Unsaturated;
        ElapsedAppend(s.history.marks, mark);
        GridMultiple(steps, s.interval);
        GridSum(s.nextTxAt - boot, steps * s.interval);
        if Unsaturated(marks) {
          assert Elapsed([mark]) == steps * s.interval by {
            ElapsedOne(mark);
          }
        }
      }
    }
  }

  lemma ElapsedOne(mark: Mark)
    ensures mark.Overdue? ==> Elapsed([mark]) == mark.slots * mark.interval
    ensures mark.RegularSlot? ==> Elapsed([mark]) == mark.interval
    ensures !mark.Overdue? && !mark.RegularSlot? ==> Elapsed([mark]) == 0
  {
    assert [mark][..0] == [];
  }

  /** Marks that are no slots change nothing. */
  lemma OtherMarkAccounted(s: Tx, boot: u64, t: Tx, mark: Mark)
    requires Accounted(s, boot) && !mark.Overdue? && !mark.RegularSlot?
    requires t.interval == s.interval && t.deadlineValid == s.deadlineValid && t.nextTxAt == s.nextTxAt
    requires t.history.marks == s.history.marks + [mark]
    ensures Accounted(t, boot)
  {
    hide Elapsed;
    ElapsedAppend(s.history.marks, mark);
    ElapsedOne(mark);
    assert forall i | 0 <= i < |s.history.marks| :: s.history.marks[i] == t.history.marks[i];
  }

  lemma PeriodicArmAccounted(s: Tx, boot: u64, now: u64, recoveryActive: bool)
    requires Accounted(s, boot) && s.phase.Waiting?
    ensures Accounted(PeriodicArmTaken(s, now, recoveryActive), boot)
  {
    hide Elapsed;
    var interval := PeriodicInterval(recoveryActive, s.controlRollActive);
    var t := PeriodicArmTaken(s, now, recoveryActive);
    ElapsedAppend(s.history.marks, RegularSlot(interval));
    ElapsedOne(RegularSlot(interval));
    if t.deadlineValid {
      GridMultiple(1, interval);
      GridSum(s.nextTxAt - boot, interval);
      assert forall i | 0 <= i < |s.history.marks| :: s.history.marks[i] == t.history.marks[i];
    }
  }

  lemma PreparedFrame(s: Tx, ready: bool, now: u64)
    requires s.phase.Preparing?
    ensures var t := PreparedTaken(s, ready, now);
            && t.interval == s.interval && t.deadlineValid == s.deadlineValid && t.nextTxAt == s.nextTxAt
            && t.history.marks == s.history.marks && t.clock == now && t.phase.Sending?
  {
    hide HigherPriority, SaturatingAdd32, Receive;
    var p := HigherPriority(s, s.phase.envelope.source, s.phase.schedule, now);
    if p.FromQueue? {
      ReceiveFrame(s, p.source);
    }
  }

  lemma PollAccounted(s: Tx, boot: u64, a: u64, b: u64, now: u64, recoveryActive: bool)
    requires Accounted(s, boot) && Enabled(s, Poll(a, b, now, recoveryActive))
    ensures Accounted(PollArms(s, a, b, now, recoveryActive), boot)
  {
    hide Elapsed, Unsaturated, RecoveryArm, QueueArmTaken, ControlRollTaken, PeriodicArmTaken;
    if ReadyArm(s, a, b).value == PeriodicArm {
      PeriodicArmAccounted(s, boot, now, recoveryActive);
    } else {
      OtherArmsFrame(s, a, b, now, recoveryActive);
    }
  }

  lemma PacketAccounted(s: Tx, boot: u64, packet: Option<Packet>, now: u64)
    requires Accounted(s, boot) && Enabled(s, PacketReady(packet, now))
    ensures Accounted(PacketTaken(s, packet, now), boot)
  {
    hide Elapsed, Unsaturated, SkipOverdue;
    if packet.None? && !s.phase.eventOnly {
      var empty := s.(recoverySent := UpdateRecoveryFairness(s.recoverySent, Periodic),
                      history := s.history.(marks := s.history.marks + [EmptySlot]));
      OtherMarkAccounted(s, boot, empty, EmptySlot);
      SkipAccounted(empty, boot, now);
    }
  }

  lemma CompletedAccounted(s: Tx, boot: u64, completedAt: u64, now: u64)
    requires Accounted(s, boot) && Enabled(s, Completed(completedAt, now))
    ensures Accounted(AttemptDone(s, completedAt, now), boot)
  {
    hide Elapsed, Unsaturated, SkipOverdue, OverdueSlots;
    OtherMarkAccounted(s, boot, Recorded(s, completedAt), Attempt(s.phase.envelope.source));
    SkipAccounted(Recorded(s, completedAt), boot, now);
  }

  lemma AccountedStep(s: Tx, boot: u64, step: Step)
    requires Accounted(s, boot) && Enabled(s, step)
    ensures Accounted(Apply(s, step), boot)
  {
    hide Elapsed, Unsaturated, ScheduleOf, PollArms, PacketTaken, PreparedTaken, AttemptDone;
    match step
    case Poll(a, b, now, recoveryActive) => PollAccounted(s, boot, a, b, now, recoveryActive);
    case PacketReady(packet, now) => PacketAccounted(s, boot, packet, now);
    case Prepared(ready, now) => PreparedFrame(s, ready, now);
    case Completed(completedAt, now) => CompletedAccounted(s, boot, completedAt, now);
    case _ =>
  }

  lemma {:induction false} AccountedRun(s: Tx, boot: u64, steps: seq<Step>)
    requires Accounted(s, boot) && CanRun(s, steps)
    ensures Accounted(Run(s, steps), boot)
    decreases |steps|
  {
    hide Accounted;
    if steps != [] {
      AccountedStep(s, boot, steps[0]);
      AccountedRun(Apply(s, steps[0]), boot, steps[1..]);
    }
  }


  /** The deadline the task starts with. */
  function BootDeadline(bootAt: u64): u64 {
    if bootAt + 500_000 < U64_LIMIT then bootAt + 500_000 else U64_MAX
  }

  /** In every run, whatever intervals it switches between, a valid regular deadline lies on the
      250 ms grid of the boot deadline, and short of a saturated count it lies exactly the selected
      and the skipped slots after it. Retries do not enter the sum. */
  lemma DeadlinesKeepTheirPhase(bootAt: u64, recoveryFrom: u64, steps: seq<Step>)
    requires bootAt <= recoveryFrom && CanRun(Init(bootAt, recoveryFrom), steps)
    ensures var s := Run(Init(bootAt, recoveryFrom), steps);
            s.deadlineValid ==>
              && s.nextTxAt >= BootDeadline(bootAt)
              && (s.nextTxAt - BootDeadline(bootAt)) % SLOT_GRID == 0
              && (Unsaturated(s.history.marks) ==>
                    s.nextTxAt == BootDeadline(bootAt) + Elapsed(s.history.marks))
  {
    AccountedRun(Init(bootAt, recoveryFrom), BootDeadline(bootAt), steps);
  }

  function RegularSelections(marks: seq<Mark>): nat {
    if marks == [] then 0
    else RegularSelections(marks[..|marks| - 1]) + (if marks[|marks| - 1].RegularSlot? then 1 else 0)
  }

  function MissedSlots(marks: seq<Mark>): nat {
    if marks == [] then 0
    else MissedSlots(marks[..|marks| - 1]) + (if marks[|marks| - 1].Overdue? then marks[|marks| - 1].slots else 0)
  }

  ghost predicate OnlyInterval(marks: seq<Mark>, interval: u64) {
    forall i | 0 <= i < |marks| && (marks[i].RegularSlot? || marks[i].Overdue?) :: marks[i].interval == interval
  }

  function Span(slots: nat, interval: u64): nat {
    slots * interval
  }

  lemma SpanAdds(a: nat, b: nat, interval: u64)
    ensures Span(a + b, interval) == Span(a, interval) + Span(b, interval)
  {
  }

  /** The slots a mark accounts for. */
  function SlotsOf(mark: Mark): nat {
    match mark
    case RegularSlot(_) => 1
    case Overdue(slots, _) => slots
    case _ => 0
  }

  lemma LastMark(marks: seq<Mark>, interval: u64)
    requires marks != [] && OnlyInterval(marks, interval)
    ensures var before, last := marks[..|marks| - 1], marks[|marks| - 1];
            && Elapsed(marks) == Elapsed(before) + Span(SlotsOf(last), interval)
            && RegularSelections(marks) + MissedSlots(marks)
               == RegularSelections(before) + MissedSlots(before) + SlotsOf(last)
  {
  }

  lemma {:induction false} ElapsedIsSpan(marks: seq<Mark>, interval: u64)
    requires OnlyInterval(marks, interval)
    ensures Elapsed(marks) == Span(RegularSelections(marks) + MissedSlots(marks), interval)
  {
    if marks != [] {
      var before, last := marks[..|marks| - 1], marks[|marks| - 1];
      ElapsedIsSpan(before, interval);
      LastMark(marks, interval);
      SpanAdds(RegularSelections(before) + MissedSlots(before), SlotsOf(last), interval);
      hide Span, SlotsOf, Elapsed, RegularSelections, MissedSlots, OnlyInterval;
    }
  }

  lemma ElapsedIsSlots(marks: seq<Mark>, interval: u64)
    requires OnlyInterval(marks, interval)
    ensures Elapsed(marks) == (RegularSelections(marks) + MissedSlots(marks)) * interval
  {
    hide OnlyInterval, Elapsed, RegularSelections, MissedSlots;
    ElapsedIsSpan(marks, interval);
  }

  /** The regular slots a step hands to another source: the frame selected for one is preempted. */
  function PreemptedSlots(s: Tx, step: Step): nat
    requires Enabled(s, step)
  {
    if step.Prepared? && step.ready && s.phase.regular && s.phase.envelope.source == Periodic
       && !HigherPriority(s, Periodic, s.phase.schedule, step.now).Keep?
    then 1 else 0
  }

  function PreemptedIn(s: Tx, steps: seq<Step>): nat
    requires CanRun(s, steps)
    decreases |steps|
  {
    if steps == [] then 0 else PreemptedSlots(s, steps[0]) + PreemptedIn(Apply(s, steps[0]), steps[1..])
  }

  lemma MissedAppend(marks: seq<Mark>, mark: Mark)
    ensures MissedSlots(marks + [mark]) == MissedSlots(marks) + if mark.Overdue? then mark.slots else 0
  {
    assert (marks + [mark])[..|marks|] == marks;
  }

  /** The counter of missed slots grows by what the marks gain and by the preempted slots, up to
      its largest value. */
  ghost predicate CounterGrows(s: Tx, t: Tx, preempted: nat) {
    && MissedSlots(t.history.marks) >= MissedSlots(s.history.marks)
    && t.missedSlots ==
       Min(U32_MAX, s.missedSlots + (MissedSlots(t.history.marks) - MissedSlots(s.history.marks)) + preempted)
  }

  lemma SkipCounted(s: Tx, now: u64)
    ensures CounterGrows(s, SkipOverdue(s, now), 0)
  {
    if s.deadlineValid && AdvanceDeadline(s.nextTxAt, now, s.interval).Some? {
      var advance := AdvanceDeadline(s.nextTxAt, now, s.interval).value;
      MissedAppend(s.history.marks, Overdue(advance.missedSlots, s.interval));
    }
  }

  lemma PreparedCounted(s: Tx, ready: bool, now: u64)
    requires Enabled(s, Prepared(ready, now))
    ensures CounterGrows(s, PreparedTaken(s, ready, now), PreemptedSlots(s, Prepared(ready, now)))
  {
    PreparedFrame(s, ready, now);
    var p := HigherPriority(s, s.phase.envelope.source, s.phase.schedule, now);
    hide HigherPriority, Receive, MissedSlots, RecoveryDisplacedRegularSlot;
    if p.FromQueue? {
      ReceiveKeepsCounter(s, p.source);
    }
  }

  lemma ReceiveKeepsCounter(s: Tx, source: Source)
    requires s.queues.Of(source) != []
    ensures Receive(s, source).missedSlots == s.missedSlots
  {
  }

  lemma CompletedCounted(s: Tx, completedAt: u64, now: u64)
    requires Enabled(s, Completed(completedAt, now))
    ensures CounterGrows(s, AttemptDone(s, completedAt, now), 0)
  {
    var after := Recorded(s, completedAt);
    MissedAppend(s.history.marks, Attempt(s.phase.envelope.source));
    SkipCounted(after, now);
    hide SkipOverdue, OverdueSlots, MissedSlots;
  }

  lemma PacketCounted(s: Tx, packet: Option<Packet>, now: u64)
    requires Enabled(s, PacketReady(packet, now))
    ensures CounterGrows(s, PacketTaken(s, packet, now), 0)
  {
    if packet.None? && !s.phase.eventOnly {
      var empty := s.(recoverySent := UpdateRecoveryFairness(s.recoverySent, Periodic),
                      history := s.history.(marks := s.history.marks + [EmptySlot]));
      MissedAppend(s.history.marks, EmptySlot);
      SkipCounted(empty, now);
    }
    hide SkipOverdue, MissedSlots;
  }

  lemma PollCounted(s: Tx, a: u64, b: u64, now: u64, recoveryActive: bool)
    requires Enabled(s, Poll(a, b, now, recoveryActive))
    ensures CounterGrows(s, PollArms(s, a, b, now, recoveryActive), 0)
  {
    var t := PollArms(s, a, b, now, recoveryActive);
    if ReadyArm(s, a, b).value == PeriodicArm {
      var interval := PeriodicInterval(recoveryActive, s.controlRollActive);
      MissedAppend(s.history.marks, RegularSlot(interval));
      hide MissedSlots, PeriodicInterval, RegularDeadlineAfterSelection;
    } else {
      hide MissedSlots;
      QueueArmsKeepCounter(s, a, b, now, recoveryActive);
    }
  }

  lemma QueueArmsKeepCounter(s: Tx, a: u64, b: u64, now: u64, recoveryActive: bool)
    requires Enabled(s, Poll(a, b, now, recoveryActive)) && ReadyArm(s, a, b).value != PeriodicArm
    ensures var t := PollArms(s, a, b, now, recoveryActive);
            t.missedSlots == s.missedSlots && t.history.marks == s.history.marks
  {
    var source := if ReadyArm(s, a, b).value.QueueArm? then ReadyArm(s, a, b).value.source else Periodic;
    if source == Recovery {
      RecoveryArmKeepsCounter(s, now);
    } else if source != Periodic {
      QueueArmKeepsCounter(s, source, now);
    }
    hide ReadyArm, PeriodicArmTaken, RecoveryArm, QueueArmTaken;
  }

  lemma RecoveryArmKeepsCounter(s: Tx, now: u64)
    requires s.phase.Waiting? && (s.pending.Some? || s.queues.recovery != [])
    ensures var t := RecoveryArm(s, now); t.missedSlots == s.missedSlots && t.history.marks == s.history.marks
  {
    hide RecoveryAllowed, Due;
  }

  lemma QueueArmKeepsCounter(s: Tx, source: Source, now: u64)
    requires s.phase.Waiting? && s.queues.Of(source) != []
    ensures var t := QueueArmTaken(s, source, now); t.missedSlots == s.missedSlots && t.history.marks == s.history.marks
  {
  }

  lemma CountedStep(s: Tx, step: Step)
    requires Enabled(s, step)
    ensures CounterGrows(s, Apply(s, step), PreemptedSlots(s, step))
  {
    hide PollArms, PacketTaken, PreparedTaken, AttemptDone, CounterGrows, HigherPriority;
    match step
    case Poll(a, b, now, recoveryActive) => PollCounted(s, a, b, now, recoveryActive);
    case PacketReady(packet, now) => PacketCounted(s, packet, now);
    case Prepared(ready, now) => PreparedCounted(s, ready, now);
    case Completed(completedAt, now) => CompletedCounted(s, completedAt, now);
    case _ => UntouchedCounter(s, step);
  }

  lemma UntouchedCounter(s: Tx, step: Step)
    requires Enabled(s, step)
    requires step.Arrive? || step.DropOldestTimeRequest? || step.SignalControlRoll? || step.Begin?
    ensures CounterGrows(s, Apply(s, step), PreemptedSlots(s, step))
  {
    hide MissedSlots, HigherPriority, ScheduleOf, DeferralBlocked;
  }

  lemma {:induction false} CountedRun(s: Tx, steps: seq<Step>)
    requires CanRun(s, steps)
    ensures CounterGrows(s, Run(s, steps), PreemptedIn(s, steps))
    decreases |steps|
  {
    hide Apply, Enabled, PreemptedSlots, MissedSlots;
    if steps != [] {
      CountedStep(s, steps[0]);
      CountedRun(Apply(s, steps[0]), steps[1..]);
    }
  }

  /** In every run the modelled counter of missed slots holds the overdue slots and the regular slots
      lost to preemption, saturating at the largest u32. */
  lemma CounterHoldsMissedSlots(bootAt: u64, recoveryFrom: u64, steps: seq<Step>)
    requires bootAt <= recoveryFrom && CanRun(Init(bootAt, recoveryFrom), steps)
    ensures var s := Run(Init(bootAt, recoveryFrom), steps);
            s.missedSlots ==
            Min(U32_MAX, MissedSlots(s.history.marks) + PreemptedIn(Init(bootAt, recoveryFrom), steps))
  {
    CountedRun(Init(bootAt, recoveryFrom), steps);
  }

  /** While one interval is in use, every slot since boot was selected once or counted as missed. */
  lemma SlotsAreSelectedOrMissed(bootAt: u64, recoveryFrom: u64, steps: seq<Step>, interval: u64)
    requires bootAt <= recoveryFrom && CanRun(Init(bootAt, recoveryFrom), steps)
    requires var s := Run(Init(bootAt, recoveryFrom), steps);
             s.deadlineValid && Unsaturated(s.history.marks) && OnlyInterval(s.history.marks, interval)
    ensures var s := Run(Init(bootAt, recoveryFrom), steps);
            && s.nextTxAt - BootDeadline(bootAt) ==
               (RegularSelections(s.history.marks) + MissedSlots(s.history.marks)) * interval
            && s.missedSlots ==
               Min(U32_MAX, MissedSlots(s.history.marks) + PreemptedIn(Init(bootAt, recoveryFrom), steps))
  {
    CounterHoldsMissedSlots(bootAt, recoveryFrom, steps);
    DeadlinesKeepTheirPhase(bootAt, recoveryFrom, steps);
    ElapsedIsSlots(Run(Init(bootAt, recoveryFrom), steps).history.marks, interval);
  }

  // ---- The slot after an attempt

  /** The steps that end in skip_overdue_periodic_deadlines: an attempt and an empty slot. */
  predicate SkipsOverdue(s: Tx, step: Step)
    requires Enabled(s, step)
  {
    step.Completed? || (step.PacketReady? && step.packet.None? && !s.phase.eventOnly)
  }

  /** After an attempt or an empty slot the next deadline, if still valid, is the first of the old
      deadline and the slots that follow it at the current interval to lie after the clock; it
      stops being valid exactly when that slot has no u64 representation. */
  lemma NextDeadlineIsFirstSlot(s: Tx, step: Step) returns (point: nat, steps: nat)
    requires Enabled(s, step) && SkipsOverdue(s, step) && s.deadlineValid && s.interval > 0
    ensures FirstSlotAfter(s.nextTxAt, Apply(s, step).clock, s.interval, point, steps)
    ensures Apply(s, step).deadlineValid <==> point < U64_LIMIT
    ensures Apply(s, step).deadlineValid ==> Apply(s, step).nextTxAt == point
  {
    hide AdvanceDeadline, OverdueSlots, SaturatingAdd32;
    point, steps := AdvanceDeadlineIsFirstSlot(s.nextTxAt, step.now, s.interval);
  }

  /** The regular deadline is at most one interval ahead of the clock. */
  predicate WithinOneInterval(s: Tx) {
    s.deadlineValid ==> s.nextTxAt <= s.clock + s.interval
  }

  /** While the task waits, its schedule is the one its deadlines give. */
  predicate ScheduleCurrent(s: Tx) {
    s.phase.Waiting? ==> s.phase.schedule == ScheduleOf(s)
  }

  /** A retry slot puts an interval in force that is shorter than the time left to the regular
      deadline, which was set at a longer one. */
  predicate RetryShortensInterval(s: Tx, step: Step)
    requires Enabled(s, step)
  {
    && step.Poll? && ReadyArm(s, step.recoveryPoll, step.periodicPoll).value == PeriodicArm
    && s.phase.schedule.retrySelected && s.deadlineValid
    && s.nextTxAt > step.now + PeriodicInterval(step.recoveryActive, s.controlRollActive)
  }

  lemma SkipStaysWithin(s: Tx, now: u64)
    requires s.deadlineValid ==> s.nextTxAt <= now + s.interval
    ensures var t := SkipOverdue(s, now);
            && t.interval == s.interval
            && (t.deadlineValid ==> now < t.nextTxAt <= now + t.interval)
  {
    if s.deadlineValid {
      var point, steps := AdvanceDeadlineIsFirstSlot(s.nextTxAt, now, s.interval);
      hide AdvanceDeadline;
    }
  }

  lemma ScheduleStep(s: Tx, step: Step)
    requires ScheduleCurrent(s) && Enabled(s, step)
    ensures ScheduleCurrent(Apply(s, step))
  {
    hide PreparedTaken, RecoveryArm, QueueArmTaken, SkipOverdue, OverdueSlots, SelectPeriodicDeadline;
    match step
    case Poll(a, b, now, recoveryActive) => OtherArmsFrame(s, a, b, now, recoveryActive);
    case Prepared(ready, now) => PreparedFrame(s, ready, now);
    case _ =>
  }

  lemma WithinPoll(s: Tx, a: u64, b: u64, now: u64, recoveryActive: bool)
    requires WithinOneInterval(s) && ScheduleCurrent(s) && Enabled(s, Poll(a, b, now, recoveryActive))
    ensures WithinOneInterval(PollArms(s, a, b, now, recoveryActive)) <==>
            !RetryShortensInterval(s, Poll(a, b, now, recoveryActive))
  {
    hide RecoveryArm, QueueArmTaken, PeriodicInterval;
    OtherArmsFrame(s, a, b, now, recoveryActive);
  }

  lemma WithinPacket(s: Tx, packet: Option<Packet>, now: u64)
    requires WithinOneInterval(s) && Enabled(s, PacketReady(packet, now))
    ensures WithinOneInterval(PacketTaken(s, packet, now))
  {
    hide SkipOverdue;
    SkipStaysWithin(s.(recoverySent := UpdateRecoveryFairness(s.recoverySent, Periodic),
                       history := s.history.(marks := s.history.marks + [EmptySlot])), now);
  }

  lemma WithinCompleted(s: Tx, completedAt: u64, now: u64)
    requires WithinOneInterval(s) && Enabled(s, Completed(completedAt, now))
    ensures WithinOneInterval(AttemptDone(s, completedAt, now))
  {
    hide SkipOverdue, OverdueSlots;
    SkipStaysWithin(Recorded(s, completedAt), now);
  }

  lemma WithinStep(s: Tx, step: Step)
    requires WithinOneInterval(s) && ScheduleCurrent(s) && Enabled(s, step)
    ensures WithinOneInterval(Apply(s, step)) <==> !RetryShortensInterval(s, step)
  {
    hide PreparedTaken, PollArms, PacketTaken, AttemptDone;
    match step
    case Poll(a, b, now, recoveryActive) => WithinPoll(s, a, b, now, recoveryActive);
    case PacketReady(packet, now) => WithinPacket(s, packet, now);
    case Prepared(ready, now) => PreparedFrame(s, ready, now);
    case Completed(completedAt, now) => WithinCompleted(s, completedAt, now);
    case _ =>
  }

  predicate NoShorteningRetry(s: Tx, steps: seq<Step>)
    requires CanRun(s, steps)
    decreases |steps|
  {
    steps == [] || (!RetryShortensInterval(s, steps[0]) && NoShorteningRetry(Apply(s, steps[0]), steps[1..]))
  }

  lemma {:induction false} WithinRun(s: Tx, steps: seq<Step>)
    requires WithinOneInterval(s) && ScheduleCurrent(s) && CanRun(s, steps) && NoShorteningRetry(s, steps)
    ensures WithinOneInterval(Run(s, steps)) && ScheduleCurrent(Run(s, steps))
    decreases |steps|
  {
    hide ScheduleCurrent, RetryShortensInterval;
    if steps != [] {
      ScheduleStep(s, steps[0]);
      WithinStep(s, steps[0]);
      WithinRun(Apply(s, steps[0]), steps[1..]);
    }
  }

  /** The regular deadline is at most one interval ahead in every state of the run. */
  predicate AlwaysWithin(s: Tx, steps: seq<Step>)
    requires CanRun(s, steps)
    decreases |steps|
  {
    WithinOneInterval(s) && (steps == [] || AlwaysWithin(Apply(s, steps[0]), steps[1..]))
  }

  lemma {:induction false} WithinExactly(s: Tx, steps: seq<Step>)
    requires WithinOneInterval(s) && ScheduleCurrent(s) && CanRun(s, steps)
    ensures AlwaysWithin(s, steps) <==> NoShorteningRetry(s, steps)
    decreases |steps|
  {
    hide ScheduleCurrent, RetryShortensInterval, WithinOneInterval;
    if steps != [] {
      ScheduleStep(s, steps[0]);
      WithinStep(s, steps[0]);
      if WithinOneInterval(Apply(s, steps[0])) {
        WithinExactly(Apply(s, steps[0]), steps[1..]);
      }
    }
  }

  /** A run keeps the regular deadline within one interval throughout exactly when it has no such
      retry slot. */
  lemma DeadlineStaysNearExactly(bootAt: u64, recoveryFrom: u64, steps: seq<Step>)
    requires bootAt <= recoveryFrom && CanRun(Init(bootAt, recoveryFrom), steps)
    ensures AlwaysWithin(Init(bootAt, recoveryFrom), steps) <==> NoShorteningRetry(Init(bootAt, recoveryFrom), steps)
  {
    WithinExactly(Init(bootAt, recoveryFrom), steps);
  }

  /** Such a retry slot comes after a change of mode: its interval is shorter than the one in force. */
  lemma ShorteningRetryChangesMode(s: Tx, step: Step)
    requires WithinOneInterval(s) && Enabled(s, step) && RetryShortensInterval(s, step)
    ensures PeriodicInterval(step.recoveryActive, s.controlRollActive) < s.interval
  {
  }

  /** From any state, an attempt or an empty slot leaves a valid next deadline at the nearest grid
      point exactly when the deadline was not further ahead than one interval already. */
  lemma NearestExactly(s: Tx, step: Step)
    requires Enabled(s, step) && SkipsOverdue(s, step) && s.deadlineValid && s.interval > 0
    ensures var t := Apply(s, step);
            t.deadlineValid ==>
              (t.nextTxAt - t.interval <= t.clock < t.nextTxAt <==> s.nextTxAt <= step.now + s.interval)
  {
    var point, steps := NextDeadlineIsFirstSlot(s, step);
    IntervalStays(s, step);
    hide Apply, Enabled, SkipsOverdue;
    if steps > 0 {
      MultiplesGrow(1, steps, s.interval);
    }
  }

  lemma IntervalStays(s: Tx, step: Step)
    requires Enabled(s, step) && SkipsOverdue(s, step)
    ensures Apply(s, step).interval == s.interval && Apply(s, step).clock == step.now
  {
    hide AdvanceDeadline, OverdueSlots, SaturatingAdd32;
  }

  /** In every run without such a retry, an attempt or an empty slot leaves a valid next deadline
      at the first grid point of the current interval strictly after the clock. */
  lemma NextDeadlineIsNearest(bootAt: u64, recoveryFrom: u64, steps: seq<Step>, step: Step)
    requires bootAt <= recoveryFrom && CanRun(Init(bootAt, recoveryFrom), steps)
    requires NoShorteningRetry(Init(bootAt, recoveryFrom), steps)
    requires var s := Run(Init(bootAt, recoveryFrom), steps); Enabled(s, step) && SkipsOverdue(s, step)
    ensures var t := Apply(Run(Init(bootAt, recoveryFrom), steps), step);
            t.deadlineValid ==> t.nextTxAt - t.interval <= t.clock < t.nextTxAt
  {
    var s := Run(Init(bootAt, recoveryFrom), steps);
    WithinRun(Init(bootAt, recoveryFrom), steps);
    hide SkipOverdue, OverdueSlots, Run, CanRun;
    if step.Completed? {
      SkipStaysWithin(Recorded(s, step.completedAt), step.now);
    } else {
      SkipStaysWithin(s.(recoverySent := UpdateRecoveryFairness(s.recoverySent, Periodic),
                         history := s.history.(marks := s.history.marks + [EmptySlot])), step.now);
    }
  }

  const P1 := Packet(1, false, false)
  const R6 := Envelope(Recovery, 6)

  /** A Recovery frame displaces the first 10 s slot of recovery mode and earns it a retry. */
  lemma RetryInRecoveryMode() returns (steps: seq<Step>, s: Tx)
    ensures CanRun(Init(0, 0), steps) && Run(Init(0, 0), steps) == s
    ensures s.phase.Top? && s.clock == 600_000 && s.nextTxAt == 10_500_000 && s.deadlineValid
    ensures s.retryAt == Some(800_000) && s.queues == Queues([], [], [], []) && s.deferred == None && s.pending == None
    ensures s.recoverySent && !s.controlRollActive
  {
    steps, s := [], Init(0, 0);
    steps, s := Then(steps, s, Begin(500_000));
    hide Run, CanRun;
    steps, s := Then(steps, s, Poll(500_000, 500_000, 500_000, true));
    steps, s := Then(steps, s, PacketReady(Some(P1), 500_000));
    steps, s := Then(steps, s, Arrive(R6));
    steps, s := Then(steps, s, Prepared(true, 600_000));
    steps, s := Then(steps, s, Completed(600_000, 600_000));
  }

  /** Leaving recovery mode before the retry: the retry slot switches to 500 ms, yet after its frame
      was sent the next regular deadline stays 9.6 s away. */
  lemma ShorteningRetryLeavesAGap() returns (steps: seq<Step>)
    ensures CanRun(Init(0, 0), steps)
    ensures var s := Run(Init(0, 0), steps);
            && s.phase.Top? && s.history.attemptEnd == 900_000 && s.clock == 900_000
            && s.deadlineValid && s.interval == 500_000 && s.nextTxAt == 10_500_000
  {
    hide Run, CanRun;
    var s;
    steps, s := RetryInRecoveryMode();
    steps, s := Then(steps, s, Begin(800_000));
    steps, s := Then(steps, s, Poll(800_000, 800_000, 800_000, false));
    steps, s := Then(steps, s, PacketReady(Some(P1), 800_000));
    steps, s := Then(steps, s, Prepared(true, 800_000));
    steps, s := Then(steps, s, Completed(900_000, 900_000));
  }
}
