/** The control-roll cycle of the LoRa transmit task: its flags and its interval follow the last packet built
    for a periodic slot, and control-roll frames alternate with the others
    (src/tasks/lora_task_base.rs:536-573, 757-763, 1224-1263). */
module LoRaTxCycle {
  import opened Prelude
  import opened LoRaScheduler
  import opened LoRaTx
  import opened LoRaTxInvariants
  import Packets = PeriodicPacket
  import Downlink

  /** The last packet built for a periodic slot; event-driven ones do not count. */
  function LastBuilt(s: Tx, steps: seq<Step>, before: Option<Packet>): Option<Packet>
    requires CanRun(s, steps)
    decreases |steps|
  {
    if steps == [] then before
    else
      var step := steps[0];
      LastBuilt(Apply(s, step), steps[1..],
                if step.PacketReady? && step.packet.Some? && !s.phase.eventOnly then step.packet else before)
  }

  /** The cycle runs while the last packet said so, and a control-roll packet is wanted after another one. */
  predicate FlagsFollow(s: Tx, last: Option<Packet>) {
    && (s.controlRollActive <==> last.Some? && last.value.cycleAvailable)
    && (s.preferControlRoll <==> last.Some? && last.value.cycleAvailable && !last.value.isControlRoll)
  }

  lemma FlagsStep(s: Tx, step: Step)
    requires Enabled(s, step)
    ensures var t := Apply(s, step);
            if step.PacketReady? && step.packet.Some? && !s.phase.eventOnly then FlagsFollow(t, step.packet)
            else t.controlRollActive == s.controlRollActive && t.preferControlRoll == s.preferControlRoll
  {
    hide SkipOverdue, OverdueSlots, PollArms, PreparedTaken, ScheduleOf, DeferralBlocked, Due;
    match step
    case Poll(a, b, now, recoveryActive) => PollFlags(s, a, b, now, recoveryActive);
    case PacketReady(packet, now) =>
      SkipOverdueFrame(s.(recoverySent := UpdateRecoveryFairness(s.recoverySent, Periodic),
                          history := s.history.(marks := s.history.marks + [EmptySlot])), now);
    case Prepared(ready, now) => PreparedFlags(s, ready, now);
    case Completed(completedAt, now) => SkipOverdueFrame(Recorded(s, completedAt), now);
    case _ =>
  }

  lemma PollFlags(s: Tx, a: u64, b: u64, now: u64, recoveryActive: bool)
    requires s.phase.Waiting? && ReadyArm(s, a, b).Some?
    ensures var t := PollArms(s, a, b, now, recoveryActive);
            t.controlRollActive == s.controlRollActive && t.preferControlRoll == s.preferControlRoll
  {
    OtherArmsFrame(s, a, b, now, recoveryActive);
    hide ReadyArm, RecoveryArm, QueueArmTaken, PeriodicInterval, RegularDeadlineAfterSelection;
  }

  lemma PreparedFlags(s: Tx, ready: bool, now: u64)
    requires s.phase.Preparing?
    ensures var t := PreparedTaken(s, ready, now);
            t.controlRollActive == s.controlRollActive && t.preferControlRoll == s.preferControlRoll
  {
    hide HigherPriority, SaturatingAdd32, Receive;
    var p := HigherPriority(s, s.phase.envelope.source, s.phase.schedule, now);
    if p.FromQueue? {
      ReceiveFrame(s, p.source);
    }
  }

  lemma {:induction false} FlagsRun(s: Tx, steps: seq<Step>, before: Option<Packet>)
    requires FlagsFollow(s, before) && CanRun(s, steps)
    ensures FlagsFollow(Run(s, steps), LastBuilt(s, steps, before))
    decreases |steps|
  {
    hide Apply;
    if steps != [] {
      var step := steps[0];
      FlagsStep(s, step);
      var built := step.PacketReady? && step.packet.Some? && !s.phase.eventOnly;
      FlagsRun(Apply(s, step), steps[1..], if built then step.packet else before);
    }
  }

  /** In every run: the flags follow the last packet, and the periodic arm puts 10 s in force in recovery
      mode, 250 ms while that packet said the cycle is available, and 500 ms otherwise; a regular slot moves
      the deadline on by that much. */
  lemma IntervalFollowsCycle(bootAt: u64, recoveryFrom: u64, steps: seq<Step>, step: Step)
    requires bootAt <= recoveryFrom && CanRun(Init(bootAt, recoveryFrom), steps)
    requires var s := Run(Init(bootAt, recoveryFrom), steps);
             Enabled(s, step) && step.Poll? && ReadyArm(s, step.recoveryPoll, step.periodicPoll) == Some(PeriodicArm)
    ensures var s, last := Run(Init(bootAt, recoveryFrom), steps), LastBuilt(Init(bootAt, recoveryFrom), steps, None);
            var t := Apply(s, step);
            var interval := if step.recoveryActive then 10_000_000
                            else if last.Some? && last.value.cycleAvailable then 250_000 else 500_000;
            && FlagsFollow(s, last) && t.interval == interval
            && t.nextTxAt == (if s.phase.schedule.retrySelected || s.nextTxAt + interval >= U64_LIMIT then s.nextTxAt
                              else s.nextTxAt + interval)
            && (t.deadlineValid <==>
                  s.deadlineValid && (s.phase.schedule.retrySelected || s.nextTxAt + interval < U64_LIMIT))
  {
    FlagsRun(Init(bootAt, recoveryFrom), steps, None);
    hide Run, CanRun, Init, LastBuilt, ReadyArm;
  }

  /** The packet is what the plan on this cache says of the cycle. */
  predicate IsPlanned(packet: Packet, cached: seq<Packets.Step>, env: Packets.Conditions, preferControlRoll: bool) {
    var plan := Packets.Plan(Packets.Run(cached), env, preferControlRoll, false);
    plan.Some? && packet.cycleAvailable == plan.value.cycleAvailable && packet.isControlRoll == plan.value.isControlRoll
  }

  /** In every run, from one periodic slot to the next: a control-roll frame follows exactly when the cycle
      was on in the last slot, which sent neither a control-roll frame nor a beacon, and still is. */
  lemma ControlRollAlternates(
    bootAt: u64, recoveryFrom: u64, steps: seq<Step>, cached: seq<Packets.Step>, env: Packets.Conditions,
    preferred: bool, laterCached: seq<Packets.Step>, laterEnv: Packets.Conditions)
    requires bootAt <= recoveryFrom && CanRun(Init(bootAt, recoveryFrom), steps)
    requires var last := LastBuilt(Init(bootAt, recoveryFrom), steps, None);
             last.Some? && IsPlanned(last.value, cached, env, preferred)
    ensures var s := Run(Init(bootAt, recoveryFrom), steps);
            var last := LastBuilt(Init(bootAt, recoveryFrom), steps, None).value;
            var plan := Packets.Plan(Packets.Run(laterCached), laterEnv, s.preferControlRoll, false);
            && plan.Some?
            && (plan.value.isControlRoll <==>
                  && Downlink.InCycle(cached, env) && !last.isControlRoll && !env.recoveryBeacon
                  && Downlink.InCycle(laterCached, laterEnv))
  {
    FlagsRun(Init(bootAt, recoveryFrom), steps, None);
    hide Run, CanRun, Init, LastBuilt, Packets.Run, Packets.Plan, Downlink.InCycle;
    Downlink.CycleFollowsNewest(cached, env, preferred, false);
    Downlink.CycleFollowsNewest(laterCached, laterEnv, Run(Init(bootAt, recoveryFrom), steps).preferControlRoll, false);
  }
}
