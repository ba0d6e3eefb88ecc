/** The power readings of the recovery beacon (src/tasks/lora_task_base.rs:566-585): the recovery power
    task renews the time stamp of the cached reading, so that a beacon always finds it fresh, and still
    no beacon shows a reading much older than 30 s. */
module RecoveryBeacon {
  import opened Prelude
  import opened CanProtocol
  import opened CanCache
  import opened RecoveryPower
  import PeriodicPacket
  import Downlink
  import Payload

  /** The recovery power task, and everything written to the cache it shares. */
  datatype Board = Board(power: RecoveryPower.State, writes: seq<PeriodicPacket.Step>)

  datatype Event =
    | Bus(id: u16, data: seq<u8>, at: u64)         // a CAN frame, stamped on reception
    | EventsSent(flags: bv16, revision: u32)       // the transmit task clears event flags
    | Power(step: RecoveryPower.Step)              // the clock, mode changes, clears and polls

  const BOOT := Board(RecoveryPower.START, [])

  /** The power reading of a CAN frame, if it is one. */
  function PowerReading(id: u16, data: seq<u8>): Option<PowerTime> {
    match DecodeStandard(id, data)
    case Ok(PowerTimeMessage(power)) => Some(power)
    case _ => None
  }

  predicate CanHappen(b: Board, event: Event) {
    match event
    case Bus(_, _, at) => at <= b.power.clock
    case EventsSent(_, _) => true
    case Power(step) => !step.PowerFrame? && Enabled(b.power, step)
  }

  /** What a step of the recovery power task, or a clear, writes to the cache. */
  function Written(s: RecoveryPower.State, step: RecoveryPower.Step): seq<PeriodicPacket.Step>
    requires Enabled(s, step)
  {
    match step
    case ClearSnapshot => [PeriodicPacket.ClearPower]
    case EndPoll =>
      var t := RecoveryPower.Apply(s, EndPoll);
      if s.polling.active then [PeriodicPacket.RefreshPower(t.cached.value.value, s.polling.now)]
      else if s.task.activePrevious then [PeriodicPacket.ClearPower]
      else []
    case _ => []
  }

  function After(b: Board, event: Event): Board
    requires CanHappen(b, event)
  {
    match event
    case Bus(id, data, at) =>
      var power := PowerReading(id, data);
      Board(if power.Some? then RecoveryPower.Apply(b.power, PowerFrame(power.value, at)) else b.power,
            b.writes + [PeriodicPacket.FrameReceived(id, data, at)])
    case EventsSent(flags, revision) => b.(writes := b.writes + [PeriodicPacket.ClearEvents(flags, revision)])
    case Power(step) => Board(RecoveryPower.Apply(b.power, step), b.writes + Written(b.power, step))
  }

  predicate CanRunBoard(b: Board, events: seq<Event>)
    decreases |events|
  {
    events == [] || (CanHappen(b, events[0]) && CanRunBoard(After(b, events[0]), events[1..]))
  }

  function RunBoard(b: Board, events: seq<Event>): Board
    requires CanRunBoard(b, events)
    decreases |events|
  {
    if events == [] then b else RunBoard(After(b, events[0]), events[1..])
  }

  /** The power frames among the events. */
  function PowerFrames(events: seq<Event>): seq<Frame>
    decreases |events|
  {
    if events == [] then []
    else
      (match events[0]
       case Bus(id, data, at) =>
         if PowerReading(id, data).Some? then [Frame(PowerReading(id, data).value, at)] else []
       case _ => [])
      + PowerFrames(events[1..])
  }

  // ---- The invariant

  /** The task and the transmit task see the same reading. */
  predicate SameReading(b: Board) {
    PeriodicPacket.Run(b.writes).powerTime == b.power.cached
  }

  /** What is cached was received or published with the time stamp it has. */
  predicate CachedKnown(s: RecoveryPower.State) {
    s.cached.value.Some? ==>
      Frame(s.cached.value.value, s.cached.receivedAtMs) in s.frames
      || Published(s.cached.value.value, s.cached.receivedAtMs) in s.published
  }

  ghost predicate BoardSound(b: Board) {
    RecoveryPower.Sound(b.power) && CachedKnown(b.power) && SameReading(b)
  }

  lemma WriteOne(writes: seq<PeriodicPacket.Step>, step: PeriodicPacket.Step)
    ensures PeriodicPacket.Run(writes + [step]) == PeriodicPacket.Apply(PeriodicPacket.Run(writes), step)
  {
    assert (writes + [step])[..|writes|] == writes;
  }

  lemma BusWrites(c: Cache, id: u16, data: seq<u8>, at: u64)
    ensures PeriodicPacket.Apply(c, PeriodicPacket.FrameReceived(id, data, at)).powerTime ==
            if PowerReading(id, data).Some? then Received(PowerReading(id, data).value, at) else c.powerTime
  {
    hide DecodeStandard, Latched;
  }

  lemma BusSame(b: Board, event: Event)
    requires SameReading(b) && CanHappen(b, event) && !event.Power?
    ensures SameReading(After(b, event))
  {
    hide PeriodicPacket.Run, PowerReading, PeriodicPacket.Apply;
    match event
    case Bus(id, data, at) =>
      WriteOne(b.writes, PeriodicPacket.FrameReceived(id, data, at));
      BusWrites(PeriodicPacket.Run(b.writes), id, data, at);
    case EventsSent(flags, revision) =>
      WriteOne(b.writes, PeriodicPacket.ClearEvents(flags, revision));
      ClearingEvents(PeriodicPacket.Run(b.writes), flags, revision);
  }

  lemma ClearingEvents(c: Cache, flags: bv16, revision: u32)
    ensures PeriodicPacket.Apply(c, PeriodicPacket.ClearEvents(flags, revision)).powerTime == c.powerTime
  {
  }

  lemma PowerSame(b: Board, step: RecoveryPower.Step)
    requires SameReading(b) && CanHappen(b, Power(step))
    ensures SameReading(After(b, Power(step)))
  {
    hide PeriodicPacket.Run, Followed;
    if Written(b.power, step) == [] {
      assert b.writes + [] == b.writes;
    } else {
      WriteOne(b.writes, Written(b.power, step)[0]);
    }
  }

  lemma KnownStep(s: RecoveryPower.State, step: RecoveryPower.Step)
    requires CachedKnown(s) && Enabled(s, step)
    ensures CachedKnown(RecoveryPower.Apply(s, step))
  {
    hide Followed;
  }

  lemma BoardStep(b: Board, event: Event)
    requires BoardSound(b) && CanHappen(b, event)
    ensures BoardSound(After(b, event))
  {
    hide RecoveryPower.Sound, CachedKnown, SameReading, RecoveryPower.Apply, PowerReading, Written;
    match event
    case Bus(id, data, at) =>
      BusSame(b, event);
      if PowerReading(id, data).Some? {
        StepSound(b.power, PowerFrame(PowerReading(id, data).value, at));
        KnownStep(b.power, PowerFrame(PowerReading(id, data).value, at));
      }
    case EventsSent(_, _) => BusSame(b, event);
    case Power(step) =>
      PowerSame(b, step);
      StepSound(b.power, step);
      KnownStep(b.power, step);
  }

  /** The frames the task has seen are the power frames received. */
  lemma FramesStep(b: Board, event: Event)
    requires CanHappen(b, event)
    ensures After(b, event).power.frames == b.power.frames + PowerFrames([event])
  {
    hide PowerReading, Followed;
    assert [event][1..] == [];
  }

  lemma {:induction false} BoardRun(b: Board, events: seq<Event>)
    requires BoardSound(b) && CanRunBoard(b, events)
    ensures BoardSound(RunBoard(b, events))
    ensures RunBoard(b, events).power.frames == b.power.frames + PowerFrames(events)
    decreases |events|
  {
    hide BoardSound, After, CanHappen, PowerReading;
    if events != [] {
      BoardStep(b, events[0]);
      FramesStep(b, events[0]);
      BoardRun(After(b, events[0]), events[1..]);
      assert PowerFrames(events) == PowerFrames([events[0]]) + PowerFrames(events[1..]) by {
        assert [events[0]][1..] == [];
      }
    }
  }

  // ---- The main result

  const BEACON_AGE_MS := 30_300

  /** The beacon shows this reading. */
  predicate Shows(p: Payload.Packet, power: PowerTime)
    requires p.RecoveryBeacon?
  {
    p.logicVoltage == power.logicVoltage && p.motorVoltage == power.motorVoltage && p.elapsed == power.recoveryElapsed
  }

  /** The codes of no reading or of a stale one, or a reading received at most 30.3 s before. */
  predicate IsHonestBeacon(p: Payload.Packet, frames: seq<Frame>, nowMs: u64)
    requires p.RecoveryBeacon?
  {
    || Shows(p, UNAVAILABLE) || Shows(p, PeriodicPacket.NO_POWER)
    || exists i | 0 <= i < |frames| :: Shows(p, frames[i].value) && nowMs <= frames[i].at + BEACON_AGE_MS
  }

  lemma BootSound()
    ensures BoardSound(BOOT)
  {
  }

  lemma HonestBeacon(b: Board, env: PeriodicPacket.Conditions)
    requires BoardSound(b)
    ensures IsHonestBeacon(PeriodicPacket.BeaconPacket(PeriodicPacket.Run(b.writes), env), b.power.frames, env.nowMs)
  {
    hide PeriodicPacket.Run, IsMarkedStale, RecoveryPower.IsRecent;
    var s, c := b.power, PeriodicPacket.Run(b.writes);
    var p := PeriodicPacket.BeaconPacket(c, env);
    if c.powerTime.IfFresh(env.nowMs, FRESHNESS_10_HZ_MS).Some? {
      var value, at := s.cached.value.value, s.cached.receivedAtMs;
      if Frame(value, at) in s.frames {
        var i :| 0 <= i < |s.frames| && s.frames[i] == Frame(value, at);
        assert Shows(p, s.frames[i].value);
      } else {
        var k :| 0 <= k < |s.published| && s.published[k] == Published(value, at);
        assert IsHonest(s.frames, s.published[k]);
        HonestShown(p, s.frames, s.published[k], env.nowMs);
      }
    }
  }

  lemma HonestShown(p: Payload.Packet, frames: seq<Frame>, published: Published, nowMs: u64)
    requires p.RecoveryBeacon? && Shows(p, published.value) && IsHonest(frames, published)
    requires nowMs <= published.at + FRESHNESS_10_HZ_MS
    ensures IsHonestBeacon(p, frames, nowMs)
  {
    if RecoveryPower.IsRecent(frames, published) {
      var i :| 0 <= i < |frames| && frames[i].value == published.value
               && published.at <= frames[i].at + RecoveryPower.FRESHNESS_MS;
      assert Shows(p, frames[i].value);
    }
  }

  /** However CAN frames, mode changes, clears and polls interleave: the voltages and the time that the
      ground reads from a recovery beacon are the codes of no reading, those of a stale one, or those of
      a power frame received at most 30.3 s before. */
  lemma BeaconIsHonest(
    events: seq<Event>, env: PeriodicPacket.Conditions, preferControlRoll: bool, eventOnly: bool,
    packet: Payload.Packet, frame: seq<u8>)
    requires CanRunBoard(BOOT, events)
    ensures packet.RecoveryBeacon?
            && Downlink.Sends(RunBoard(BOOT, events).writes, env, preferControlRoll, eventOnly, packet, frame) ==>
              Payload.Decode(frame) == Some(packet) && IsHonestBeacon(packet, PowerFrames(events), env.nowMs)
  {
    hide CanRunBoard, RunBoard, PowerFrames, IsHonestBeacon, Payload.Encode, Payload.Decode, PeriodicPacket.Run;
    hide PeriodicPacket.Plan, PeriodicPacket.BeaconPacket, BoardSound;
    BootSound();
    BoardRun(BOOT, events);
    var b := RunBoard(BOOT, events);
    if packet.RecoveryBeacon? && Downlink.Sends(b.writes, env, preferControlRoll, eventOnly, packet, frame) {
      Payload.EncodingIsLossless(packet, frame);
      Downlink.BeaconPlanned(PeriodicPacket.Run(b.writes), env, preferControlRoll, eventOnly);
      HonestBeacon(b, env);
      assert b.power.frames == PowerFrames(events);
    }
  }
}
