/** What the ground reads in a flight frame: the newest accepted CAN reading of each kind while it is
    fresh, and the code for a missing reading otherwise (src/can/cache.rs:148-209,
    src/tasks/lora_task_base.rs:342-352, 519-534, 641-669, src/payload.rs:169-270). */
module Downlink {
  import opened Prelude
  import opened Bits
  import opened CanProtocol
  import opened CanCache
  import opened EventLatch
  import opened PeriodicPacket
  import Payload

  datatype Reading = Reading(message: RxMessage, at: u64)

  /** The last frame with this identifier that was accepted. */
  function LastAccepted(steps: seq<PeriodicPacket.Step>, id: u16): Option<Reading> {
    if steps == [] then None
    else
      var last := steps[|steps| - 1];
      if last.FrameReceived? && last.id == id && DecodeStandard(id, last.data).Ok?
      then Some(Reading(DecodeStandard(id, last.data).value, last.at))
      else LastAccepted(steps[..|steps| - 1], id)
  }

  /** The last accepted frame, if it is no older than the window. */
  function Newest(steps: seq<PeriodicPacket.Step>, id: u16, nowMs: u64, window: u64): Option<RxMessage> {
    var last := LastAccepted(steps, id);
    if last.Some? && nowMs >= last.value.at && nowMs - last.value.at <= window then Some(last.value.message) else None
  }

  /** The identifiers whose readings only CAN frames change. */
  predicate IsReading(id: u16) {
    || id == 0x100 || id == 0x101 || id == 0x102 || id == 0x104 || id == 0x107 || id == 0x108 || id == 0x109
    || id == 0x10a || id == 0x011 || id == 0x012 || id == 0x105 || id == 0x106
  }

  function As<T>(l: Latest<T>, wrap: T -> RxMessage): Option<Reading> {
    if l.value.Some? then Some(Reading(wrap(l.value.value), l.receivedAtMs)) else None
  }

  function Cached(c: Cache, id: u16): Option<Reading>
    requires IsReading(id)
  {
    match id
    case 0x100 => As(c.kinematics, v => KinematicsMessage(v))
    case 0x101 => As(c.control, v => ControlMessage(v))
    case 0x102 => As(c.missionStatus, v => MissionStatusMessage(v))
    case 0x104 => As(c.descentCore, v => DescentCoreMessage(v))
    case 0x107 => As(c.attitudeTilt, v => AttitudeTiltMessage(v))
    case 0x108 => As(c.lps, v => LpsMessage(v))
    case 0x109 => As(c.airspeed, v => AirspeedMessage(v))
    case 0x011 => As(c.commandResult, v => ResultMessage(v))
    case 0x012 => As(c.timeRequest, v => TimeRequestMessage(v))
    case 0x105 => As(c.recoveryStatus, v => RecoveryStatusMessage(v))
    case 0x106 => As(c.recoveryLogData, v => RecoveryLogDataMessage(v))
    case _ => As(c.controlRoll, v => ControlRollMessage(v))
  }

  lemma UpdateStores(c: Cache, m: RxMessage, at: u64, id: u16)
    requires IsReading(id)
    ensures Cached(Updated(c, m, at), id) == if IdOf(m) == id then Some(Reading(m, at)) else Cached(c, id)
  {
    hide Latched;
  }

  lemma StepStores(c: Cache, step: PeriodicPacket.Step, id: u16)
    requires IsReading(id)
    ensures Cached(PeriodicPacket.Apply(c, step), id) ==
            if step.FrameReceived? && step.id == id && DecodeStandard(id, step.data).Ok?
            then Some(Reading(DecodeStandard(id, step.data).value, step.at)) else Cached(c, id)
  {
    match step
    case FrameReceived(other, data, at) =>
      var decoded := DecodeStandard(other, data);
      hide DecodeStandard, Updated, Cached;
      if decoded.Ok? {
        DecodingIsCanonical(other, data, decoded.value);
        UpdateStores(c, decoded.value, at, id);
      }
    case _ => hide DecodeStandard;
  }

  /** The cache holds the last accepted frame of every kind. */
  lemma {:induction false} CacheHoldsLastAccepted(steps: seq<PeriodicPacket.Step>, id: u16)
    requires IsReading(id)
    ensures Cached(PeriodicPacket.Run(steps), id) == LastAccepted(steps, id)
  {
    if steps != [] {
      var before := steps[..|steps| - 1];
      CacheHoldsLastAccepted(before, id);
      hide Cached, DecodeStandard, PeriodicPacket.Apply;
      StepStores(PeriodicPacket.Run(before), steps[|steps| - 1], id);
    }
  }

  /** What a fresh cache entry says. */
  lemma FreshIsNewest(steps: seq<PeriodicPacket.Step>, nowMs: u64)
    ensures var c := PeriodicPacket.Run(steps);
            && (c.kinematics.IfFresh(nowMs, 30).Some? <==> Newest(steps, 0x100, nowMs, 30).Some?)
            && (c.kinematics.IfFresh(nowMs, 30).Some? ==>
                  Newest(steps, 0x100, nowMs, 30) == Some(KinematicsMessage(c.kinematics.value.value)))
            && (c.control.IfFresh(nowMs, 30).Some? <==> Newest(steps, 0x101, nowMs, 30).Some?)
            && (c.control.IfFresh(nowMs, 30).Some? ==>
                  Newest(steps, 0x101, nowMs, 30) == Some(ControlMessage(c.control.value.value)))
            && (c.missionStatus.IfFresh(nowMs, 300).Some? <==> Newest(steps, 0x102, nowMs, 300).Some?)
            && (c.missionStatus.IfFresh(nowMs, 300).Some? ==>
                  Newest(steps, 0x102, nowMs, 300) == Some(MissionStatusMessage(c.missionStatus.value.value)))
            && (c.descentCore.IfFresh(nowMs, 30).Some? <==> Newest(steps, 0x104, nowMs, 30).Some?)
            && (c.descentCore.IfFresh(nowMs, 30).Some? ==>
                  Newest(steps, 0x104, nowMs, 30) == Some(DescentCoreMessage(c.descentCore.value.value)))
            && (c.attitudeTilt.IfFresh(nowMs, 300).Some? <==> Newest(steps, 0x107, nowMs, 300).Some?)
            && (c.attitudeTilt.IfFresh(nowMs, 300).Some? ==>
                  Newest(steps, 0x107, nowMs, 300) == Some(AttitudeTiltMessage(c.attitudeTilt.value.value)))
            && (c.lps.IfFresh(nowMs, 120).Some? <==> Newest(steps, 0x108, nowMs, 120).Some?)
            && (c.lps.IfFresh(nowMs, 120).Some? ==>
                  Newest(steps, 0x108, nowMs, 120) == Some(LpsMessage(c.lps.value.value)))
            && (c.airspeed.IfFresh(nowMs, 30).Some? <==> Newest(steps, 0x109, nowMs, 30).Some?)
            && (c.airspeed.IfFresh(nowMs, 30).Some? ==>
                  Newest(steps, 0x109, nowMs, 30) == Some(AirspeedMessage(c.airspeed.value.value)))
  {
    CacheHoldsLastAccepted(steps, 0x100);
    CacheHoldsLastAccepted(steps, 0x101);
    CacheHoldsLastAccepted(steps, 0x102);
    CacheHoldsLastAccepted(steps, 0x104);
    CacheHoldsLastAccepted(steps, 0x107);
    CacheHoldsLastAccepted(steps, 0x108);
    CacheHoldsLastAccepted(steps, 0x109);
    hide PeriodicPacket.Run, LastAccepted;
  }

  /** The frames that carry air data. */
  predicate HasAirData(p: Payload.Packet) {
    p.CommandReceive? || p.Flight? || p.Descent?
  }

  // ---- Power readings, which the recovery power task refreshes and clears too

  datatype PowerReading = PowerReading(value: PowerTime, at: u64)

  function LastPower(steps: seq<PeriodicPacket.Step>): Option<PowerReading> {
    if steps == [] then None
    else
      var before := steps[..|steps| - 1];
      match steps[|steps| - 1]
      case RefreshPower(snapshot, at) => Some(PowerReading(snapshot, at))
      case ClearPower => None
      case FrameReceived(id, data, at) =>
        var decoded := DecodeStandard(id, data);
        if decoded.Ok? && decoded.value.PowerTimeMessage? then Some(PowerReading(decoded.value.power, at))
        else LastPower(before)
      case _ => LastPower(before)
  }

  function CachedPower(c: Cache): Option<PowerReading> {
    if c.powerTime.value.Some? then Some(PowerReading(c.powerTime.value.value, c.powerTime.receivedAtMs)) else None
  }

  lemma {:induction false} CacheHoldsLastPower(steps: seq<PeriodicPacket.Step>)
    ensures CachedPower(PeriodicPacket.Run(steps)) == LastPower(steps)
  {
    if steps != [] {
      CacheHoldsLastPower(steps[..|steps| - 1]);
      hide DecodeStandard, Latched;
    }
  }

  function NewestPower(steps: seq<PeriodicPacket.Step>, nowMs: u64): Option<PowerTime> {
    var last := LastPower(steps);
    if last.Some? && nowMs >= last.value.at && nowMs - last.value.at <= 300 then Some(last.value.value) else None
  }

  lemma FreshPowerIsNewest(steps: seq<PeriodicPacket.Step>, env: Conditions)
    ensures PeriodicPacket.Run(steps).powerTime.IfFresh(env.nowMs, FRESHNESS_10_HZ_MS) == NewestPower(steps, env.nowMs)
    ensures FreshPower(PeriodicPacket.Run(steps), env) == Or(NewestPower(steps, env.nowMs), NO_POWER)
  {
    CacheHoldsLastPower(steps);
    hide PeriodicPacket.Run, LastPower;
  }

  predicate IsLps(p: Payload.Packet, newest: Option<RxMessage>)
    requires HasAirData(p)
  {
    if newest.Some? then newest.value.LpsMessage? && p.pressure == newest.value.lps.pressure
                         && p.temperature == newest.value.lps.temperature
    else p.pressure == 2039 && p.temperature == 247
  }

  predicate IsKinematics(p: Payload.Packet, newest: Option<RxMessage>)
    requires p.Flight?
  {
    if newest.Some? then
      newest.value.KinematicsMessage? && p.roll == newest.value.kinematics.roll
      && p.rollRate == newest.value.kinematics.rollRate && p.finAngle == newest.value.kinematics.finAngle
      && p.finRate == newest.value.kinematics.finRate
    else p.roll == 0x8004 && p.rollRate == 0x8004 && p.finAngle == 249 && p.finRate == 0x8002
  }

  predicate IsTilt(p: Payload.Packet, newest: Option<RxMessage>)
    requires p.CommandReceive? || p.Flight?
  {
    if newest.Some? then newest.value.AttitudeTiltMessage? && p.tiltMagnitude == newest.value.tilt.magnitude
                         && p.tiltDirection == newest.value.tilt.direction
    else p.tiltMagnitude == 123 && p.tiltDirection == 0
  }

  predicate IsControl(p: Payload.Packet, newest: Option<RxMessage>)
    requires p.Flight?
  {
    if newest.Some? then newest.value.ControlMessage? && p.requestedTorque == newest.value.control.requestedTorque
                         && p.flightElapsed == newest.value.control.elapsed
    else p.requestedTorque == 0x800 && p.flightElapsed == 0xfa
  }

  predicate IsAirspeed(p: Payload.Packet, newest: Option<RxMessage>)
    requires p.CommandReceive? || p.Flight?
  {
    if newest.Some? then newest.value.AirspeedMessage? && p.airspeed == newest.value.airspeed.airspeed
    else p.airspeed == 252
  }

  /** The header names the flight phase of the newest status. */
  predicate IsPhase(p: Payload.Packet, newest: Option<RxMessage>)
    requires p.Flight?
  {
    newest.Some? && newest.value.MissionStatusMessage? &&
    match newest.value.mission.state
    case LiftoffDetection => p.header == Payload.LiftoffDetectionHeader
    case EngineBurn => p.header == Payload.EngineBurnHeader
    case Control => p.header == Payload.ControlHeader
    case _ => false
  }

  /** The frame that a slot sends after these steps. */
  predicate Sends(
    steps: seq<PeriodicPacket.Step>, env: Conditions, preferControlRoll: bool, eventOnly: bool, packet: Payload.Packet,
    frame: seq<u8>)
  {
    var plan := Plan(PeriodicPacket.Run(steps), env, preferControlRoll, eventOnly);
    plan.Some? && plan.value.packet == packet && Payload.Encode(packet) == Ok(frame)
  }

  /** The plan is a flight packet built from the fresh entries of the cache. */
  lemma FlightPlanned(c: Cache, env: Conditions, preferControlRoll: bool, eventOnly: bool)
    requires var plan := Plan(c, env, preferControlRoll, eventOnly); plan.Some? && plan.value.packet.Flight?
    ensures FreshMission(c, env).Some? && IsFlight(FreshMission(c, env).value.state)
    ensures Plan(c, env, preferControlRoll, eventOnly).value.packet == FlightPacket(c, env, FreshMission(c, env).value)
  {
    hide FlightPacket, CommandReceivePacket, DescentPacket, FallbackPacket, BeaconPacket;
    NotFlight(c, env);
  }

  lemma NotFlight(c: Cache, env: Conditions)
    ensures DescentPacket(c, env).Descent? && FallbackPacket(c, env).Fallback? && BeaconPacket(c, env).RecoveryBeacon?
    ensures forall mission :: CommandReceivePacket(c, env, mission).CommandReceive?
  {
    hide CommandReceiveStatus, FallbackFlags, Word;
  }

  /** Each bit of the status word is the newest status's own, but for the link health and the events. */
  predicate IsFlightStatus(p: Payload.Packet, env: Conditions, newest: Option<RxMessage>, latched: bv16)
    requires p.Flight?
  {
    && newest.Some? && newest.value.MissionStatusMessage?
    && forall i | 0 <= i < 16 :: Bit(p.flightStatus, i) <==> FlightBit(i, newest.value.mission.status, env, latched)
  }

  /** A flight packet shows the newest fresh reading of each kind, or the code for a missing one. */
  predicate ShowsFlight(p: Payload.Packet, steps: seq<PeriodicPacket.Step>, env: Conditions)
    requires p.Flight?
  {
    && IsPhase(p, Newest(steps, 0x102, env.nowMs, 300))
    && IsFlightStatus(p, env, Newest(steps, 0x102, env.nowMs, 300), PeriodicPacket.Run(steps).latch.flags)
    && IsKinematics(p, Newest(steps, 0x100, env.nowMs, 30))
    && IsControl(p, Newest(steps, 0x101, env.nowMs, 30))
    && IsTilt(p, Newest(steps, 0x107, env.nowMs, 300))
    && IsLps(p, Newest(steps, 0x108, env.nowMs, 120))
    && IsAirspeed(p, Newest(steps, 0x109, env.nowMs, 30))
    && p.east == env.east && p.north == env.north && p.height == env.height
  }

  lemma FlightPacketStatus(steps: seq<PeriodicPacket.Step>, env: Conditions, mission: MissionStatus)
    requires FreshMission(PeriodicPacket.Run(steps), env) == Some(mission) && IsFlight(mission.state)
    ensures var c := PeriodicPacket.Run(steps);
            IsFlightStatus(FlightPacket(c, env, mission), env, Newest(steps, 0x102, env.nowMs, 300), c.latch.flags)
  {
    var c := PeriodicPacket.Run(steps);
    FreshIsNewest(steps, env.nowMs);
    hide PeriodicPacket.Run, Newest, FlightBit, Word, Bit, FlightHeader;
    hide FreshKinematics, FreshTilt, FreshLps, FreshAirspeed, FreshControl;
    forall i: nat | i < 16
      ensures Bit(Word(FlightWord(c, env, mission)), i) <==> FlightBit(i, mission.status, env, c.latch.flags)
    {
      FlightStatusBit(mission.status, env, c.latch.flags, i);
    }
    hide FlightWord;
  }

  lemma FlightPacketShows(steps: seq<PeriodicPacket.Step>, env: Conditions, mission: MissionStatus)
    requires FreshMission(PeriodicPacket.Run(steps), env) == Some(mission) && IsFlight(mission.state)
    ensures ShowsFlight(FlightPacket(PeriodicPacket.Run(steps), env, mission), steps, env)
  {
    FreshIsNewest(steps, env.nowMs);
    FlightPacketStatus(steps, env, mission);
    hide PeriodicPacket.Run, Newest, FlightWord, Word, IsFlightStatus;
  }

  /** The ground decodes the newest fresh reading of each kind from every flight frame. */
  lemma FlightFrameShowsNewest(
    steps: seq<PeriodicPacket.Step>, env: Conditions, preferControlRoll: bool, eventOnly: bool, packet: Payload.Packet,
    frame: seq<u8>)
    ensures packet.Flight? && Sends(steps, env, preferControlRoll, eventOnly, packet, frame) ==>
              Payload.Decode(frame) == Some(packet) && ShowsFlight(packet, steps, env)
  {
    if packet.Flight? && Sends(steps, env, preferControlRoll, eventOnly, packet, frame) {
      var c := PeriodicPacket.Run(steps);
      Payload.EncodingIsLossless(packet, frame);
      FlightPlanned(c, env, preferControlRoll, eventOnly);
      hide Payload.Encode, Payload.Decode, PeriodicPacket.Run, Plan, FlightPacket, ShowsFlight, IsFlight, FreshMission;
      FlightPacketShows(steps, env, FreshMission(c, env).value);
    }
  }

  /** Modes and the parachute angle of the newest status, and roll and fin angle of the newest kinematics. */
  predicate IsReadiness(p: Payload.Packet, status: Option<RxMessage>, kinematics: Option<RxMessage>)
    requires p.CommandReceive?
  {
    && status.Some? && status.value.MissionStatusMessage? && status.value.mission.state == CommandReceive
    && p.finMode == RawFinMode(status.value.mission.finMode) && p.paraMode == RawParaMode(status.value.mission.paraMode)
    && p.paraAngle == status.value.mission.paraAngle
    && (if kinematics.Some? then
          kinematics.value.KinematicsMessage? && p.finAngle == kinematics.value.kinematics.finAngle
          && p.displayRoll == kinematics.value.kinematics.roll
        else p.finAngle == 249 && p.displayRoll == 0x8004)
  }

  /** The status word is that of the newest status, power reading and air data. */
  predicate IsReadinessStatus(
    p: Payload.Packet, env: Conditions, status: Option<RxMessage>, power: Option<PowerTime>, lps: Option<RxMessage>,
    airspeed: Option<RxMessage>)
    requires p.CommandReceive?
  {
    && status.Some? && status.value.MissionStatusMessage?
    && var lpsFresh := lps.Some? && lps.value.LpsMessage? && lps.value.lps.pressure <= 2031
                       && lps.value.lps.temperature <= 200;
       var airspeedFresh := airspeed.Some? && airspeed.value.AirspeedMessage?
                            && airspeed.value.airspeed.airspeed <= 245;
       p.status == CommandReceiveStatus(status.value.mission.status, status.value.mission.config, power, lpsFresh,
                                        airspeedFresh, env) as int
  }

  lemma CommandReceivePlanned(c: Cache, env: Conditions, preferControlRoll: bool, eventOnly: bool)
    requires var plan := Plan(c, env, preferControlRoll, eventOnly); plan.Some? && plan.value.packet.CommandReceive?
    ensures FreshMission(c, env).Some? && FreshMission(c, env).value.state == CommandReceive
    ensures Plan(c, env, preferControlRoll, eventOnly).value.packet ==
            CommandReceivePacket(c, env, FreshMission(c, env).value)
  {
    hide CommandReceivePacket, DescentPacket, FallbackPacket, BeaconPacket, FlightWord;
    NotFlight(c, env);
  }

  predicate IsVoltage(logic: u8, motor: u8, power: Option<PowerTime>) {
    if power.Some? then logic == power.value.logicVoltage && motor == power.value.motorVoltage
    else logic == 253 && motor == 253
  }

  /** A command-receive packet shows the newest fresh readings in the same way. */
  predicate ShowsReadiness(p: Payload.Packet, steps: seq<PeriodicPacket.Step>, env: Conditions)
    requires p.CommandReceive?
  {
    && IsReadiness(p, Newest(steps, 0x102, env.nowMs, 300), Newest(steps, 0x100, env.nowMs, 30))
    && IsReadinessStatus(p, env, Newest(steps, 0x102, env.nowMs, 300), NewestPower(steps, env.nowMs),
                         Newest(steps, 0x108, env.nowMs, 120), Newest(steps, 0x109, env.nowMs, 30))
    && IsVoltage(p.logicVoltage, p.motorVoltage, NewestPower(steps, env.nowMs))
    && IsTilt(p, Newest(steps, 0x107, env.nowMs, 300))
    && IsLps(p, Newest(steps, 0x108, env.nowMs, 120))
    && IsAirspeed(p, Newest(steps, 0x109, env.nowMs, 30))
    && p.east == env.east && p.north == env.north && p.height == env.height
  }

  lemma CommandReceivePacketShows(steps: seq<PeriodicPacket.Step>, env: Conditions, mission: MissionStatus)
    requires FreshMission(PeriodicPacket.Run(steps), env) == Some(mission) && mission.state == CommandReceive
    ensures ShowsReadiness(CommandReceivePacket(PeriodicPacket.Run(steps), env, mission), steps, env)
  {
    FreshIsNewest(steps, env.nowMs);
    FreshPowerIsNewest(steps, env);
    hide PeriodicPacket.Run, Newest, NewestPower, FreshPower, CommandReceiveStatus;
  }

  /** The same for the frame sent while the board waits for commands. */
  lemma CommandReceiveFrameShowsNewest(
    steps: seq<PeriodicPacket.Step>, env: Conditions, preferControlRoll: bool, eventOnly: bool, packet: Payload.Packet,
    frame: seq<u8>)
    ensures packet.CommandReceive? && Sends(steps, env, preferControlRoll, eventOnly, packet, frame) ==>
              Payload.Decode(frame) == Some(packet) && ShowsReadiness(packet, steps, env)
  {
    if packet.CommandReceive? && Sends(steps, env, preferControlRoll, eventOnly, packet, frame) {
      var c := PeriodicPacket.Run(steps);
      Payload.EncodingIsLossless(packet, frame);
      CommandReceivePlanned(c, env, preferControlRoll, eventOnly);
      hide Payload.Encode, Payload.Decode, PeriodicPacket.Run, Plan, CommandReceivePacket, ShowsReadiness, FreshMission;
      CommandReceivePacketShows(steps, env, FreshMission(c, env).value);
    }
  }

  predicate IsDescentCore(p: Payload.Packet, newest: Option<RxMessage>)
    requires p.Descent?
  {
    if newest.Some? then newest.value.DescentCoreMessage? && p.paraAngle == newest.value.descent.paraAngle
                         && p.descentStatus == LowFive(newest.value.descent.status)
    else p.paraAngle == 247 && p.descentStatus == 0
  }

  lemma DescentPlanned(c: Cache, env: Conditions, preferControlRoll: bool, eventOnly: bool)
    requires var plan := Plan(c, env, preferControlRoll, eventOnly); plan.Some? && plan.value.packet.Descent?
    ensures Plan(c, env, preferControlRoll, eventOnly).value.packet == DescentPacket(c, env)
  {
    hide CommandReceivePacket, FallbackPacket, BeaconPacket, FlightWord, Word;
    NotFlight(c, env);
  }

  lemma NoLowBits()
    ensures LowFive(0) == 0
  {
  }

  /** And for the descent frame: only the five lowest status bits are passed on. */
  lemma DescentFrameShowsNewest(
    steps: seq<PeriodicPacket.Step>, env: Conditions, preferControlRoll: bool, eventOnly: bool, packet: Payload.Packet,
    frame: seq<u8>)
    ensures packet.Descent? && Sends(steps, env, preferControlRoll, eventOnly, packet, frame) ==>
              && Payload.Decode(frame) == Some(packet)
              && IsLps(packet, Newest(steps, 0x108, env.nowMs, 120))
              && IsDescentCore(packet, Newest(steps, 0x104, env.nowMs, 30))
              && packet.elapsed == (match NewestPower(steps, env.nowMs)
                                    case Some(power) => power.descentElapsed
                                    case None => 0xfffa)
              && packet.east == env.east && packet.north == env.north && packet.height == env.height
  {
    if packet.Descent? && Sends(steps, env, preferControlRoll, eventOnly, packet, frame) {
      hide LowFive, Payload.Encode, Payload.Decode, PeriodicPacket.Run, Newest, Plan, FreshPower;
      var c := PeriodicPacket.Run(steps);
      DescentPlanned(c, env, preferControlRoll, eventOnly);
      Payload.EncodingIsLossless(packet, frame);
      FreshIsNewest(steps, env.nowMs);
      FreshPowerIsNewest(steps, env);
      hide NewestPower;
      NoLowBits();
    }
  }

  lemma BeaconPlanned(c: Cache, env: Conditions, preferControlRoll: bool, eventOnly: bool)
    requires var plan := Plan(c, env, preferControlRoll, eventOnly); plan.Some? && plan.value.packet.RecoveryBeacon?
    ensures Plan(c, env, preferControlRoll, eventOnly).value.packet == BeaconPacket(c, env)
  {
    hide CommandReceivePacket, FallbackPacket, FlightWord, Word;
    NotFlight(c, env);
  }

  /** The recovery beacon shows the newest power reading. */
  lemma BeaconFrameShowsNewest(
    steps: seq<PeriodicPacket.Step>, env: Conditions, preferControlRoll: bool, eventOnly: bool, packet: Payload.Packet,
    frame: seq<u8>)
    ensures packet.RecoveryBeacon? && Sends(steps, env, preferControlRoll, eventOnly, packet, frame) ==>
              && Payload.Decode(frame) == Some(packet)
              && IsVoltage(packet.logicVoltage, packet.motorVoltage, NewestPower(steps, env.nowMs))
              && packet.elapsed == (match NewestPower(steps, env.nowMs)
                                    case Some(power) => power.recoveryElapsed
                                    case None => 0xfffa)
              && packet.east == env.east && packet.north == env.north && packet.height == env.height
  {
    if packet.RecoveryBeacon? && Sends(steps, env, preferControlRoll, eventOnly, packet, frame) {
      var c := PeriodicPacket.Run(steps);
      hide Payload.Encode, Payload.Decode, PeriodicPacket.Run, NewestPower, Plan, FreshPower;
      BeaconPlanned(c, env, preferControlRoll, eventOnly);
      Payload.EncodingIsLossless(packet, frame);
      FreshPowerIsNewest(steps, env);
    }
  }

  // ---- Control-roll frames

  /** The newest status names a flight phase and a control-roll reading is fresh. */
  predicate InCycle(steps: seq<PeriodicPacket.Step>, env: Conditions) {
    var status := Newest(steps, 0x102, env.nowMs, 300);
    && status.Some? && status.value.MissionStatusMessage?
    && status.value.mission.state in {LiftoffDetection, EngineBurn, Control}
    && Newest(steps, 0x10a, env.nowMs, 300).Some?
  }

  /** A control-roll frame is built exactly when it is wanted during the cycle, and a packet says that the
      cycle is available exactly during the cycle, but for the recovery beacon. */
  lemma CycleFollowsNewest(steps: seq<PeriodicPacket.Step>, env: Conditions, preferControlRoll: bool, eventOnly: bool)
    ensures var plan := Plan(PeriodicPacket.Run(steps), env, preferControlRoll, eventOnly);
            && (plan.None? <==> eventOnly && !(preferControlRoll && InCycle(steps, env)))
            && (plan.Some? ==>
                  && (plan.value.isControlRoll <==> preferControlRoll && InCycle(steps, env))
                  && (plan.value.isControlRoll <==> plan.value.packet.ControlRoll?)
                  && (plan.value.cycleAvailable <==>
                        InCycle(steps, env) && (plan.value.isControlRoll || !env.recoveryBeacon)))
  {
    var c := PeriodicPacket.Run(steps);
    FreshIsNewest(steps, env.nowMs);
    FreshRollIsNewest(steps, env);
    NotFlight(c, env);
    hide PeriodicPacket.Run, Newest, FreshControlRoll, Carried, FlightWord;
    hide CommandReceivePacket, FallbackPacket, BeaconPacket, DescentPacket;
  }

  predicate IsRoll(p: Payload.Packet, newest: Option<RxMessage>)
    requires p.ControlRoll?
  {
    && newest.Some? && newest.value.ControlRollMessage?
    && p.reference == newest.value.roll.reference && p.deviation == newest.value.roll.deviation
    && p.flags == newest.value.roll.flags && p.captureEventSequence == newest.value.roll.captureEventSequence
  }

  lemma RollPlanned(c: Cache, env: Conditions, preferControlRoll: bool, eventOnly: bool)
    requires var plan := Plan(c, env, preferControlRoll, eventOnly); plan.Some? && plan.value.packet.ControlRoll?
    ensures FreshControlRoll(c, env).Some?
    ensures Plan(c, env, preferControlRoll, eventOnly).value.packet == ControlRollPacket(FreshControlRoll(c, env).value)
  {
    hide CommandReceivePacket, FallbackPacket, BeaconPacket, DescentPacket, FlightWord, Word;
    NotFlight(c, env);
  }

  lemma RollShows(steps: seq<PeriodicPacket.Step>, env: Conditions)
    requires FreshControlRoll(PeriodicPacket.Run(steps), env).Some?
    ensures IsRoll(ControlRollPacket(FreshControlRoll(PeriodicPacket.Run(steps), env).value),
                   Newest(steps, 0x10a, env.nowMs, 300))
  {
    CacheHoldsLastAccepted(steps, 0x10a);
    hide PeriodicPacket.Run, LastAccepted;
  }

  /** The ground reads the newest control-roll reading from every control-roll frame. */
  lemma ControlRollFrameShowsNewest(
    steps: seq<PeriodicPacket.Step>, env: Conditions, preferControlRoll: bool, eventOnly: bool, packet: Payload.Packet,
    frame: seq<u8>)
    ensures packet.ControlRoll? && Sends(steps, env, preferControlRoll, eventOnly, packet, frame) ==>
              Payload.Decode(frame) == Some(packet) && IsRoll(packet, Newest(steps, 0x10a, env.nowMs, 300))
  {
    if packet.ControlRoll? && Sends(steps, env, preferControlRoll, eventOnly, packet, frame) {
      var c := PeriodicPacket.Run(steps);
      hide Payload.Encode, Payload.Decode, PeriodicPacket.Run, Newest, Plan, FreshControlRoll, IsRoll;
      RollPlanned(c, env, preferControlRoll, eventOnly);
      Payload.EncodingIsLossless(packet, frame);
      RollShows(steps, env);
    }
  }

  // ---- Fallback frames

  function At(r: Option<Reading>): Option<u64> {
    if r.Some? then Some(r.value.at) else None
  }

  /** When each kind of periodic message was last received. */
  function PeriodicTimes(steps: seq<PeriodicPacket.Step>): seq<Option<u64>> {
    var power := LastPower(steps);
    [At(LastAccepted(steps, 0x100)), At(LastAccepted(steps, 0x101)), At(LastAccepted(steps, 0x102)),
     if power.Some? then Some(power.value.at) else None,
     At(LastAccepted(steps, 0x104)), At(LastAccepted(steps, 0x107)), At(LastAccepted(steps, 0x108)),
     At(LastAccepted(steps, 0x109)), At(LastAccepted(steps, 0x10a))]
  }

  /** The latest of the times, if there is any. */
  predicate IsLatest(t: Option<u64>, times: seq<Option<u64>>) {
    match t
    case None => forall i | 0 <= i < |times| :: times[i].None?
    case Some(at) => t in times && forall i | 0 <= i < |times| && times[i].Some? :: times[i].value <= at
  }

  lemma LaterIsLatest(a: Option<u64>, b: Option<u64>, times: seq<Option<u64>>)
    requires IsLatest(b, times)
    ensures IsLatest(Later(a, b), [a] + times)
  {
    var all := [a] + times;
    assert all[0] == a;
    if b.Some? {
      var i :| 0 <= i < |times| && times[i] == b;
      assert all[i + 1] == b;
    }
    forall i | 0 <= i < |all| && all[i].Some?
      ensures Later(a, b).Some? && all[i].value <= Later(a, b).value
    {
      if i > 0 {
        assert all[i] == times[i - 1];
      }
    }
    if Later(a, b).None? {
      assert forall i | 0 <= i < |all| :: all[i].None?;
    }
  }

  lemma LatestOfNine(t: seq<Option<u64>>)
    requires |t| == 9
    ensures IsLatest(
              Later(t[0], Later(t[1], Later(t[2], Later(t[3], Later(t[4], Later(t[5], Later(t[6], Later(t[7], t[8])))))))),
              t)
  {
    hide Later, IsLatest;
    var k8 := t[8];
    var k7 := Later(t[7], k8);
    var k6 := Later(t[6], k7);
    var k5 := Later(t[5], k6);
    var k4 := Later(t[4], k5);
    var k3 := Later(t[3], k4);
    var k2 := Later(t[2], k3);
    var k1 := Later(t[1], k2);
    SingleIsLatest(k8);
    assert [t[8]] == t[8..];
    LaterIsLatest(t[7], k8, t[8..]);
    assert [t[7]] + t[8..] == t[7..];
    LaterIsLatest(t[6], k7, t[7..]);
    assert [t[6]] + t[7..] == t[6..];
    LaterIsLatest(t[5], k6, t[6..]);
    assert [t[5]] + t[6..] == t[5..];
    LaterIsLatest(t[4], k5, t[5..]);
    assert [t[4]] + t[5..] == t[4..];
    LaterIsLatest(t[3], k4, t[4..]);
    assert [t[3]] + t[4..] == t[3..];
    LaterIsLatest(t[2], k3, t[3..]);
    assert [t[2]] + t[3..] == t[2..];
    LaterIsLatest(t[1], k2, t[2..]);
    assert [t[1]] + t[2..] == t[1..];
    LaterIsLatest(t[0], k1, t[1..]);
    assert [t[0]] + t[1..] == t;
  }

  lemma SingleIsLatest(t: Option<u64>)
    ensures IsLatest(t, [t])
  {
    assert [t][0] == t;
  }

  /** The cache remembers when each kind was last received. */
  lemma ReceivedTimes(steps: seq<PeriodicPacket.Step>)
    ensures var c, t := PeriodicPacket.Run(steps), PeriodicTimes(steps);
            && c.kinematics.ReceivedAt() == t[0] && c.control.ReceivedAt() == t[1]
            && c.missionStatus.ReceivedAt() == t[2] && c.powerTime.ReceivedAt() == t[3]
            && c.descentCore.ReceivedAt() == t[4] && c.attitudeTilt.ReceivedAt() == t[5]
            && c.lps.ReceivedAt() == t[6] && c.airspeed.ReceivedAt() == t[7] && c.controlRoll.ReceivedAt() == t[8]
  {
    hide PeriodicPacket.Run, LastAccepted, LastPower;
    CacheHoldsLastAccepted(steps, 0x100);
    CacheHoldsLastAccepted(steps, 0x101);
    CacheHoldsLastAccepted(steps, 0x102);
    CacheHoldsLastAccepted(steps, 0x104);
    CacheHoldsLastAccepted(steps, 0x107);
    CacheHoldsLastAccepted(steps, 0x108);
    CacheHoldsLastAccepted(steps, 0x109);
    CacheHoldsLastAccepted(steps, 0x10a);
    CacheHoldsLastPower(steps);
  }

  lemma LatestPeriodic(steps: seq<PeriodicPacket.Step>)
    ensures IsLatest(LatestPeriodicAt(PeriodicPacket.Run(steps)), PeriodicTimes(steps))
  {
    ReceivedTimes(steps);
    hide PeriodicPacket.Run, PeriodicTimes, Later, IsLatest;
    FallbackTimes(steps);
    LatestOfNine(PeriodicTimes(steps));
  }

  lemma FallbackTimes(steps: seq<PeriodicPacket.Step>)
    ensures |PeriodicTimes(steps)| == 9
  {
  }

  /** The ages, the loss reason, the flags and the last known values of a fallback frame, told from the
      messages received; `any` is when the last periodic message came. */
  predicate ShowsFallback(p: Payload.Packet, steps: seq<PeriodicPacket.Step>, env: Conditions, any: Option<u64>)
    requires p.Fallback?
  {
    var status, power := LastAccepted(steps, 0x102), LastPower(steps);
    var powerAt := if power.Some? then Some(power.value.at) else None;
    && IsAge(p.missionStatusAge, env.nowMs, At(status)) && IsAge(p.anyMissionPeriodicAge, env.nowMs, any)
    && IsAge(p.powerTimeAge, env.nowMs, powerAt)
    && IsLossReason(p.primaryLossReason, env, At(status), any)
    && p.statusFlags < 0x8000
    && (forall i | 0 <= i < 15 :: Bit(p.statusFlags, i) <==> FallbackBit(i, env, At(status), any, power.Some?))
    && (if status.Some? then status.value.message.MissionStatusMessage?
                             && p.lastValidMissionState == RawState(status.value.message.mission.state)
        else p.lastValidMissionState == 0xff)
    && p.logicVoltage == (if power.Some? then power.value.value.logicVoltage else 253)
    && p.motorVoltage == (if power.Some? then power.value.value.motorVoltage else 253)
    && p.gnssState == GnssCode(env.gnss) && p.canHealth == env.canHealth && p.sequence == env.sequence
    && p.east == env.east && p.north == env.north && p.height == env.height
  }

  lemma FallbackPlanned(c: Cache, env: Conditions, preferControlRoll: bool, eventOnly: bool)
    requires var plan := Plan(c, env, preferControlRoll, eventOnly); plan.Some? && plan.value.packet.Fallback?
    ensures Plan(c, env, preferControlRoll, eventOnly).value.packet == FallbackPacket(c, env)
  {
    hide CommandReceivePacket, DescentPacket, BeaconPacket, FlightWord, Word;
    NotFlight(c, env);
  }

  lemma FallbackFlagsShown(steps: seq<PeriodicPacket.Step>, env: Conditions)
    ensures var c, power := PeriodicPacket.Run(steps), LastPower(steps);
            && Word(FallbackFlags(c, env)) < 0x8000
            && forall i | 0 <= i < 15 ::
                 Bit(Word(FallbackFlags(c, env)), i) <==>
                   FallbackBit(i, env, At(LastAccepted(steps, 0x102)), LatestPeriodicAt(c), power.Some?)
  {
    var c := PeriodicPacket.Run(steps);
    ReceivedTimes(steps);
    FallbackFlagsBound(c, env);
    hide PeriodicPacket.Run, LastAccepted, LastPower, LatestPeriodicAt, FallbackFlags, Word, Bit, FallbackBit;
    forall i: nat | i < 15
      ensures Bit(Word(FallbackFlags(c, env)), i) <==>
              FallbackBit(i, env, c.missionStatus.ReceivedAt(), LatestPeriodicAt(c), c.powerTime.value.Some?)
    {
      FallbackWordBit(c, env, i);
    }
  }

  lemma FallbackValues(steps: seq<PeriodicPacket.Step>, env: Conditions)
    ensures var p, any := FallbackPacket(PeriodicPacket.Run(steps), env), LatestPeriodicAt(PeriodicPacket.Run(steps));
            p.Fallback? && ShowsFallback(p, steps, env, any)
  {
    var c := PeriodicPacket.Run(steps);
    FallbackFlagsShown(steps, env);
    FallbackAges(steps, env);
    FallbackReadings(steps, env);
    hide PeriodicPacket.Run, LastAccepted, LastPower, LatestPeriodicAt, FallbackFlags, Word, Bit, FallbackBit;
    hide AgeTenths, IsAge, PrimaryLossReason, IsLossReason, RawState, GnssCode;
  }

  lemma FallbackAges(steps: seq<PeriodicPacket.Step>, env: Conditions)
    ensures var c, power := PeriodicPacket.Run(steps), LastPower(steps);
            var p, any := FallbackPacket(c, env), LatestPeriodicAt(c);
            var status := At(LastAccepted(steps, 0x102));
            && p.Fallback? && IsAge(p.missionStatusAge, env.nowMs, status)
            && IsAge(p.anyMissionPeriodicAge, env.nowMs, any)
            && IsAge(p.powerTimeAge, env.nowMs, if power.Some? then Some(power.value.at) else None)
            && IsLossReason(p.primaryLossReason, env, status, any)
  {
    var c := PeriodicPacket.Run(steps);
    ReceivedTimes(steps);
    hide PeriodicPacket.Run, LastAccepted, LastPower, LatestPeriodicAt, FallbackFlags, Word;
    hide AgeTenths, IsAge, PrimaryLossReason, IsLossReason, RawState, GnssCode;
    AgeIsTenths(env.nowMs, c.missionStatus.ReceivedAt());
    AgeIsTenths(env.nowMs, LatestPeriodicAt(c));
    AgeIsTenths(env.nowMs, c.powerTime.ReceivedAt());
    LossReasonHasItsCause(env, c.missionStatus.ReceivedAt(), LatestPeriodicAt(c));
  }

  lemma FallbackReadings(steps: seq<PeriodicPacket.Step>, env: Conditions)
    ensures var p, status, power := FallbackPacket(PeriodicPacket.Run(steps), env), LastAccepted(steps, 0x102),
                                    LastPower(steps);
            && p.Fallback?
            && (if status.Some? then status.value.message.MissionStatusMessage?
                                     && p.lastValidMissionState == RawState(status.value.message.mission.state)
                else p.lastValidMissionState == 0xff)
            && p.logicVoltage == (if power.Some? then power.value.value.logicVoltage else 253)
            && p.motorVoltage == (if power.Some? then power.value.value.motorVoltage else 253)
  {
    CacheHoldsLastAccepted(steps, 0x102);
    CacheHoldsLastPower(steps);
    hide PeriodicPacket.Run, LastAccepted, LastPower, LatestPeriodicAt, FallbackFlags, Word;
    hide AgeTenths, PrimaryLossReason, RawState, GnssCode;
  }

  /** The ground reads from every fallback frame how long ago the last messages came, why the mission link
      is considered lost, and the last known values. */
  lemma FallbackFrameShowsLoss(
    steps: seq<PeriodicPacket.Step>, env: Conditions, preferControlRoll: bool, eventOnly: bool, packet: Payload.Packet,
    frame: seq<u8>)
    returns (any: Option<u64>)
    ensures IsLatest(any, PeriodicTimes(steps))
    ensures packet.Fallback? && Sends(steps, env, preferControlRoll, eventOnly, packet, frame) ==>
              Payload.Decode(frame) == Some(packet) && ShowsFallback(packet, steps, env, any)
  {
    var c := PeriodicPacket.Run(steps);
    any := LatestPeriodicAt(c);
    LatestPeriodic(steps);
    hide Payload.Encode, Payload.Decode, PeriodicPacket.Run, Plan, FallbackPacket, ShowsFallback, IsLatest;
    hide LatestPeriodicAt, PeriodicTimes;
    if packet.Fallback? && Sends(steps, env, preferControlRoll, eventOnly, packet, frame) {
      Payload.EncodingIsLossless(packet, frame);
      FallbackPlanned(c, env, preferControlRoll, eventOnly);
      FallbackValues(steps, env);
    }
  }

  /** Which frame a periodic slot sends, told from the frames received alone. */
  function ExpectedHeader(steps: seq<PeriodicPacket.Step>, env: Conditions, preferControlRoll: bool)
    : Payload.PacketHeader
  {
    var status := Newest(steps, 0x102, env.nowMs, 300);
    var state := if status.Some? && status.value.MissionStatusMessage? then status.value.mission.state else Unknown;
    if preferControlRoll && IsFlight(state) && Newest(steps, 0x10a, env.nowMs, 300).Some? then Payload.ControlRollHeader
    else if env.recoveryBeacon then Payload.RecoveryBeaconHeader
    else if status.None? then Payload.FallbackHeader
    else
      match state
      case CommandReceive => Payload.CommandReceiveHeader
      case LiftoffDetection => Payload.LiftoffDetectionHeader
      case EngineBurn => Payload.EngineBurnHeader
      case Control => Payload.ControlHeader
      case _ => Payload.DescentHeader
  }

  lemma FreshRollIsNewest(steps: seq<PeriodicPacket.Step>, env: Conditions)
    ensures FreshControlRoll(PeriodicPacket.Run(steps), env).Some? <==> Newest(steps, 0x10a, env.nowMs, 300).Some?
  {
    CacheHoldsLastAccepted(steps, 0x10a);
    hide PeriodicPacket.Run, LastAccepted;
  }

  lemma PlannedHeader(c: Cache, env: Conditions, preferControlRoll: bool)
    requires PeriodicPacket.Sound(c)
    ensures var plan := Plan(c, env, preferControlRoll, false);
            var mission := FreshMission(c, env);
            var state := if mission.Some? then mission.value.state else Unknown;
            && plan.Some? && (mission.Some? ==> state != Unknown)
            && Payload.HeaderFor(plan.value.packet) ==
               if preferControlRoll && IsFlight(state) && FreshControlRoll(c, env).Some? then Payload.ControlRollHeader
               else if env.recoveryBeacon then Payload.RecoveryBeaconHeader
               else
                 match state
                 case Unknown => Payload.FallbackHeader
                 case CommandReceive => Payload.CommandReceiveHeader
                 case LiftoffDetection => Payload.LiftoffDetectionHeader
                 case EngineBurn => Payload.EngineBurnHeader
                 case Control => Payload.ControlHeader
                 case Descent => Payload.DescentHeader
  {
    hide CommandReceiveStatus, FallbackFlags, Word, FlightWord, FreshTilt, FreshLps, FreshKinematics;
  }

  lemma HeaderIsExpected(steps: seq<PeriodicPacket.Step>, env: Conditions, preferControlRoll: bool)
    ensures var plan := Plan(PeriodicPacket.Run(steps), env, preferControlRoll, false);
            plan.Some? && Payload.HeaderFor(plan.value.packet) == ExpectedHeader(steps, env, preferControlRoll)
  {
    RunSound(steps);
    PlannedHeader(PeriodicPacket.Run(steps), env, preferControlRoll);
    FreshIsNewest(steps, env.nowMs);
    FreshRollIsNewest(steps, env);
    hide Payload.HeaderFor, PeriodicPacket.Run, PeriodicPacket.Sound, Newest, Plan, FreshControlRoll;
  }

  /** The first application byte of every periodic frame follows from the frames received: the
      fallback frame exactly when no mission status is fresh. */
  lemma HeaderFollowsNewestStatus(steps: seq<PeriodicPacket.Step>, env: Conditions, preferControlRoll: bool)
    requires Plausible(env)
    ensures var frame := Payload.Encode(Plan(PeriodicPacket.Run(steps), env, preferControlRoll, false).value.packet);
            && frame.Ok? && |frame.value| > 3
            && frame.value[3] == Payload.Code(ExpectedHeader(steps, env, preferControlRoll))
  {
    EverySlotHasAFrame(steps, env, preferControlRoll);
    HeaderIsExpected(steps, env, preferControlRoll);
    hide Payload.Encode, Payload.Code, Payload.HeaderFor, PeriodicPacket.Run, Plan, ExpectedHeader;
    var packet := Plan(PeriodicPacket.Run(steps), env, preferControlRoll, false).value.packet;
    Payload.FrameIsClosed(packet, Payload.Encode(packet).value, 0);
  }
}
