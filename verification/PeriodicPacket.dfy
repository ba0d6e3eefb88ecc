/** The periodic packet (periodic_packet, src/tasks/lora_task_base.rs:519-773): whatever CAN frames
    filled the cache, the packet built from it can be encoded. */
module PeriodicPacket {
  import opened Prelude
  import opened Bits
  import opened CanProtocol
  import opened CanCache
  import opened EventLatch
  import Payload

  datatype GnssState =
    | Off | Starting | ReceiverDetected | ConfigurationFailed | ReceiverError | NoFix | ValidFix | InvalidSample
    | GnssStale

  /** gnss_state_code */
  function GnssCode(state: GnssState): u8 {
    match state
    case Off => 0
    case Starting => 1
    case ReceiverDetected => 2
    case ConfigurationFailed => 3
    case ReceiverError => 4
    case NoFix => 5
    case ValidFix => 6
    case InvalidSample => 7
    case GnssStale => 8
  }

  /** What the packet takes from outside the cache. */
  datatype Conditions = Conditions(
    nowMs: u64, gnss: GnssState, east: u16, north: u16, height: u16, sdError: bool, canError: bool,
    loggingRequested: bool, loggingActive: bool, unflushed: bool, recoveryBeacon: bool, statusInvalidAtMs: u32,
    sequence: u8, canHealth: u8)

  const GNSS_HEIGHT_MAX: u16 := 501

  /** The encoded height is at most 501 and the CAN health code at most 6. */
  predicate Plausible(env: Conditions) {
    env.height <= GNSS_HEIGHT_MAX && env.canHealth <= 6
  }

  datatype Planned = Planned(packet: Payload.Packet, transmittedEvents: bv16, isControlRoll: bool, cycleAvailable: bool)

  // ---- Fallback telemetry (lines 354-509)

  function AgeTenths(nowMs: u64, receivedAt: Option<u64>): u16 {
    if receivedAt.None? || nowMs < receivedAt.value then 0xffff
    else Min((nowMs - receivedAt.value) / 100, 0xfffe)
  }

  function Later(a: Option<u64>, b: Option<u64>): Option<u64> {
    if a.None? then b else if b.None? || a.value >= b.value then a else b
  }

  function LatestPeriodicAt(c: Cache): Option<u64> {
    Later(c.kinematics.ReceivedAt(), Later(c.control.ReceivedAt(), Later(c.missionStatus.ReceivedAt(),
      Later(c.powerTime.ReceivedAt(), Later(c.descentCore.ReceivedAt(), Later(c.attitudeTilt.ReceivedAt(),
        Later(c.lps.ReceivedAt(), Later(c.airspeed.ReceivedAt(), c.controlRoll.ReceivedAt()))))))))
  }

  predicate IsRecent(age: u16) {
    age != 0xffff && age < 10
  }

  function PrimaryLossReason(
    canHealth: u8, invalidIsLatest: bool, missionEver: bool, missionAge: u16, periodicEver: bool, periodicAge: u16): u8
  {
    if canHealth == 4 then 3
    else if canHealth == 5 then 4
    else if canHealth == 6 then 7
    else if invalidIsLatest then 5
    else if !missionEver then 0
    else if IsRecent(missionAge) then 7
    else if periodicEver && IsRecent(periodicAge) then 1
    else 2
  }

  function Bit16(raised: bool, bit: bv16): bv16 {
    if raised then bit else 0
  }

  function FallbackFlags(c: Cache, env: Conditions): bv16 {
    var missionAge := AgeTenths(env.nowMs, c.missionStatus.ReceivedAt());
    var periodicAge := AgeTenths(env.nowMs, LatestPeriodicAt(c));
    Bit16(c.missionStatus.value.Some?, 0x0001)
    | Bit16(LatestPeriodicAt(c).Some?, 0x0002)
    | Bit16(IsRecent(missionAge), 0x0004)
    | Bit16(IsRecent(periodicAge), 0x0008)
    | Bit16(!env.sdError, 0x0010)
    | Bit16(env.loggingRequested, 0x0020)
    | Bit16(env.loggingActive, 0x0040)
    | Bit16(env.unflushed, 0x0080)
    | Bit16(env.gnss != Off, 0x0100)
    | Bit16(env.gnss == ValidFix, 0x0200)
    | Bit16(env.gnss == GnssStale, 0x0400)
    | Bit16(c.powerTime.value.Some?, 0x0800)
    | Bit16(c.missionStatus.value.Some?, 0x1000)
    | Bit16(1 <= env.canHealth <= 3, 0x2000)
    | Bit16(2 <= env.canHealth <= 6, 0x4000)
  }

  function FallbackPacket(c: Cache, env: Conditions): Payload.Packet {
    hide FallbackFlags;
    var missionAt := c.missionStatus.ReceivedAt();
    var periodicAt := LatestPeriodicAt(c);
    var missionAge := AgeTenths(env.nowMs, missionAt);
    var periodicAge := AgeTenths(env.nowMs, periodicAt);
    var invalidIsLatest := env.statusInvalidAtMs != 0 && (missionAt.None? || env.statusInvalidAtMs > missionAt.value);
    Payload.Fallback(
      env.sequence,
      PrimaryLossReason(env.canHealth, invalidIsLatest, missionAt.Some?, missionAge, periodicAt.Some?, periodicAge),
      Word(FallbackFlags(c, env)),
      if c.missionStatus.value.Some? then RawState(c.missionStatus.value.value.state) else 0xff,
      GnssCode(env.gnss), missionAge, periodicAge, AgeTenths(env.nowMs, c.powerTime.ReceivedAt()),
      env.east, env.north, env.height,
      if c.powerTime.value.Some? then c.powerTime.value.value.logicVoltage else 253,
      if c.powerTime.value.Some? then c.powerTime.value.value.motorVoltage else 253,
      env.canHealth)
  }

  // ---- Status words (lines 706-773)

  function Bit32(raised: bool, bit: bv32): bv32 {
    if raised then bit else 0
  }

  /** inject_link_health */
  function InjectLinkHealth(status: bv16, env: Conditions): bv16 {
    var sd := if !env.sdError then status | 0x0080 else status & !0x0080;
    if !env.canError then sd | 0x0100 else sd & !0x0100
  }

  /** map_command_receive_status, and the link health its caller adds */
  function CommandReceiveStatus(
    status: u16, config: u8, power: Option<PowerTime>, lpsFresh: bool, airspeedFresh: bool, env: Conditions): bv32
  {
    var s, g := status as bv16, config as bv8;
    Bit32(s & 0x0004 != 0, 0x0000_0001)
    | Bit32(lpsFresh, 0x0000_0002)
    | Bit32(airspeedFresh, 0x0000_0004)
    | Bit32(s & 0x0400 == 0, 0x0000_0008)
    | Bit32(s & 0x0008 != 0, 0x0000_0010)
    | Bit32(g & 0x01 != 0, 0x0000_0020)
    | Bit32(g & 0x02 != 0, 0x0000_0040)
    | Bit32(g & 0x04 != 0, 0x0000_0080)
    | PowerStatus(power)
    | Bit32(!env.sdError, 0x0000_0800)
    | Bit32(!env.canError, 0x0000_1000)
    | Bit32(g & 0x08 != 0, 0x0001_0000)
    | Bit32(g & 0x10 != 0, 0x0004_0000)
    | Bit32(g & 0x20 != 0, 0x0020_0000)
    | Bit32(g & 0x40 != 0, 0x0040_0000)
  }

  function PowerStatus(power: Option<PowerTime>): bv32 {
    match power
    case None => 0
    case Some(p) =>
      Bit32(p.logicVoltage <= 240, 0x0000_0100) | Bit32(p.motorVoltage <= 240, 0x0000_0200)
      | Bit32(!MaskClear(p.flags, 0x08), 0x0000_0400) | Bit32(!MaskClear(p.flags, 0x01), 0x0000_2000)
  }

  // ---- The packet (lines 519-704)

  function Or<T>(o: Option<T>, default: T): T {
    if o.Some? then o.value else default
  }

  function FreshMission(c: Cache, env: Conditions): Option<MissionStatus> {
    c.missionStatus.IfFresh(env.nowMs, FRESHNESS_10_HZ_MS)
  }

  predicate IsFlight(state: MissionState) {
    state == LiftoffDetection || state == EngineBurn || state == Control
  }

  const NO_KINEMATICS := Kinematics(0, 0x8004, 0x8004, 249, 0x8002)
  const NO_CONTROL := ControlTelemetry(0, 0x800, 0xfa)
  const NO_TILT := AttitudeTilt(0, 123, 0)
  const NO_LPS := Lps(0, 2039, 247)
  const NO_AIRSPEED := Airspeed(0, 252)
  const NO_POWER := PowerTime(0, 253, 253, 0xfffa, 0xfffa, 0)
  const NO_DESCENT := DescentCore(0, 0, 247)

  function FreshKinematics(c: Cache, env: Conditions): Kinematics {
    Or(c.kinematics.IfFresh(env.nowMs, FRESHNESS_100_HZ_MS), NO_KINEMATICS)
  }

  function FreshControl(c: Cache, env: Conditions): ControlTelemetry {
    Or(c.control.IfFresh(env.nowMs, FRESHNESS_100_HZ_MS), NO_CONTROL)
  }

  function FreshTilt(c: Cache, env: Conditions): AttitudeTilt {
    Or(c.attitudeTilt.IfFresh(env.nowMs, FRESHNESS_10_HZ_MS), NO_TILT)
  }

  function FreshLps(c: Cache, env: Conditions): Lps {
    Or(c.lps.IfFresh(env.nowMs, FRESHNESS_25_HZ_MS), NO_LPS)
  }

  function FreshAirspeed(c: Cache, env: Conditions): Airspeed {
    Or(c.airspeed.IfFresh(env.nowMs, FRESHNESS_100_HZ_MS), NO_AIRSPEED)
  }

  function FreshPower(c: Cache, env: Conditions): PowerTime {
    Or(c.powerTime.IfFresh(env.nowMs, FRESHNESS_10_HZ_MS), NO_POWER)
  }

  function FreshDescent(c: Cache, env: Conditions): DescentCore {
    Or(c.descentCore.IfFresh(env.nowMs, FRESHNESS_100_HZ_MS), NO_DESCENT)
  }

  function FreshControlRoll(c: Cache, env: Conditions): Option<ControlRoll> {
    c.controlRoll.IfFresh(env.nowMs, FRESHNESS_10_HZ_MS)
  }

  function CommandReceivePacket(c: Cache, env: Conditions, mission: MissionStatus): Payload.Packet {
    hide CommandReceiveStatus;
    var k, t, l, a, p := FreshKinematics(c, env), FreshTilt(c, env), FreshLps(c, env), FreshAirspeed(c, env),
                         FreshPower(c, env);
    var lpsFresh := c.lps.IfFresh(env.nowMs, FRESHNESS_25_HZ_MS).Some? && l.pressure <= 2031 && l.temperature <= 200;
    var airspeedFresh := c.airspeed.IfFresh(env.nowMs, FRESHNESS_100_HZ_MS).Some? && a.airspeed <= 245;
    Payload.CommandReceive(
      CommandReceiveStatus(mission.status, mission.config, c.powerTime.IfFresh(env.nowMs, FRESHNESS_10_HZ_MS),
                           lpsFresh, airspeedFresh, env) as int,
      0xff, t.magnitude, t.direction, RawFinMode(mission.finMode), RawParaMode(mission.paraMode), k.finAngle,
      mission.paraAngle, l.pressure, l.temperature, a.airspeed, p.logicVoltage, p.motorVoltage, env.east, env.north,
      env.height, k.roll)
  }

  function FlightHeader(state: MissionState): Payload.PacketHeader {
    match state
    case LiftoffDetection => Payload.LiftoffDetectionHeader
    case EngineBurn => Payload.EngineBurnHeader
    case _ => Payload.ControlHeader
  }

  /** The mission's own status bits, with the link health. */
  function FlightStatus(mission: MissionStatus, env: Conditions): bv16 {
    InjectLinkHealth(Flags(mission.status), env)
  }

  /** The status word a flight packet carries. */
  function FlightWord(c: Cache, env: Conditions, mission: MissionStatus): bv16 {
    WithEvents(FlightStatus(mission, env), c.latch.flags)
  }

  function FlightPacket(c: Cache, env: Conditions, mission: MissionStatus): Payload.Packet {
    var k, t, l, a, x := FreshKinematics(c, env), FreshTilt(c, env), FreshLps(c, env), FreshAirspeed(c, env),
                         FreshControl(c, env);
    Payload.Flight(
      FlightHeader(mission.state),
      Word(FlightWord(c, env, mission)),
      k.roll, k.rollRate, t.magnitude, t.direction, k.finAngle, k.finRate, l.pressure, l.temperature, a.airspeed,
      x.requestedTorque, x.elapsed, env.east, env.north, env.height)
  }

  /** `status & 0x001f` */
  function LowFive(status: u16): u16 {
    status % 0x20
  }

  function DescentPacket(c: Cache, env: Conditions): Payload.Packet {
    var d, l, p := FreshDescent(c, env), FreshLps(c, env), FreshPower(c, env);
    Payload.Descent(LowFive(d.status), l.pressure, l.temperature, d.paraAngle, p.descentElapsed,
                    env.east, env.north, env.height)
  }

  function BeaconPacket(c: Cache, env: Conditions): Payload.Packet {
    var p := FreshPower(c, env);
    Payload.RecoveryBeacon(p.logicVoltage, p.motorVoltage, env.east, env.north, env.height, p.recoveryElapsed)
  }

  function ControlRollPacket(r: ControlRoll): Payload.Packet {
    Payload.ControlRoll(r.reference, r.deviation, r.flags, r.captureEventSequence)
  }

  /** The packet periodic_packet hands to the encoder; none only for an event without control roll. */
  function Plan(c: Cache, env: Conditions, preferControlRoll: bool, eventOnly: bool): Option<Planned> {
    var mission := FreshMission(c, env);
    var state := if mission.Some? then mission.value.state else Unknown;
    var roll := FreshControlRoll(c, env);
    var cycleAvailable := IsFlight(state) && roll.Some?;
    if preferControlRoll && cycleAvailable then Some(Planned(ControlRollPacket(roll.value), 0, true, true))
    else if eventOnly then None
    else if env.recoveryBeacon then Some(Planned(BeaconPacket(c, env), 0, false, false))
    else if state == Unknown then Some(Planned(FallbackPacket(c, env), 0, false, false))
    else
      match state
      case CommandReceive => Some(Planned(CommandReceivePacket(c, env, mission.value), 0, false, cycleAvailable))
      case Descent => Some(Planned(DescentPacket(c, env), 0, false, cycleAvailable))
      case _ =>
        Some(Planned(FlightPacket(c, env, mission.value), Carried(c.latch.flags), false, cycleAvailable))
  }

  // ---- Reachable caches

  datatype Step =
    | FrameReceived(id: u16, data: seq<u8>, at: u64)
    | RefreshPower(snapshot: PowerTime, at: u64)   // src/tasks/recovery_power_task.rs
    | ClearPower
    | ClearEvents(flags: bv16, revision: u32)

  function Apply(c: Cache, step: Step): Cache {
    match step
    case FrameReceived(id, data, at) =>
      var decoded := DecodeStandard(id, data);
      if decoded.Ok? then Updated(c, decoded.value, at) else c
    case RefreshPower(snapshot, at) => c.(powerTime := Received(snapshot, at))
    case ClearPower => c.(powerTime := Latest(None, 0))
    case ClearEvents(flags, revision) => c.(latch := Cleared(c.latch, flags, revision))
  }

  function Run(steps: seq<Step>): Cache {
    if steps == [] then EMPTY else Apply(Run(steps[..|steps| - 1]), steps[|steps| - 1])
  }

  /** What strict decoding guarantees of the values the packets copy into narrow fields. */
  predicate Sound(c: Cache) {
    && (c.attitudeTilt.value.Some? ==> WellFormed(AttitudeTiltMessage(c.attitudeTilt.value.value)))
    && (c.lps.value.Some? ==> WellFormed(LpsMessage(c.lps.value.value)))
    && (c.control.value.Some? ==> WellFormed(ControlMessage(c.control.value.value)))
    && (c.missionStatus.value.Some? ==> WellFormed(MissionStatusMessage(c.missionStatus.value.value)))
    && (c.controlRoll.value.Some? ==> WellFormed(ControlRollMessage(c.controlRoll.value.value)))
  }

  lemma UpdatedSound(c: Cache, m: RxMessage, at: u64)
    requires Sound(c) && WellFormed(m)
    ensures Sound(Updated(c, m, at))
  {
    hide Latched, MaskClear, RangeFlagsAgree;
  }

  lemma {:induction false} RunSound(steps: seq<Step>)
    ensures Sound(Run(steps))
  {
    if steps != [] {
      var before := steps[..|steps| - 1];
      RunSound(before);
      var c := Run(before);
      hide Updated, WellFormed, Run;
      match steps[|steps| - 1]
      case FrameReceived(id, data, at) =>
        var decoded := DecodeStandard(id, data);
        hide DecodeStandard, Sound;
        if decoded.Ok? {
          DecodingIsCanonical(id, data, decoded.value);
          UpdatedSound(c, decoded.value, at);
        }
      case _ =>
    }
  }

  // ---- The narrow fields

  lemma HighBits(v: u16)
    ensures MaskClear(v / 0x100, 0xf8) ==> v < 0x800
    ensures MaskClear(v / 0x100, 0xf0) ==> v < 0x1000
  {
    ByteBound(v / 0x100);
  }

  lemma ByteBound(b: u8)
    ensures MaskClear(b, 0xf8) ==> b < 8
    ensures MaskClear(b, 0xf0) ==> b < 16
  {
  }

  lemma FallbackFlagsBound(c: Cache, env: Conditions)
    ensures Word(FallbackFlags(c, env)) < 0x8000
  {
    FallbackFlagBits(c, env);
    hide FallbackFlags;
    NarrowWord(FallbackFlags(c, env));
  }

  lemma NarrowWord(bits: bv16)
    requires bits & 0x8000 == 0
    ensures Word(bits) < 0x8000
  {
    assert bits as nat == (bits & 0x7fff) as nat;
  }

  lemma CommandReceiveStatusBound(
    status: u16, config: u8, power: Option<PowerTime>, lpsFresh: bool, airspeedFresh: bool, env: Conditions)
    ensures CommandReceiveStatus(status, config, power, lpsFresh, airspeedFresh, env) as int < 0x100_0000
  {
    CommandReceiveStatusBits(status, config, power, lpsFresh, airspeedFresh, env);
    hide CommandReceiveStatus;
    var word := CommandReceiveStatus(status, config, power, lpsFresh, airspeedFresh, env);
    NarrowStatus(word);
  }

  lemma NarrowStatus(bits: bv32)
    requires bits & 0xff9a_c000 == 0
    ensures bits as int < 0x100_0000
  {
    assert bits as nat == (bits & 0xff_ffff) as nat;
  }

  lemma FreshAreNarrow(c: Cache, env: Conditions)
    requires Sound(c)
    ensures FreshTilt(c, env).magnitude < 0x80 && FreshTilt(c, env).direction < 0x200
    ensures FreshLps(c, env).pressure < 0x800 && FreshControl(c, env).requestedTorque < 0x1000
  {
    HighBits(FreshLps(c, env).pressure);
    HighBits(FreshControl(c, env).requestedTorque);
    hide MaskClear;
  }

  lemma CommandReceiveEncodable(c: Cache, env: Conditions, mission: MissionStatus)
    requires Sound(c) && Plausible(env)
    ensures Payload.Encodable(CommandReceivePacket(c, env, mission))
  {
    FreshAreNarrow(c, env);
    hide CommandReceiveStatus, Sound, FreshTilt, FreshLps, FreshKinematics, FreshAirspeed, FreshPower;
    var l, a := FreshLps(c, env), FreshAirspeed(c, env);
    CommandReceiveStatusBound(
      mission.status, mission.config, c.powerTime.IfFresh(env.nowMs, FRESHNESS_10_HZ_MS),
      c.lps.IfFresh(env.nowMs, FRESHNESS_25_HZ_MS).Some? && l.pressure <= 2031 && l.temperature <= 200,
      c.airspeed.IfFresh(env.nowMs, FRESHNESS_100_HZ_MS).Some? && a.airspeed <= 245, env);
  }

  lemma FlightEncodable(c: Cache, env: Conditions, mission: MissionStatus)
    requires Sound(c) && Plausible(env)
    ensures Payload.Encodable(FlightPacket(c, env, mission))
  {
    FreshAreNarrow(c, env);
    hide Word, FlightStatus, MapFlightIntervalEvents, Sound, FreshTilt, FreshLps, FreshKinematics;
    hide FreshAirspeed, FreshControl;
  }

  lemma DescentEncodable(c: Cache, env: Conditions)
    requires Sound(c) && Plausible(env)
    ensures Payload.Encodable(DescentPacket(c, env))
  {
    FreshAreNarrow(c, env);
    hide Sound, FreshLps, FreshPower, FreshDescent;
  }

  lemma FallbackEncodable(c: Cache, env: Conditions)
    requires Sound(c) && Plausible(env)
    ensures Payload.Encodable(FallbackPacket(c, env))
  {
    FallbackFlagsBound(c, env);
    hide FallbackFlags, LatestPeriodicAt, AgeTenths, IsRecent;
  }

  lemma OtherEncodable(c: Cache, env: Conditions)
    requires Sound(c) && Plausible(env)
    ensures Payload.Encodable(BeaconPacket(c, env))
    ensures FreshControlRoll(c, env).Some? ==> Payload.Encodable(ControlRollPacket(FreshControlRoll(c, env).value))
  {
    hide FreshPower;
  }

  // ---- Main results

  /** Every packet planned on a sound cache can be encoded. */
  lemma PlanEncodes(c: Cache, env: Conditions, preferControlRoll: bool, eventOnly: bool)
    requires Sound(c) && Plausible(env)
    ensures var plan := Plan(c, env, preferControlRoll, eventOnly);
            plan.Some? ==> Payload.Encode(plan.value.packet).Ok?
  {
    var plan := Plan(c, env, preferControlRoll, eventOnly);
    if plan.Some? {
      Payload.EncodesExactly(plan.value.packet);
      var mission := FreshMission(c, env);
      hide Payload.Encode, Payload.Encodable, CommandReceivePacket, FlightPacket, DescentPacket, FallbackPacket;
      hide BeaconPacket, ControlRollPacket, FreshControlRoll, FreshMission, Sound;
      FallbackEncodable(c, env);
      DescentEncodable(c, env);
      OtherEncodable(c, env);
      if mission.Some? {
        CommandReceiveEncodable(c, env, mission.value);
        FlightEncodable(c, env, mission.value);
      }
    }
  }

  /** Whatever frames arrived, and whatever the recovery power task wrote: a periodic slot always
      yields a packet that can be encoded, so no slot is lost to an encoding error. */
  lemma EverySlotHasAFrame(steps: seq<Step>, env: Conditions, preferControlRoll: bool)
    requires Plausible(env)
    ensures var plan := Plan(Run(steps), env, preferControlRoll, false);
            plan.Some? && Payload.Encode(plan.value.packet).Ok?
  {
    RunSound(steps);
    PlanEncodes(Run(steps), env, preferControlRoll, false);
    hide Run, Sound, Payload.Encode, FallbackPacket, CommandReceivePacket, FlightPacket, DescentPacket, BeaconPacket;
  }

  /** An event-driven packet is a control-roll packet that can be encoded, or there is none. */
  lemma EventPacketIsControlRoll(steps: seq<Step>, env: Conditions)
    requires Plausible(env)
    ensures var plan := Plan(Run(steps), env, true, true);
            plan.Some? ==> plan.value.packet.ControlRoll? && plan.value.isControlRoll
                           && plan.value.transmittedEvents == 0 && Payload.Encode(plan.value.packet).Ok?
  {
    RunSound(steps);
    PlanEncodes(Run(steps), env, true, true);
    hide Run, Sound, Payload.Encode;
  }

  /** Link health replaces bits 7 and 8 and nothing else. */
  lemma LinkHealthOnly(status: bv16, env: Conditions)
    ensures var s := InjectLinkHealth(status, env);
            && s & !0x0180 == status & !0x0180
            && (s & 0x0080 != 0 <==> !env.sdError) && (s & 0x0100 != 0 <==> !env.canError)
  {
  }

  /** What bit `i` of a flight status word reports: link health in bits 7 and 8, an event since the last
      acknowledged frame or the mission's own bit in bits 9 to 12 and 14, and the mission's own bit elsewhere. */
  predicate FlightBit(i: nat, status: u16, env: Conditions, latched: bv16) {
    match i
    case 7 => !env.sdError
    case 8 => !env.canError
    case 9 => Bit(status, 9) || Any(latched, 0x0001)
    case 10 => Bit(status, 10) || Any(latched, 0x0002)
    case 11 => Bit(status, 11) || Any(latched, 0x0004)
    case 12 => Bit(status, 12) || Any(latched, 0x0008)
    case 14 => Bit(status, 14) || Any(latched, 0x0010)
    case _ => Bit(status, i)
  }

  /** Away from the link health, a bit is the mission's own or an event's. */
  lemma FlightMask(status: bv16, env: Conditions, latched: bv16, mask: bv16)
    requires mask & 0x0180 == 0
    ensures Any(WithEvents(InjectLinkHealth(status, env), latched), mask) <==>
            Any(status, mask) || Any(MapFlightIntervalEvents(latched), mask)
  {
    LinkHealthOnly(status, env);
    hide InjectLinkHealth, MapFlightIntervalEvents;
    MaskedOr(InjectLinkHealth(status, env), status, MapFlightIntervalEvents(latched), mask);
    hide Any;
  }

  lemma SameElsewhere(a: bv16, b: bv16, mask: bv16)
    requires a & !0x0180 == b & !0x0180 && mask & 0x0180 == 0
    ensures a & mask == b & mask
  {
  }

  lemma SameAny(a: bv16, b: bv16, mask: bv16)
    requires a & mask == b & mask
    ensures Any(a, mask) <==> Any(b, mask)
  {
  }

  lemma MaskedOr(a: bv16, b: bv16, events: bv16, mask: bv16)
    requires a & !0x0180 == b & !0x0180 && mask & 0x0180 == 0
    ensures Any(a | events, mask) <==> Any(b, mask) || Any(events, mask)
  {
    SameElsewhere(a, b, mask);
    SameAny(a, b, mask);
    OrKeeps(a, events, mask);
    hide Any;
  }

  /** The events of a frame set five bits of its status word. */
  lemma EventBits(events: bv16)
    ensures var w := MapFlightIntervalEvents(events);
            && !Any(w, 0x0001) && !Any(w, 0x0002) && !Any(w, 0x0004) && !Any(w, 0x0008) && !Any(w, 0x0010)
            && !Any(w, 0x0020) && !Any(w, 0x0040) && !Any(w, 0x0080) && !Any(w, 0x0100)
            && (Any(w, 0x0200) <==> Any(events, 0x0001)) && (Any(w, 0x0400) <==> Any(events, 0x0002))
            && (Any(w, 0x0800) <==> Any(events, 0x0004)) && (Any(w, 0x1000) <==> Any(events, 0x0008))
            && !Any(w, 0x2000) && (Any(w, 0x4000) <==> Any(events, 0x0010)) && !Any(w, 0x8000)
  {
  }

  lemma HealthBitsOfFlight(status: bv16, env: Conditions, latched: bv16)
    ensures var w := WithEvents(InjectLinkHealth(status, env), latched);
            (Any(w, 0x0080) <==> !env.sdError) && (Any(w, 0x0100) <==> !env.canError)
  {
    var healthy := InjectLinkHealth(status, env);
    LinkHealthOnly(status, env);
    EventBits(latched);
    hide InjectLinkHealth, MapFlightIntervalEvents;
    OrKeeps(healthy, MapFlightIntervalEvents(latched), 0x0080);
    OrKeeps(healthy, MapFlightIntervalEvents(latched), 0x0100);
  }

  /** Each bit of the status word of a flight frame. */
  lemma FlightStatusBit(status: u16, env: Conditions, latched: bv16, i: nat)
    requires i < 16
    ensures Bit(Word(WithEvents(InjectLinkHealth(Flags(status), env), latched)), i) <==>
            FlightBit(i, status, env, latched)
  {
    hide Word, Flags, Bit, Any, MapFlightIntervalEvents, InjectLinkHealth, WithEvents;
    var w := WithEvents(InjectLinkHealth(Flags(status), env), latched);
    WordInverse(w);
    LowByteBits(Word(w));
    HighByteBits(Word(w));
    LowByteBits(status);
    HighByteBits(status);
    EventBits(latched);
    HealthBitsOfFlight(Flags(status), env, latched);
    FlightMasks(Flags(status), env, latched);
    hide FlightBit;
    FlightBitIs(i, status, env, latched);
    assert i < 7 || i == 13 || i == 15 ==> (Bit(Word(w), i) <==> Bit(status, i));
  }

  lemma FlightBitIs(i: nat, status: u16, env: Conditions, latched: bv16)
    ensures i < 7 || i == 13 || i == 15 ==> (FlightBit(i, status, env, latched) <==> Bit(status, i))
    ensures FlightBit(7, status, env, latched) <==> !env.sdError
    ensures FlightBit(8, status, env, latched) <==> !env.canError
    ensures FlightBit(9, status, env, latched) <==> Bit(status, 9) || Any(latched, 0x0001)
    ensures FlightBit(10, status, env, latched) <==> Bit(status, 10) || Any(latched, 0x0002)
    ensures FlightBit(11, status, env, latched) <==> Bit(status, 11) || Any(latched, 0x0004)
    ensures FlightBit(12, status, env, latched) <==> Bit(status, 12) || Any(latched, 0x0008)
    ensures FlightBit(14, status, env, latched) <==> Bit(status, 14) || Any(latched, 0x0010)
  {
    hide Bit, Any;
  }

  lemma FlightMasks(status: bv16, env: Conditions, latched: bv16)
    ensures var w, e := WithEvents(InjectLinkHealth(status, env), latched), MapFlightIntervalEvents(latched);
            && (Any(w, 0x0001) <==> Any(status, 0x0001) || Any(e, 0x0001))
            && (Any(w, 0x0002) <==> Any(status, 0x0002) || Any(e, 0x0002))
            && (Any(w, 0x0004) <==> Any(status, 0x0004) || Any(e, 0x0004))
            && (Any(w, 0x0008) <==> Any(status, 0x0008) || Any(e, 0x0008))
            && (Any(w, 0x0010) <==> Any(status, 0x0010) || Any(e, 0x0010))
            && (Any(w, 0x0020) <==> Any(status, 0x0020) || Any(e, 0x0020))
            && (Any(w, 0x0040) <==> Any(status, 0x0040) || Any(e, 0x0040))
            && (Any(w, 0x0200) <==> Any(status, 0x0200) || Any(e, 0x0200))
            && (Any(w, 0x0400) <==> Any(status, 0x0400) || Any(e, 0x0400))
            && (Any(w, 0x0800) <==> Any(status, 0x0800) || Any(e, 0x0800))
            && (Any(w, 0x1000) <==> Any(status, 0x1000) || Any(e, 0x1000))
            && (Any(w, 0x2000) <==> Any(status, 0x2000) || Any(e, 0x2000))
            && (Any(w, 0x4000) <==> Any(status, 0x4000) || Any(e, 0x4000))
            && (Any(w, 0x8000) <==> Any(status, 0x8000) || Any(e, 0x8000))
  {
    hide MapFlightIntervalEvents, InjectLinkHealth, WithEvents, Any;
    FlightMask(status, env, latched, 0x0001);
    FlightMask(status, env, latched, 0x0002);
    FlightMask(status, env, latched, 0x0004);
    FlightMask(status, env, latched, 0x0008);
    FlightMask(status, env, latched, 0x0010);
    FlightMask(status, env, latched, 0x0020);
    FlightMask(status, env, latched, 0x0040);
    FlightMask(status, env, latched, 0x0200);
    FlightMask(status, env, latched, 0x0400);
    FlightMask(status, env, latched, 0x0800);
    FlightMask(status, env, latched, 0x1000);
    FlightMask(status, env, latched, 0x2000);
    FlightMask(status, env, latched, 0x4000);
    FlightMask(status, env, latched, 0x8000);
  }

  /** Only the four power bits come from the power reading. */
  lemma PowerBits(power: Option<PowerTime>)
    ensures var word := PowerStatus(power);
            && (word & 0x0100 != 0 <==> power.Some? && power.value.logicVoltage <= 240)
            && (word & 0x0200 != 0 <==> power.Some? && power.value.motorVoltage <= 240)
            && (word & 0x0400 != 0 <==> power.Some? && !MaskClear(power.value.flags, 0x08))
            && (word & 0x2000 != 0 <==> power.Some? && !MaskClear(power.value.flags, 0x01))
            && word & 0xffff_d8ff == 0
  {
    hide MaskClear;
  }

  lemma MissionBits(
    status: u16, config: u8, power: Option<PowerTime>, lpsFresh: bool, airspeedFresh: bool, env: Conditions)
    ensures var word := CommandReceiveStatus(status, config, power, lpsFresh, airspeedFresh, env);
            && (word & 0x000001 != 0 <==> status as bv16 & 0x0004 != 0) && (word & 0x000002 != 0 <==> lpsFresh)
            && (word & 0x000004 != 0 <==> airspeedFresh) && (word & 0x000008 != 0 <==> status as bv16 & 0x0400 == 0)
            && (word & 0x000010 != 0 <==> status as bv16 & 0x0008 != 0)
  {
    PowerBits(power);
    hide MaskClear, PowerStatus;
  }

  lemma ConfigBits(
    status: u16, config: u8, power: Option<PowerTime>, lpsFresh: bool, airspeedFresh: bool, env: Conditions)
    ensures var word := CommandReceiveStatus(status, config, power, lpsFresh, airspeedFresh, env);
            && (word & 0x000020 != 0 <==> config as bv8 & 0x01 != 0)
            && (word & 0x000040 != 0 <==> config as bv8 & 0x02 != 0)
            && (word & 0x000080 != 0 <==> config as bv8 & 0x04 != 0)
            && (word & 0x010000 != 0 <==> config as bv8 & 0x08 != 0)
            && (word & 0x040000 != 0 <==> config as bv8 & 0x10 != 0)
            && (word & 0x200000 != 0 <==> config as bv8 & 0x20 != 0)
            && (word & 0x400000 != 0 <==> config as bv8 & 0x40 != 0)
  {
    PowerBits(power);
    hide MaskClear, PowerStatus;
  }

  lemma HealthBits(
    status: u16, config: u8, power: Option<PowerTime>, lpsFresh: bool, airspeedFresh: bool, env: Conditions)
    ensures var word := CommandReceiveStatus(status, config, power, lpsFresh, airspeedFresh, env);
            && (word & 0x000100 != 0 <==> power.Some? && power.value.logicVoltage <= 240)
            && (word & 0x000200 != 0 <==> power.Some? && power.value.motorVoltage <= 240)
            && (word & 0x000400 != 0 <==> power.Some? && !MaskClear(power.value.flags, 0x08))
            && (word & 0x000800 != 0 <==> !env.sdError) && (word & 0x001000 != 0 <==> !env.canError)
            && (word & 0x002000 != 0 <==> power.Some? && !MaskClear(power.value.flags, 0x01))
            && word & 0xff9a_c000 == 0
  {
    PowerBits(power);
    hide MaskClear, PowerStatus;
  }

  /** Each status bit of the command-receive frame reports exactly its condition, and no other bit is set. */
  lemma CommandReceiveStatusBits(
    status: u16, config: u8, power: Option<PowerTime>, lpsFresh: bool, airspeedFresh: bool, env: Conditions)
    ensures var word := CommandReceiveStatus(status, config, power, lpsFresh, airspeedFresh, env);
            && (word & 0x000001 != 0 <==> status as bv16 & 0x0004 != 0) && (word & 0x000002 != 0 <==> lpsFresh)
            && (word & 0x000004 != 0 <==> airspeedFresh) && (word & 0x000008 != 0 <==> status as bv16 & 0x0400 == 0)
            && (word & 0x000010 != 0 <==> status as bv16 & 0x0008 != 0)
            && (word & 0x000020 != 0 <==> config as bv8 & 0x01 != 0)
            && (word & 0x000040 != 0 <==> config as bv8 & 0x02 != 0)
            && (word & 0x000080 != 0 <==> config as bv8 & 0x04 != 0)
            && (word & 0x010000 != 0 <==> config as bv8 & 0x08 != 0)
            && (word & 0x040000 != 0 <==> config as bv8 & 0x10 != 0)
            && (word & 0x200000 != 0 <==> config as bv8 & 0x20 != 0)
            && (word & 0x400000 != 0 <==> config as bv8 & 0x40 != 0)
            && (word & 0x000100 != 0 <==> power.Some? && power.value.logicVoltage <= 240)
            && (word & 0x000200 != 0 <==> power.Some? && power.value.motorVoltage <= 240)
            && (word & 0x000400 != 0 <==> power.Some? && !MaskClear(power.value.flags, 0x08))
            && (word & 0x000800 != 0 <==> !env.sdError) && (word & 0x001000 != 0 <==> !env.canError)
            && (word & 0x002000 != 0 <==> power.Some? && !MaskClear(power.value.flags, 0x01))
            && word & 0xff9a_c000 == 0
  {
    MissionBits(status, config, power, lpsFresh, airspeedFresh, env);
    ConfigBits(status, config, power, lpsFresh, airspeedFresh, env);
    HealthBits(status, config, power, lpsFresh, airspeedFresh, env);
    hide CommandReceiveStatus, MaskClear;
  }

  /** Each flag of the fallback frame reports exactly its condition. */
  lemma FallbackFlagBits(c: Cache, env: Conditions)
    ensures var word := FallbackFlags(c, env);
            var missionAge := AgeTenths(env.nowMs, c.missionStatus.ReceivedAt());
            var periodicAge := AgeTenths(env.nowMs, LatestPeriodicAt(c));
            && (word & 0x0001 != 0 <==> c.missionStatus.value.Some?)
            && (word & 0x0002 != 0 <==> LatestPeriodicAt(c).Some?)
            && (word & 0x0004 != 0 <==> IsRecent(missionAge)) && (word & 0x0008 != 0 <==> IsRecent(periodicAge))
            && (word & 0x0010 != 0 <==> !env.sdError) && (word & 0x0020 != 0 <==> env.loggingRequested)
            && (word & 0x0040 != 0 <==> env.loggingActive) && (word & 0x0080 != 0 <==> env.unflushed)
            && (word & 0x0100 != 0 <==> env.gnss != Off) && (word & 0x0200 != 0 <==> env.gnss == ValidFix)
            && (word & 0x0400 != 0 <==> env.gnss == GnssStale) && (word & 0x0800 != 0 <==> c.powerTime.value.Some?)
            && (word & 0x1000 != 0 <==> c.missionStatus.value.Some?)
            && (word & 0x2000 != 0 <==> 1 <= env.canHealth <= 3) && (word & 0x4000 != 0 <==> 2 <= env.canHealth <= 6)
            && word & 0x8000 == 0
  {
    hide AgeTenths, LatestPeriodicAt, IsRecent;
  }

  lemma FallbackFlagsSet(c: Cache, env: Conditions)
    ensures var word := FallbackFlags(c, env);
            var missionAge := AgeTenths(env.nowMs, c.missionStatus.ReceivedAt());
            var periodicAge := AgeTenths(env.nowMs, LatestPeriodicAt(c));
            && (Any(word, 0x0001) <==> c.missionStatus.value.Some?)
            && (Any(word, 0x0002) <==> LatestPeriodicAt(c).Some?)
            && (Any(word, 0x0004) <==> IsRecent(missionAge)) && (Any(word, 0x0008) <==> IsRecent(periodicAge))
            && (Any(word, 0x0010) <==> !env.sdError) && (Any(word, 0x0020) <==> env.loggingRequested)
            && (Any(word, 0x0040) <==> env.loggingActive) && (Any(word, 0x0080) <==> env.unflushed)
            && (Any(word, 0x0100) <==> env.gnss != Off) && (Any(word, 0x0200) <==> env.gnss == ValidFix)
            && (Any(word, 0x0400) <==> env.gnss == GnssStale) && (Any(word, 0x0800) <==> c.powerTime.value.Some?)
            && (Any(word, 0x1000) <==> c.missionStatus.value.Some?)
            && (Any(word, 0x2000) <==> 1 <= env.canHealth <= 3) && (Any(word, 0x4000) <==> 2 <= env.canHealth <= 6)
            && !Any(word, 0x8000)
  {
    FallbackFlagBits(c, env);
    hide FallbackFlags, AgeTenths, LatestPeriodicAt, IsRecent;
    AnyBits(FallbackFlags(c, env));
    hide Any;
  }

  lemma AnyBits(w: bv16)
    ensures (Any(w, 0x0001) <==> w & 0x0001 != 0) && (Any(w, 0x0002) <==> w & 0x0002 != 0)
    ensures (Any(w, 0x0004) <==> w & 0x0004 != 0) && (Any(w, 0x0008) <==> w & 0x0008 != 0)
    ensures (Any(w, 0x0010) <==> w & 0x0010 != 0) && (Any(w, 0x0020) <==> w & 0x0020 != 0)
    ensures (Any(w, 0x0040) <==> w & 0x0040 != 0) && (Any(w, 0x0080) <==> w & 0x0080 != 0)
    ensures (Any(w, 0x0100) <==> w & 0x0100 != 0) && (Any(w, 0x0200) <==> w & 0x0200 != 0)
    ensures (Any(w, 0x0400) <==> w & 0x0400 != 0) && (Any(w, 0x0800) <==> w & 0x0800 != 0)
    ensures (Any(w, 0x1000) <==> w & 0x1000 != 0) && (Any(w, 0x2000) <==> w & 0x2000 != 0)
    ensures (Any(w, 0x4000) <==> w & 0x4000 != 0) && (Any(w, 0x8000) <==> w & 0x8000 != 0)
  {
  }

  /** What bit `i` of the fallback flags says, of the times at which a mission status and any periodic
      message were last received. */
  predicate FallbackBit(i: nat, env: Conditions, mission: Option<u64>, any: Option<u64>, powerEver: bool) {
    match i
    case 0 => mission.Some?
    case 1 => any.Some?
    case 2 => WithinSecond(mission, env.nowMs)
    case 3 => WithinSecond(any, env.nowMs)
    case 4 => !env.sdError
    case 5 => env.loggingRequested
    case 6 => env.loggingActive
    case 7 => env.unflushed
    case 8 => env.gnss != Off
    case 9 => env.gnss == ValidFix
    case 10 => env.gnss == GnssStale
    case 11 => powerEver
    case 12 => mission.Some?
    case 13 => 1 <= env.canHealth <= 3
    case 14 => 2 <= env.canHealth <= 6
    case _ => false
  }

  /** Received less than a second ago. */
  predicate WithinSecond(at: Option<u64>, nowMs: u64) {
    at.Some? && nowMs >= at.value && nowMs - at.value < 1000
  }

  lemma RecentIsWithinSecond(nowMs: u64, at: Option<u64>)
    ensures IsRecent(AgeTenths(nowMs, at)) <==> WithinSecond(at, nowMs)
  {
  }

  /** The flags of the fallback frame as the bits of a number. */
  lemma FallbackWordBit(c: Cache, env: Conditions, i: nat)
    requires i < 16
    ensures Bit(Word(FallbackFlags(c, env)), i) <==>
              FallbackBit(i, env, c.missionStatus.ReceivedAt(), LatestPeriodicAt(c), c.powerTime.value.Some?)
  {
    FallbackFlagsSet(c, env);
    RecentIsWithinSecond(env.nowMs, c.missionStatus.ReceivedAt());
    RecentIsWithinSecond(env.nowMs, LatestPeriodicAt(c));
    var w := FallbackFlags(c, env);
    hide FallbackFlags, IsRecent, AgeTenths, WithinSecond, LatestPeriodicAt, Word, Flags, Bit, Any;
    WordInverse(w);
    LowByteBits(Word(w));
    HighByteBits(Word(w));
    hide FallbackBit;
    FallbackBitIs(env, c.missionStatus.ReceivedAt(), LatestPeriodicAt(c), c.powerTime.value.Some?);
    match i { // one bit at a time
      case 0 => case 1 => case 2 => case 3 => case 4 => case 5 => case 6 => case 7 =>
      case 8 => case 9 => case 10 => case 11 => case 12 => case 13 => case 14 => case _ =>
    }
  }

  lemma FallbackBitIs(env: Conditions, mission: Option<u64>, any: Option<u64>, powerEver: bool)
    ensures FallbackBit(0, env, mission, any, powerEver) <==> mission.Some?
    ensures FallbackBit(1, env, mission, any, powerEver) <==> any.Some?
    ensures FallbackBit(2, env, mission, any, powerEver) <==> WithinSecond(mission, env.nowMs)
    ensures FallbackBit(3, env, mission, any, powerEver) <==> WithinSecond(any, env.nowMs)
    ensures FallbackBit(4, env, mission, any, powerEver) <==> !env.sdError
    ensures FallbackBit(5, env, mission, any, powerEver) <==> env.loggingRequested
    ensures FallbackBit(6, env, mission, any, powerEver) <==> env.loggingActive
    ensures FallbackBit(7, env, mission, any, powerEver) <==> env.unflushed
    ensures FallbackBit(8, env, mission, any, powerEver) <==> env.gnss != Off
    ensures FallbackBit(9, env, mission, any, powerEver) <==> env.gnss == ValidFix
    ensures FallbackBit(10, env, mission, any, powerEver) <==> env.gnss == GnssStale
    ensures FallbackBit(11, env, mission, any, powerEver) <==> powerEver
    ensures FallbackBit(12, env, mission, any, powerEver) <==> mission.Some?
    ensures FallbackBit(13, env, mission, any, powerEver) <==> 1 <= env.canHealth <= 3
    ensures FallbackBit(14, env, mission, any, powerEver) <==> 2 <= env.canHealth <= 6
    ensures !FallbackBit(15, env, mission, any, powerEver)
  {
    hide WithinSecond;
  }

  /** An age in tenths of a second, rounded down and capped; 0xffff for what was never received or lies
      in the future. */
  predicate IsAge(age: u16, nowMs: u64, at: Option<u64>) {
    if at.None? || nowMs < at.value then age == 0xffff
    else if nowMs - at.value >= 100 * 0xfffe then age == 0xfffe
    else 100 * age <= nowMs - at.value < 100 * (age + 1)
  }

  lemma AgeIsTenths(nowMs: u64, at: Option<u64>)
    ensures IsAge(AgeTenths(nowMs, at), nowMs, at)
  {
  }

  /** The last invalid mission status came after the last valid one. */
  predicate InvalidIsLatest(env: Conditions, mission: Option<u64>) {
    env.statusInvalidAtMs != 0 && (mission.None? || env.statusInvalidAtMs > mission.value)
  }

  /** Each code of the primary loss reason has exactly its own cause. */
  predicate IsLossReason(reason: u8, env: Conditions, mission: Option<u64>, any: Option<u64>) {
    var healthy := env.canHealth != 4 && env.canHealth != 5 && env.canHealth != 6;
    var known := healthy && !InvalidIsLatest(env, mission);
    && (reason == 3 <==> env.canHealth == 4)
    && (reason == 4 <==> env.canHealth == 5)
    && (reason == 5 <==> healthy && InvalidIsLatest(env, mission))
    && (reason == 0 <==> known && mission.None?)
    && (reason == 7 <==> env.canHealth == 6 || (known && WithinSecond(mission, env.nowMs)))
    && (reason == 1 <==> known && mission.Some? && !WithinSecond(mission, env.nowMs) && WithinSecond(any, env.nowMs))
    && (reason == 2 <==> known && mission.Some? && !WithinSecond(mission, env.nowMs) && !WithinSecond(any, env.nowMs))
  }

  lemma LossReasonHasItsCause(env: Conditions, mission: Option<u64>, any: Option<u64>)
    ensures IsLossReason(PrimaryLossReason(env.canHealth, InvalidIsLatest(env, mission), mission.Some?,
                                           AgeTenths(env.nowMs, mission), any.Some?, AgeTenths(env.nowMs, any)),
                         env, mission, any)
  {
    RecentIsWithinSecond(env.nowMs, mission);
    RecentIsWithinSecond(env.nowMs, any);
    hide AgeTenths, IsRecent, WithinSecond, InvalidIsLatest;
    assert !WithinSecond(None, env.nowMs) by {
      NeverIsNotRecent(env.nowMs);
    }
  }

  lemma NeverIsNotRecent(nowMs: u64)
    ensures !WithinSecond(None, nowMs)
  {
  }

  /** A planned packet acknowledges events only if its status word reports each of them. */
  lemma AcknowledgedFlagsAreReported(c: Cache, env: Conditions, preferControlRoll: bool, eventOnly: bool, flag: bv16)
    returns (status: bv16)
    requires IsReported(flag)
    ensures var plan := Plan(c, env, preferControlRoll, eventOnly);
            plan.Some? && Any(plan.value.transmittedEvents, flag) ==>
              && plan.value.packet.Flight? && plan.value.packet.flightStatus == Word(status)
              && Any(status, StatusBit(flag))
  {
    hide Word, Plan, FreshMission, FlightWord, Carried, StatusBit, Any, IsReported;
    FlightPlan(c, env, preferControlRoll, eventOnly);
    NoFlag(flag);
    var plan := Plan(c, env, preferControlRoll, eventOnly);
    var mission := FreshMission(c, env);
    status := if mission.Some? then FlightWord(c, env, mission.value) else 0;
    if plan.Some? && Any(plan.value.transmittedEvents, flag) {
      ReportedBit(c, env, mission.value, flag);
    }
  }

  lemma FlightPlan(c: Cache, env: Conditions, preferControlRoll: bool, eventOnly: bool)
    ensures var plan := Plan(c, env, preferControlRoll, eventOnly);
            var mission := FreshMission(c, env);
            plan.Some? && plan.value.transmittedEvents != 0 ==>
              && mission.Some? && plan.value.packet.Flight? && plan.value.transmittedEvents == Carried(c.latch.flags)
              && plan.value.packet.flightStatus == Word(FlightWord(c, env, mission.value))
  {
    hide Word, FlightWord, Carried, FreshTilt, FreshLps, FreshKinematics, FreshAirspeed, FreshControl;
    hide CommandReceivePacket, DescentPacket, FallbackPacket, BeaconPacket;
  }

  /** A planned packet is the frame the latch's machine builds: same status word, same flags to clear. */
  lemma PlannedFrameIsBuilt(s: EventLatch.State, c: Cache, env: Conditions, preferControlRoll: bool, eventOnly: bool)
    requires s.latch == c.latch
    ensures var plan := Plan(c, env, preferControlRoll, eventOnly);
            plan.Some? ==>
              var packet := plan.value.packet;
              && (packet.Flight? ==> FreshMission(c, env).Some?)
              && var status := if packet.Flight? then FlightStatus(FreshMission(c, env).value, env) else 0;
                 var built := Built(s, packet.Flight?, status);
                 && plan.value.transmittedEvents == built.events
                 && (packet.Flight? ==> packet.flightStatus == Word(built.status))
  {
    hide Word, FlightStatus, WithEvents, Carried, FreshTilt, FreshLps, FreshKinematics, FreshAirspeed, FreshControl;
    hide CommandReceiveStatus, FallbackFlags;
  }

  lemma NoFlag(flag: bv16)
    ensures !Any(0, flag)
  {
  }

  lemma ReportedBit(c: Cache, env: Conditions, mission: MissionStatus, flag: bv16)
    requires IsReported(flag) && Any(Carried(c.latch.flags), flag)
    ensures Any(FlightWord(c, env, mission), StatusBit(flag))
  {
    hide FlightStatus;
  }
}
