/** The cache of received CAN messages (src/can/cache.rs). */
module CanCache {
  import opened Prelude
  import opened Bits
  import opened CanProtocol

  const FRESHNESS_100_HZ_MS: u64 := 30
  const FRESHNESS_25_HZ_MS: u64 := 120
  const FRESHNESS_10_HZ_MS: u64 := 300

  datatype Freshness = Missing | Fresh | Stale

  datatype Latest<T> = Latest(value: Option<T>, receivedAtMs: u64) {
    function ReceivedAt(): Option<u64> {
      if value.Some? then Some(receivedAtMs) else None
    }

    function Freshness(nowMs: u64, maximumAgeMs: u64): Freshness {
      if value.None? then Missing
      else if nowMs >= receivedAtMs && nowMs - receivedAtMs <= maximumAgeMs then Fresh
      else Stale
    }

    /** `stale_or` (src/tasks/lora_task_base.rs:342-352) */
    function IfFresh(nowMs: u64, maximumAgeMs: u64): Option<T> {
      if Freshness(nowMs, maximumAgeMs) == Fresh then value else None
    }
  }

  function Received<T>(value: T, at: u64): Latest<T> {
    Latest(Some(value), at)
  }

  /** The latched event flags: `revision` counts accepted events modulo 2^32. */
  datatype Latch = Latch(flags: bv16, revision: u32, lastSequence: Option<u8>)

  datatype Cache = Cache(
    kinematics: Latest<Kinematics>, control: Latest<ControlTelemetry>, missionStatus: Latest<MissionStatus>,
    powerTime: Latest<PowerTime>, descentCore: Latest<DescentCore>, attitudeTilt: Latest<AttitudeTilt>,
    lps: Latest<Lps>, airspeed: Latest<Airspeed>, controlRoll: Latest<ControlRoll>,
    recoveryStatus: Latest<RecoveryStatus>, recoveryLogData: Latest<RecoveryLogData>,
    commandResult: Latest<CommandResult>, timeRequest: Latest<u8>, missionEvent: Latest<MissionEvent>,
    latch: Latch)

  datatype CacheUpdate =
    | Telemetry
    | ResultReceived(result: CommandResult)
    | TimeRequested(requestId: u8)
    | EventAccepted(event: MissionEvent, newFlags: bv16)
    | DuplicateEvent
    | RecoveryStatusReceived(status: RecoveryStatus)
    | LogDataReceived(data: RecoveryLogData)

  const EMPTY := Cache(Latest(None, 0), Latest(None, 0), Latest(None, 0), Latest(None, 0), Latest(None, 0),
                       Latest(None, 0), Latest(None, 0), Latest(None, 0), Latest(None, 0), Latest(None, 0),
                       Latest(None, 0), Latest(None, 0), Latest(None, 0), Latest(None, 0), Latch(0, 0, None))

  function FlagBits(event: MissionEvent): bv16 {
    Flags(event.flags)
  }

  /** Lines 155-163: an event is latched unless it repeats the last sequence number. */
  function Latched(l: Latch, event: MissionEvent): Latch {
    if l.lastSequence == Some(event.sequence) then l
    else Latch(l.flags | FlagBits(event), (l.revision + 1) % U32_LIMIT, Some(event.sequence))
  }

  function Updated(c: Cache, m: RxMessage, at: u64): Cache {
    match m
    case ResultMessage(v) => c.(commandResult := Received(v, at))
    case TimeRequestMessage(v) => c.(timeRequest := Received(v, at))
    case EventMessage(v) =>
      if c.latch.lastSequence == Some(v.sequence) then c
      else c.(latch := Latched(c.latch, v), missionEvent := Received(v, at))
    case KinematicsMessage(v) => c.(kinematics := Received(v, at))
    case ControlMessage(v) => c.(control := Received(v, at))
    case MissionStatusMessage(v) => c.(missionStatus := Received(v, at))
    case PowerTimeMessage(v) => c.(powerTime := Received(v, at))
    case DescentCoreMessage(v) => c.(descentCore := Received(v, at))
    case RecoveryStatusMessage(v) => c.(recoveryStatus := Received(v, at))
    case RecoveryLogDataMessage(v) => c.(recoveryLogData := Received(v, at))
    case AttitudeTiltMessage(v) => c.(attitudeTilt := Received(v, at))
    case LpsMessage(v) => c.(lps := Received(v, at))
    case AirspeedMessage(v) => c.(airspeed := Received(v, at))
    case ControlRollMessage(v) => c.(controlRoll := Received(v, at))
  }

  function UpdateResult(c: Cache, m: RxMessage): CacheUpdate {
    match m
    case ResultMessage(v) => ResultReceived(v)
    case TimeRequestMessage(v) => TimeRequested(v)
    case EventMessage(v) =>
      if c.latch.lastSequence == Some(v.sequence) then DuplicateEvent
      else EventAccepted(v, FlagBits(v) & !c.latch.flags)
    case RecoveryStatusMessage(v) => RecoveryStatusReceived(v)
    case RecoveryLogDataMessage(v) => LogDataReceived(v)
    case _ => Telemetry
  }

  /** clear_event_flags */
  function Cleared(l: Latch, flags: bv16, revision: u32): Latch {
    if l.revision == revision then l.(flags := l.flags & !flags) else l
  }

  /** The cache as the tasks share it. */
  class CanCache {
    var kinematics: Latest<Kinematics>
    var control: Latest<ControlTelemetry>
    var missionStatus: Latest<MissionStatus>
    var powerTime: Latest<PowerTime>
    var descentCore: Latest<DescentCore>
    var attitudeTilt: Latest<AttitudeTilt>
    var lps: Latest<Lps>
    var airspeed: Latest<Airspeed>
    var controlRoll: Latest<ControlRoll>
    var recoveryStatus: Latest<RecoveryStatus>
    var recoveryLogData: Latest<RecoveryLogData>
    var commandResult: Latest<CommandResult>
    var timeRequest: Latest<u8>
    var missionEvent: Latest<MissionEvent>
    var eventFlagsLatched: bv16
    var eventRevision: u32
    var lastEventSequence: Option<u8>

    function Value(): Cache
      reads this
    {
      Cache(kinematics, control, missionStatus, powerTime, descentCore, attitudeTilt, lps, airspeed, controlRoll,
            recoveryStatus, recoveryLogData, commandResult, timeRequest, missionEvent,
            Latch(eventFlagsLatched, eventRevision, lastEventSequence))
    }

    constructor ()
      ensures Value() == EMPTY
    {
      kinematics, control, missionStatus := Latest(None, 0), Latest(None, 0), Latest(None, 0);
      powerTime, descentCore, attitudeTilt := Latest(None, 0), Latest(None, 0), Latest(None, 0);
      lps, airspeed, controlRoll := Latest(None, 0), Latest(None, 0), Latest(None, 0);
      recoveryStatus, recoveryLogData := Latest(None, 0), Latest(None, 0);
      commandResult, timeRequest, missionEvent := Latest(None, 0), Latest(None, 0), Latest(None, 0);
      eventFlagsLatched, eventRevision, lastEventSequence := 0, 0, None;
    }

    method Update(message: RxMessage, receivedAtMs: u64) returns (update: CacheUpdate)
      modifies this
      ensures Value() == Updated(old(Value()), message, receivedAtMs)
      ensures update == UpdateResult(old(Value()), message)
    {
      hide Latched, FlagBits;
      update := Telemetry;
      match message {
        case ResultMessage(v) =>
          commandResult := Received(v, receivedAtMs);
          update := ResultReceived(v);
        case TimeRequestMessage(v) =>
          timeRequest := Received(v, receivedAtMs);
          update := TimeRequested(v);
        case EventMessage(event) =>
          update := UpdateEvent(event, receivedAtMs);
        case RecoveryStatusMessage(v) =>
          recoveryStatus := Received(v, receivedAtMs);
          update := RecoveryStatusReceived(v);
        case RecoveryLogDataMessage(v) =>
          recoveryLogData := Received(v, receivedAtMs);
          update := LogDataReceived(v);
        case _ => UpdateTelemetry(message, receivedAtMs);
      }
    }

    /** The readings nothing else depends on. */
    method UpdateTelemetry(message: RxMessage, receivedAtMs: u64)
      requires UpdateResult(Value(), message) == Telemetry
      modifies this`kinematics, this`control, this`missionStatus, this`powerTime, this`descentCore
      modifies this`attitudeTilt, this`lps, this`airspeed, this`controlRoll
      ensures Value() == Updated(old(Value()), message, receivedAtMs)
    {
      hide Latched, FlagBits;
      match message {
        case KinematicsMessage(v) => kinematics := Received(v, receivedAtMs);
        case ControlMessage(v) => control := Received(v, receivedAtMs);
        case MissionStatusMessage(v) => missionStatus := Received(v, receivedAtMs);
        case PowerTimeMessage(v) => powerTime := Received(v, receivedAtMs);
        case DescentCoreMessage(v) => descentCore := Received(v, receivedAtMs);
        case AttitudeTiltMessage(v) => attitudeTilt := Received(v, receivedAtMs);
        case LpsMessage(v) => lps := Received(v, receivedAtMs);
        case AirspeedMessage(v) => airspeed := Received(v, receivedAtMs);
        case ControlRollMessage(v) => controlRoll := Received(v, receivedAtMs);
      }
    }

    /** Lines 154-164. */
    method UpdateEvent(event: MissionEvent, receivedAtMs: u64) returns (update: CacheUpdate)
      modifies this`eventFlagsLatched, this`eventRevision, this`lastEventSequence, this`missionEvent
      ensures Value() == Updated(old(Value()), EventMessage(event), receivedAtMs)
      ensures update == UpdateResult(old(Value()), EventMessage(event))
    {
      hide FlagBits;
      if lastEventSequence == Some(event.sequence) {
        return DuplicateEvent;
      }
      update := EventAccepted(event, FlagBits(event) & !eventFlagsLatched);
      eventFlagsLatched := eventFlagsLatched | FlagBits(event);
      eventRevision := (eventRevision + 1) % U32_LIMIT;
      lastEventSequence := Some(event.sequence);
      missionEvent := Received(event, receivedAtMs);
    }

    method ClearEventFlags(flags: bv16, revision: u32)
      modifies this`eventFlagsLatched
      ensures Value() == old(Value()).(latch := Cleared(old(Value()).latch, flags, revision))
    {
      if eventRevision == revision {
        eventFlagsLatched := eventFlagsLatched & !flags;
      }
    }

    /** clear_recovery_power_snapshot */
    method ClearPowerTime()
      modifies this`powerTime
      ensures Value() == old(Value()).(powerTime := Latest(None, 0))
    {
      powerTime := Latest(None, 0);
    }
  }
}
