/** The CAN wire protocol (src/can/protocol.rs): strict decoding of received frames and encoding of
    transmitted ones. */
module CanProtocol {
  import opened Prelude

  const SCHEMA_VERSION: u8 := 2
  const OUT_OF_RANGE_RAW: u16 := 0x800a

  datatype MissionState = CommandReceive | LiftoffDetection | EngineBurn | Control | Descent | Unknown
  datatype Phase = Accepted | Completed | Rejected | Failed
  datatype Reason =
    | NoReason | Busy | InvalidState | InvalidArgument | NotConfigured | DeviceUnavailable | Timeout | Stall
    | ProtocolError | InterruptedByEmergency | PersistenceError | InternalError | NotSupported
    | SafetyInterlock | AlreadySatisfied
  datatype FinMode = FinFree | FinBrake | FinPositionHold | FinZeroHold | FinRelativeMove | FinRollControl | FinUnknown
  datatype ParaMode =
    | ParaFree | ParaHold | ParaRelativeMove | ParaOpeningOrRetrying | ParaClosing | ParaPoweredOff | ParaUnknown
  datatype TimeSource = TimeInvalid | TimeGnss | TimeGround
  datatype RecoveryOpcode = Wake | StartLogDump | StopLogDump | ExitRecovery
  datatype RecoverySource = InternalFlash | MissionSdLatestFlight
  datatype RecoveryStatusCode =
    | Ready | Dumping | Complete | StatusBusy | StatusInvalidState | StatusInvalidArgument
    | SourceUnavailable | IoError | Aborted | StatusInternalError

  // ---- Wire enumerations: each value has one raw code, and decoding inverts it

  function RawState(e: MissionState): u8 {
    match e
    case CommandReceive => 0
    case LiftoffDetection => 1
    case EngineBurn => 2
    case Control => 3
    case Descent => 4
    case Unknown => 0xff
  }

  function DecodeState(raw: u8): (e: Option<MissionState>)
    ensures forall v :: e == Some(v) <==> RawState(v) == raw
  {
    match raw
    case 0 => Some(CommandReceive)
    case 1 => Some(LiftoffDetection)
    case 2 => Some(EngineBurn)
    case 3 => Some(Control)
    case 4 => Some(Descent)
    case 0xff => Some(Unknown)
    case _ => None
  }

  function RawPhase(e: Phase): u8 {
    match e
    case Accepted => 0
    case Completed => 1
    case Rejected => 2
    case Failed => 3
  }

  function DecodePhase(raw: u8): (e: Option<Phase>)
    ensures forall v :: e == Some(v) <==> RawPhase(v) == raw
  {
    match raw
    case 0 => Some(Accepted)
    case 1 => Some(Completed)
    case 2 => Some(Rejected)
    case 3 => Some(Failed)
    case _ => None
  }

  function RawReason(e: Reason): u8 {
    match e
    case NoReason => 0
    case Busy => 1
    case InvalidState => 2
    case InvalidArgument => 3
    case NotConfigured => 4
    case DeviceUnavailable => 5
    case Timeout => 6
    case Stall => 7
    case ProtocolError => 8
    case InterruptedByEmergency => 9
    case PersistenceError => 10
    case InternalError => 11
    case NotSupported => 12
    case SafetyInterlock => 13
    case AlreadySatisfied => 14
  }

  function DecodeReason(raw: u8): (e: Option<Reason>)
    ensures forall v :: e == Some(v) <==> RawReason(v) == raw
  {
    match raw
    case 0 => Some(NoReason)
    case 1 => Some(Busy)
    case 2 => Some(InvalidState)
    case 3 => Some(InvalidArgument)
    case 4 => Some(NotConfigured)
    case 5 => Some(DeviceUnavailable)
    case 6 => Some(Timeout)
    case 7 => Some(Stall)
    case 8 => Some(ProtocolError)
    case 9 => Some(InterruptedByEmergency)
    case 10 => Some(PersistenceError)
    case 11 => Some(InternalError)
    case 12 => Some(NotSupported)
    case 13 => Some(SafetyInterlock)
    case 14 => Some(AlreadySatisfied)
    case _ => None
  }

  function RawFinMode(e: FinMode): u8 {
    match e
    case FinFree => 0
    case FinBrake => 1
    case FinPositionHold => 2
    case FinZeroHold => 3
    case FinRelativeMove => 4
    case FinRollControl => 5
    case FinUnknown => 15
  }

  function DecodeFinMode(raw: u8): (e: Option<FinMode>)
    ensures forall v :: e == Some(v) <==> RawFinMode(v) == raw
  {
    match raw
    case 0 => Some(FinFree)
    case 1 => Some(FinBrake)
    case 2 => Some(FinPositionHold)
    case 3 => Some(FinZeroHold)
    case 4 => Some(FinRelativeMove)
    case 5 => Some(FinRollControl)
    case 15 => Some(FinUnknown)
    case _ => None
  }

  function RawParaMode(e: ParaMode): u8 {
    match e
    case ParaFree => 0
    case ParaHold => 1
    case ParaRelativeMove => 2
    case ParaOpeningOrRetrying => 3
    case ParaClosing => 4
    case ParaPoweredOff => 5
    case ParaUnknown => 15
  }

  function DecodeParaMode(raw: u8): (e: Option<ParaMode>)
    ensures forall v :: e == Some(v) <==> RawParaMode(v) == raw
  {
    match raw
    case 0 => Some(ParaFree)
    case 1 => Some(ParaHold)
    case 2 => Some(ParaRelativeMove)
    case 3 => Some(ParaOpeningOrRetrying)
    case 4 => Some(ParaClosing)
    case 5 => Some(ParaPoweredOff)
    case 15 => Some(ParaUnknown)
    case _ => None
  }

  function RawTimeSource(e: TimeSource): u8 {
    match e
    case TimeInvalid => 0
    case TimeGnss => 1
    case TimeGround => 2
  }

  function DecodeTimeSource(raw: u8): (e: Option<TimeSource>)
    ensures forall v :: e == Some(v) <==> RawTimeSource(v) == raw
  {
    match raw
    case 0 => Some(TimeInvalid)
    case 1 => Some(TimeGnss)
    case 2 => Some(TimeGround)
    case _ => None
  }

  function RawOpcode(e: RecoveryOpcode): u8 {
    match e
    case Wake => 1
    case StartLogDump => 2
    case StopLogDump => 3
    case ExitRecovery => 4
  }

  function DecodeOpcode(raw: u8): (e: Option<RecoveryOpcode>)
    ensures forall v :: e == Some(v) <==> RawOpcode(v) == raw
  {
    match raw
    case 1 => Some(Wake)
    case 2 => Some(StartLogDump)
    case 3 => Some(StopLogDump)
    case 4 => Some(ExitRecovery)
    case _ => None
  }

  function RawRecoverySource(e: RecoverySource): u8 {
    match e
    case InternalFlash => 0
    case MissionSdLatestFlight => 1
  }

  function DecodeRecoverySource(raw: u8): (e: Option<RecoverySource>)
    ensures forall v :: e == Some(v) <==> RawRecoverySource(v) == raw
  {
    match raw
    case 0 => Some(InternalFlash)
    case 1 => Some(MissionSdLatestFlight)
    case _ => None
  }

  function RawStatusCode(e: RecoveryStatusCode): u8 {
    match e
    case Ready => 0
    case Dumping => 1
    case Complete => 2
    case StatusBusy => 3
    case StatusInvalidState => 4
    case StatusInvalidArgument => 5
    case SourceUnavailable => 6
    case IoError => 7
    case Aborted => 8
    case StatusInternalError => 9
  }

  function DecodeStatusCode(raw: u8): (e: Option<RecoveryStatusCode>)
    ensures forall v :: e == Some(v) <==> RawStatusCode(v) == raw
  {
    match raw
    case 0 => Some(Ready)
    case 1 => Some(Dumping)
    case 2 => Some(Complete)
    case 3 => Some(StatusBusy)
    case 4 => Some(StatusInvalidState)
    case 5 => Some(StatusInvalidArgument)
    case 6 => Some(SourceUnavailable)
    case 7 => Some(IoError)
    case 8 => Some(Aborted)
    case 9 => Some(StatusInternalError)
    case _ => None
  }

  // ---- Messages

  datatype GenericCommandRequest = GenericCommandRequest(transactionId: u8, command: u8, args: seq<u8>)
  datatype CommandResult = CommandResult(transactionId: u8, command: u8, phase: Phase, reason: Reason, detail: u32)
  datatype MissionEvent = MissionEvent(sequence: u8, flags: u16, state: MissionState, elapsed: u16, detail: u16)
  datatype Kinematics = Kinematics(sequence: u8, roll: u16, rollRate: u16, finAngle: u8, finRate: u16)
  datatype ControlTelemetry = ControlTelemetry(sequence: u8, requestedTorque: u16, elapsed: u8)
  datatype MissionStatus = MissionStatus(
    sequence: u8, state: MissionState, status: u16, config: u8, finMode: FinMode, paraMode: ParaMode, paraAngle: u8)
  datatype PowerTime = PowerTime(
    sequence: u8, logicVoltage: u8, motorVoltage: u8, descentElapsed: u16, recoveryElapsed: u16, flags: u8)
  datatype DescentCore = DescentCore(sequence: u8, status: u16, paraAngle: u8)
  datatype RecoveryStatus = RecoveryStatus(
    opcode: RecoveryOpcode, transferId: u8, status: RecoveryStatusCode, source: RecoverySource, totalSize: u32)
  datatype RecoveryLogData = RecoveryLogData(transferId: u8, sequence: u8, data: seq<u8>)
  datatype AttitudeTilt = AttitudeTilt(sequence: u8, magnitude: u8, direction: u16)
  datatype Lps = Lps(sequence: u8, pressure: u16, temperature: u8)
  datatype Airspeed = Airspeed(sequence: u8, airspeed: u8)
  datatype ControlRoll = ControlRoll(
    sequence: u8, reference: u16, deviation: u16, flags: u8, captureEventSequence: u8)

  datatype RxMessage =
    | ResultMessage(result: CommandResult)
    | TimeRequestMessage(requestId: u8)
    | EventMessage(event: MissionEvent)
    | KinematicsMessage(kinematics: Kinematics)
    | ControlMessage(control: ControlTelemetry)
    | MissionStatusMessage(mission: MissionStatus)
    | PowerTimeMessage(power: PowerTime)
    | DescentCoreMessage(descent: DescentCore)
    | RecoveryStatusMessage(recoveryStatus: RecoveryStatus)
    | RecoveryLogDataMessage(logData: RecoveryLogData)
    | AttitudeTiltMessage(tilt: AttitudeTilt)
    | LpsMessage(lps: Lps)
    | AirspeedMessage(airspeed: Airspeed)
    | ControlRollMessage(roll: ControlRoll)

  datatype DecodeError =
    | UnknownId(id: u16)
    | InvalidDlc(id: u16, expected: nat, actual: nat)
    | InvalidField(id: u16, index: nat, value: u8)

  // ---- Decoding (lines 509-757)

  predicate MaskClear(value: u8, mask: u8) {
    (value as bv8) & (mask as bv8) == 0
  }

  function RequireReservedZero(id: u16, index: nat, value: u8, mask: u8): Outcome<DecodeError> {
    if MaskClear(value, mask) then Pass else Fail(InvalidField(id, index, value))
  }

  function RequireDlc(id: u16, data: seq<u8>, expected: nat): Outcome<DecodeError> {
    if |data| == expected then Pass else Fail(InvalidDlc(id, expected, |data|))
  }

  function RequireReceivedTransactionId(id: u16, index: nat, transactionId: u8): Outcome<DecodeError> {
    if transactionId == 0 then Fail(InvalidField(id, index, transactionId)) else Pass
  }

  function DecodeField<E>(id: u16, index: nat, raw: u8, decoded: Option<E>): Result<E, DecodeError> {
    if decoded.Some? then Ok(decoded.value) else Err(InvalidField(id, index, raw))
  }

  const REFERENCE_OUT_OF_RANGE: u8 := 0x08
  const DEVIATION_OUT_OF_RANGE: u8 := 0x10

  /** A roll count is the out-of-range code exactly when its flag says so. */
  predicate RangeFlagsAgree(reference: u16, deviation: u16, flags: u8) {
    && ((reference == OUT_OF_RANGE_RAW) <==> !MaskClear(flags, REFERENCE_OUT_OF_RANGE))
    && ((deviation == OUT_OF_RANGE_RAW) <==> !MaskClear(flags, DEVIATION_OUT_OF_RANGE))
  }

  function DecodeStandard(id: u16, data: seq<u8>): Result<RxMessage, DecodeError> {
    match id
    case 0x011 => DecodeCommandResult(id, data)
    case 0x012 =>
      :- RequireDlc(id, data, 1);
      :- RequireReceivedTransactionId(id, 0, data[0]);
      Ok(TimeRequestMessage(data[0]))
    case 0x020 =>
      :- RequireDlc(id, data, 8);
      var state :- DecodeField(id, 3, data[3], DecodeState(data[3]));
      Ok(EventMessage(MissionEvent(data[0], FromLe16(data[1], data[2]), state, FromLe16(data[4], data[5]),
                                   FromLe16(data[6], data[7]))))
    case 0x100 =>
      :- RequireDlc(id, data, 8);
      Ok(KinematicsMessage(Kinematics(data[0], FromLe16(data[1], data[2]), FromLe16(data[3], data[4]), data[5],
                                      FromLe16(data[6], data[7]))))
    case 0x101 =>
      :- RequireDlc(id, data, 4);
      :- RequireReservedZero(id, 2, data[2], 0xf0);
      Ok(ControlMessage(ControlTelemetry(data[0], FromLe16(data[1], data[2]), data[3])))
    case 0x102 => DecodeMissionStatus(id, data)
    case 0x103 =>
      :- RequireDlc(id, data, 8);
      :- RequireReservedZero(id, 7, data[7], 0x70);
      Ok(PowerTimeMessage(PowerTime(data[0], data[1], data[2], FromLe16(data[3], data[4]),
                                    FromLe16(data[5], data[6]), data[7])))
    case 0x104 =>
      :- RequireDlc(id, data, 4);
      :- RequireReservedZero(id, 1, data[1], 0xe0);
      :- RequireReservedZero(id, 2, data[2], 0xff);
      Ok(DescentCoreMessage(DescentCore(data[0], FromLe16(data[1], data[2]), data[3])))
    case 0x105 =>
      :- RequireDlc(id, data, 8);
      var opcode :- DecodeField(id, 0, data[0], DecodeOpcode(data[0]));
      var status :- DecodeField(id, 2, data[2], DecodeStatusCode(data[2]));
      var source :- DecodeField(id, 3, data[3], DecodeRecoverySource(data[3]));
      Ok(RecoveryStatusMessage(RecoveryStatus(opcode, data[1], status, source,
                                              FromLe32(data[4], data[5], data[6], data[7]))))
    case 0x106 =>
      :- RequireDlc(id, data, 8);
      Ok(RecoveryLogDataMessage(RecoveryLogData(data[0], data[1], data[2..8])))
    case 0x107 =>
      :- RequireDlc(id, data, 3);
      var packed := FromLe16(data[1], data[2]);
      Ok(AttitudeTiltMessage(AttitudeTilt(data[0], packed % 0x80, packed / 0x80)))
    case 0x108 =>
      :- RequireDlc(id, data, 4);
      :- RequireReservedZero(id, 2, data[2], 0xf8);
      Ok(LpsMessage(Lps(data[0], FromLe16(data[1], data[2]), data[3])))
    case 0x109 =>
      :- RequireDlc(id, data, 2);
      Ok(AirspeedMessage(Airspeed(data[0], data[1])))
    case 0x10a => DecodeControlRoll(id, data)
    case _ => Err(UnknownId(id))
  }

  function DecodeCommandResult(id: u16, data: seq<u8>): Result<RxMessage, DecodeError> {
    var length := RequireDlc(id, data, 8);
    :- length;
    :- RequireReceivedTransactionId(id, 0, data[0]);
    var phase :- DecodeField(id, 2, data[2], DecodePhase(data[2]));
    var reason :- DecodeField(id, 3, data[3], DecodeReason(data[3]));
    Ok(ResultMessage(CommandResult(data[0], data[1], phase, reason, FromLe32(data[4], data[5], data[6], data[7]))))
  }

  function DecodeMissionStatus(id: u16, data: seq<u8>): Result<RxMessage, DecodeError> {
    var length := RequireDlc(id, data, 8);
    :- length;
    var state :- DecodeField(id, 1, data[1], DecodeState(data[1]));
    if state == Unknown then Err(InvalidField(id, 1, data[1]))
    else
      var finMode :- DecodeField(id, 5, data[5], DecodeFinMode(data[5]));
      var paraMode :- DecodeField(id, 6, data[6], DecodeParaMode(data[6]));
      Ok(MissionStatusMessage(MissionStatus(data[0], state, FromLe16(data[2], data[3]), data[4], finMode, paraMode,
                                            data[7])))
  }

  function DecodeControlRoll(id: u16, data: seq<u8>): Result<RxMessage, DecodeError> {
    var length := RequireDlc(id, data, 8);
    :- length;
    if data[1] != SCHEMA_VERSION then Err(InvalidField(id, 1, data[1]))
    else
      :- RequireReservedZero(id, 6, data[6], 0xe0);
      var reference := FromLe16(data[2], data[3]);
      var deviation := FromLe16(data[4], data[5]);
      if !RangeFlagsAgree(reference, deviation, data[6]) then Err(InvalidField(id, 6, data[6]))
      else Ok(ControlRollMessage(ControlRoll(data[0], reference, deviation, data[6], data[7])))
  }

  // ---- The encoder that strict decoding inverts

  /** The messages the wire format can carry. */
  predicate WellFormed(m: RxMessage) {
    match m
    case ResultMessage(r) => r.transactionId != 0
    case TimeRequestMessage(requestId) => requestId != 0
    case ControlMessage(c) => MaskClear(c.requestedTorque / 0x100, 0xf0)
    case MissionStatusMessage(s) => s.state != Unknown
    case PowerTimeMessage(p) => MaskClear(p.flags, 0x70)
    case DescentCoreMessage(d) => d.status < 0x100 && MaskClear(d.status % 0x100, 0xe0)
    case RecoveryLogDataMessage(l) => |l.data| == 6
    case AttitudeTiltMessage(t) => t.magnitude < 0x80 && t.direction < 0x200
    case LpsMessage(l) => MaskClear(l.pressure / 0x100, 0xf8)
    case ControlRollMessage(c) => MaskClear(c.flags, 0xe0) && RangeFlagsAgree(c.reference, c.deviation, c.flags)
    case _ => true
  }

  function IdOf(m: RxMessage): u16 {
    match m
    case ResultMessage(_) => 0x011
    case TimeRequestMessage(_) => 0x012
    case EventMessage(_) => 0x020
    case KinematicsMessage(_) => 0x100
    case ControlMessage(_) => 0x101
    case MissionStatusMessage(_) => 0x102
    case PowerTimeMessage(_) => 0x103
    case DescentCoreMessage(_) => 0x104
    case RecoveryStatusMessage(_) => 0x105
    case RecoveryLogDataMessage(_) => 0x106
    case AttitudeTiltMessage(_) => 0x107
    case LpsMessage(_) => 0x108
    case AirspeedMessage(_) => 0x109
    case ControlRollMessage(_) => 0x10a
  }

  function PayloadOf(m: RxMessage): seq<u8>
    requires WellFormed(m)
  {
    match m
    case ResultMessage(r) => [r.transactionId, r.command, RawPhase(r.phase), RawReason(r.reason)] + Le32(r.detail)
    case TimeRequestMessage(requestId) => [requestId]
    case EventMessage(e) => [e.sequence] + Le16(e.flags) + [RawState(e.state)] + Le16(e.elapsed) + Le16(e.detail)
    case KinematicsMessage(k) => [k.sequence] + Le16(k.roll) + Le16(k.rollRate) + [k.finAngle] + Le16(k.finRate)
    case ControlMessage(c) => [c.sequence] + Le16(c.requestedTorque) + [c.elapsed]
    case MissionStatusMessage(s) =>
      [s.sequence, RawState(s.state)] + Le16(s.status) + [s.config, RawFinMode(s.finMode), RawParaMode(s.paraMode),
                                                         s.paraAngle]
    case PowerTimeMessage(p) =>
      [p.sequence, p.logicVoltage, p.motorVoltage] + Le16(p.descentElapsed) + Le16(p.recoveryElapsed) + [p.flags]
    case DescentCoreMessage(d) => [d.sequence] + Le16(d.status) + [d.paraAngle]
    case RecoveryStatusMessage(s) =>
      [RawOpcode(s.opcode), s.transferId, RawStatusCode(s.status), RawRecoverySource(s.source)] + Le32(s.totalSize)
    case RecoveryLogDataMessage(l) => [l.transferId, l.sequence] + l.data
    case AttitudeTiltMessage(t) => [t.sequence] + Le16(t.magnitude + 0x80 * t.direction)
    case LpsMessage(l) => [l.sequence] + Le16(l.pressure) + [l.temperature]
    case AirspeedMessage(a) => [a.sequence, a.airspeed]
    case ControlRollMessage(c) =>
      [c.sequence, SCHEMA_VERSION] + Le16(c.reference) + Le16(c.deviation) + [c.flags, c.captureEventSequence]
  }

  lemma ResultCanonical(data: seq<u8>, m: RxMessage)
    ensures DecodeStandard(0x011, data) == Ok(m) <==> m.ResultMessage? && WellFormed(m) && data == PayloadOf(m)
  {
    hide FromLe32, Le32;
    if |data| == 8 && m.ResultMessage? {
      Le32Inverse(m.result.detail, data[4], data[5], data[6], data[7]);
      assert data == data[..4] + data[4..];
      assert data[4..] == [data[4], data[5], data[6], data[7]];
    }
  }

  lemma TimeRequestCanonical(data: seq<u8>, m: RxMessage)
    ensures DecodeStandard(0x012, data) == Ok(m) <==> m.TimeRequestMessage? && WellFormed(m) && data == PayloadOf(m)
  {
  }

  lemma EventCanonical(data: seq<u8>, m: RxMessage)
    ensures DecodeStandard(0x020, data) == Ok(m) <==> m.EventMessage? && WellFormed(m) && data == PayloadOf(m)
  {
  }

  lemma KinematicsCanonical(data: seq<u8>, m: RxMessage)
    ensures DecodeStandard(0x100, data) == Ok(m) <==> m.KinematicsMessage? && WellFormed(m) && data == PayloadOf(m)
  {
  }

  lemma ControlCanonical(data: seq<u8>, m: RxMessage)
    ensures DecodeStandard(0x101, data) == Ok(m) <==> m.ControlMessage? && WellFormed(m) && data == PayloadOf(m)
  {
  }

  lemma MissionStatusCanonical(data: seq<u8>, m: RxMessage)
    ensures DecodeStandard(0x102, data) == Ok(m) <==> m.MissionStatusMessage? && WellFormed(m) && data == PayloadOf(m)
  {
  }

  lemma PowerTimeCanonical(data: seq<u8>, m: RxMessage)
    ensures DecodeStandard(0x103, data) == Ok(m) <==> m.PowerTimeMessage? && WellFormed(m) && data == PayloadOf(m)
  {
  }

  lemma DescentCoreCanonical(data: seq<u8>, m: RxMessage)
    ensures DecodeStandard(0x104, data) == Ok(m) <==> m.DescentCoreMessage? && WellFormed(m) && data == PayloadOf(m)
  {
  }

  lemma RecoveryStatusCanonical(data: seq<u8>, m: RxMessage)
    ensures DecodeStandard(0x105, data) == Ok(m) <==> m.RecoveryStatusMessage? && WellFormed(m) && data == PayloadOf(m)
  {
    hide Le32, FromLe32;
    if |data| == 8 && m.RecoveryStatusMessage? {
      Le32Inverse(m.recoveryStatus.totalSize, data[4], data[5], data[6], data[7]);
      assert data == data[..4] + data[4..];
      assert data[..4] == [data[0], data[1], data[2], data[3]];
      assert data[4..] == [data[4], data[5], data[6], data[7]];
      assert PayloadOf(m)[4..] == Le32(m.recoveryStatus.totalSize);
      assert PayloadOf(m) == PayloadOf(m)[..4] + PayloadOf(m)[4..];
    }
  }

  lemma RecoveryLogCanonical(data: seq<u8>, m: RxMessage)
    ensures DecodeStandard(0x106, data) == Ok(m) <==> m.RecoveryLogDataMessage? && WellFormed(m) && data == PayloadOf(m)
  {
    if |data| == 8 {
      assert data == [data[0], data[1]] + data[2..8];
    }
    if m.RecoveryLogDataMessage? && WellFormed(m) {
      assert PayloadOf(m)[2..8] == m.logData.data;
    }
  }

  lemma AttitudeTiltCanonical(data: seq<u8>, m: RxMessage)
    ensures DecodeStandard(0x107, data) == Ok(m) <==> m.AttitudeTiltMessage? && WellFormed(m) && data == PayloadOf(m)
  {
  }

  lemma LpsCanonical(data: seq<u8>, m: RxMessage)
    ensures DecodeStandard(0x108, data) == Ok(m) <==> m.LpsMessage? && WellFormed(m) && data == PayloadOf(m)
  {
  }

  lemma AirspeedCanonical(data: seq<u8>, m: RxMessage)
    ensures DecodeStandard(0x109, data) == Ok(m) <==> m.AirspeedMessage? && WellFormed(m) && data == PayloadOf(m)
  {
  }

  lemma ControlRollCanonical(data: seq<u8>, m: RxMessage)
    ensures DecodeStandard(0x10a, data) == Ok(m) <==> m.ControlRollMessage? && WellFormed(m) && data == PayloadOf(m)
  {
  }


  /** Decoding accepts exactly the encodings of well-formed messages, one frame per message:
      any deviation in identifier, length, reserved bit or enumeration is rejected. */
  lemma DecodingIsCanonical(id: u16, data: seq<u8>, m: RxMessage)
    ensures DecodeStandard(id, data) == Ok(m) <==> WellFormed(m) && id == IdOf(m) && data == PayloadOf(m)
  {
    hide DecodeStandard, WellFormed, PayloadOf;
    match id
    case 0x011 => ResultCanonical(data, m);
    case 0x012 => TimeRequestCanonical(data, m);
    case 0x020 => EventCanonical(data, m);
    case 0x100 => KinematicsCanonical(data, m);
    case 0x101 => ControlCanonical(data, m);
    case 0x102 => MissionStatusCanonical(data, m);
    case 0x103 => PowerTimeCanonical(data, m);
    case 0x104 => DescentCoreCanonical(data, m);
    case 0x105 => RecoveryStatusCanonical(data, m);
    case 0x106 => RecoveryLogCanonical(data, m);
    case 0x107 => AttitudeTiltCanonical(data, m);
    case 0x108 => LpsCanonical(data, m);
    case 0x109 => AirspeedCanonical(data, m);
    case 0x10a => ControlRollCanonical(data, m);
    case _ => UnknownIdRejected(id, data);
  }

  predicate IsKnownId(id: u16) {
    0x011 <= id <= 0x012 || id == 0x020 || 0x100 <= id <= 0x10a
  }

  lemma UnknownIdRejected(id: u16, data: seq<u8>)
    requires !IsKnownId(id)
    ensures DecodeStandard(id, data) == Err(UnknownId(id))
    ensures forall m :: IdOf(m) != id
  {
  }
}
