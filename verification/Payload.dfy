/** LoRa application packets (src/payload.rs): their field layouts, the frame they are sent in, and
    the reader that recovers every packet from its frame. */
module Payload {
  import opened Prelude
  import opened Bits
  import opened BitPacking
  import CanProtocol

  const LORA_PREFIX: seq<u8> := [0x00, 0x00, 0x04]
  const MAX_APPLICATION_LENGTH: nat := 24

  datatype PacketHeader =
    | CommandReceiveHeader | LiftoffDetectionHeader | EngineBurnHeader | ControlHeader | DescentHeader
    | RecoveryBeaconHeader | RecoveryLogDataHeader | ControlRollHeader | FallbackHeader | CommandResultHeader
    | GroundTimeRequestHeader

  function Code(header: PacketHeader): u8 {
    match header
    case CommandReceiveHeader => 0xa0
    case LiftoffDetectionHeader => 0xa1
    case EngineBurnHeader => 0xa2
    case ControlHeader => 0xa3
    case DescentHeader => 0xa4
    case RecoveryBeaconHeader => 0xa5
    case RecoveryLogDataHeader => 0xa6
    case ControlRollHeader => 0xa7
    case FallbackHeader => 0xa8
    case CommandResultHeader => 0xb0
    case GroundTimeRequestHeader => 0xb1
  }

  function HeaderOf(code: u8): (h: Option<PacketHeader>)
    ensures forall header :: h == Some(header) <==> Code(header) == code
  {
    match code
    case 0xa0 => Some(CommandReceiveHeader)
    case 0xa1 => Some(LiftoffDetectionHeader)
    case 0xa2 => Some(EngineBurnHeader)
    case 0xa3 => Some(ControlHeader)
    case 0xa4 => Some(DescentHeader)
    case 0xa5 => Some(RecoveryBeaconHeader)
    case 0xa6 => Some(RecoveryLogDataHeader)
    case 0xa7 => Some(ControlRollHeader)
    case 0xa8 => Some(FallbackHeader)
    case 0xb0 => Some(CommandResultHeader)
    case 0xb1 => Some(GroundTimeRequestHeader)
    case _ => None
  }

  type Block = s: seq<u8> | |s| == 16 witness [0, 0, 0, 0, 0, 0, 0, 0, 0, 0, 0, 0, 0, 0, 0, 0]

  datatype Packet =
    | CommandReceive(
        status: u32, motorProfile: u8, tiltMagnitude: u8, tiltDirection: u16, finMode: u8, paraMode: u8, finAngle: u8,
        paraAngle: u8, pressure: u16, temperature: u8, airspeed: u8, logicVoltage: u8, motorVoltage: u8, east: u16,
        north: u16, height: u16, displayRoll: u16)
    | Flight(
        header: PacketHeader, flightStatus: u16, roll: u16, rollRate: u16, tiltMagnitude: u8, tiltDirection: u16,
        finAngle: u8, finRate: u16, pressure: u16, temperature: u8, airspeed: u8, requestedTorque: u16,
        flightElapsed: u8, east: u16, north: u16, height: u16)
    | Descent(
        descentStatus: u16, pressure: u16, temperature: u8, paraAngle: u8, elapsed: u16, east: u16, north: u16,
        height: u16)
    | RecoveryBeacon(logicVoltage: u8, motorVoltage: u8, east: u16, north: u16, height: u16, elapsed: u16)
    | Fallback(
        sequence: u8, primaryLossReason: u8, statusFlags: u16, lastValidMissionState: u8, gnssState: u8,
        missionStatusAge: u16, anyMissionPeriodicAge: u16, powerTimeAge: u16, east: u16, north: u16, height: u16,
        logicVoltage: u8, motorVoltage: u8, canHealth: u8)
    | RecoveryLogData(transferId: u8, source: bool, endOfFile: bool, offset: u32, dataLength: u8, data: Block)
    | CommandResult(
        transactionId: u8, command: u8, phase: CanProtocol.Phase, reason: CanProtocol.Reason, detail: u32)
    | GroundTimeRequest(requestId: u8)
    | ControlRoll(reference: u16, deviation: u16, flags: u8, captureEventSequence: u8)

  datatype EncodeError = InvalidHeader | InvalidField | OutOfRange | ReservedTransactionId

  function HeaderFor(p: Packet): PacketHeader {
    match p
    case CommandReceive(_, _, _, _, _, _, _, _, _, _, _, _, _, _, _, _, _) => CommandReceiveHeader
    case Flight(header, _, _, _, _, _, _, _, _, _, _, _, _, _, _, _) => header
    case Descent(_, _, _, _, _, _, _, _) => DescentHeader
    case RecoveryBeacon(_, _, _, _, _, _) => RecoveryBeaconHeader
    case Fallback(_, _, _, _, _, _, _, _, _, _, _, _, _, _) => FallbackHeader
    case RecoveryLogData(_, _, _, _, _, _) => RecoveryLogDataHeader
    case CommandResult(_, _, _, _, _) => CommandResultHeader
    case GroundTimeRequest(_) => GroundTimeRequestHeader
    case ControlRoll(_, _, _, _) => ControlRollHeader
  }

  /** What the encoders check before they write (lines 192-204, 248-253, 303-311, 334-336, 353-355). */
  function Check(p: Packet): Outcome<EncodeError> {
    match p
    case Flight(header, _, _, _, _, _, _, _, _, _, _, _, _, _, _, _) =>
      if header.LiftoffDetectionHeader? || header.EngineBurnHeader? || header.ControlHeader? then Pass
      else Fail(InvalidHeader)
    case Fallback(_, _, _, _, _, _, _, _, _, _, _, _, _, _) =>
      if p.primaryLossReason > 7 || p.statusFlags >= 0x8000
         || (p.lastValidMissionState > 4 && p.lastValidMissionState != 0xff)
         || p.gnssState > 8 || p.height > 0x01ff || p.canHealth > 6
      then Fail(InvalidField)
      else Pass
    case RecoveryLogData(_, _, _, offset, dataLength, _) =>
      if offset > 0x00ff_ffff || dataLength > 16 then Fail(OutOfRange) else Pass
    case CommandResult(transactionId, _, _, _, _) =>
      if transactionId == 0 then Fail(ReservedTransactionId) else Pass
    case ControlRoll(reference, deviation, flags, _) =>
      if !CanProtocol.MaskClear(flags, 0xe0) || !CanProtocol.RangeFlagsAgree(reference, deviation, flags) then
        Fail(InvalidField)
      else Pass
    case _ => Pass
  }

  /** The widths of the fields of a frame, in order; the constant fields are included. */
  function Widths(header: PacketHeader): (w: seq<nat>)
    ensures w != [] && w[0] == 8 && forall i | 0 <= i < |w| :: w[i] <= 32
  {
    match header
    case CommandReceiveHeader => [8, 24, 8, 7, 9, 4, 4, 8, 8, 11, 8, 8, 8, 8, 16, 16, 9, 16, 4]
    case LiftoffDetectionHeader => FLIGHT_WIDTHS
    case EngineBurnHeader => FLIGHT_WIDTHS
    case ControlHeader => FLIGHT_WIDTHS
    case DescentHeader => [8, 13, 11, 8, 8, 16, 16, 16, 9, 7]
    case RecoveryBeaconHeader => [8, 8, 8, 16, 16, 9, 16, 7]
    case RecoveryLogDataHeader => [8, 8, 8, 24, 8, 8, 8, 8, 8, 8, 8, 8, 8, 8, 8, 8, 8, 8, 8, 8, 8]
    case ControlRollHeader => [8, 8, 16, 16, 8, 8]
    case FallbackHeader => [8, 8, 8, 8, 16, 8, 8, 16, 16, 16, 16, 16, 16, 8, 8, 8]
    case CommandResultHeader => [8, 8, 8, 8, 8, 32]
    case GroundTimeRequestHeader => [8, 8]
  }

  const FLIGHT_WIDTHS: seq<nat> := [8, 16, 16, 16, 7, 9, 8, 16, 11, 8, 8, 12, 8, 16, 16, 9]

  function CommandReceiveValues(p: Packet): (v: seq<u32>)
    requires p.CommandReceive?
    ensures |v| == 19
  {
    [0xa0, p.status, p.motorProfile, p.tiltMagnitude, p.tiltDirection, p.finMode, p.paraMode, p.finAngle,
     p.paraAngle, p.pressure, p.temperature, p.airspeed, p.logicVoltage, p.motorVoltage, p.east, p.north, p.height,
     p.displayRoll, 0]
  }

  function FlightValues(p: Packet): (v: seq<u32>)
    requires p.Flight? && Check(p).Pass?
    ensures |v| == 16
  {
    [Code(p.header), p.flightStatus, p.roll, p.rollRate, p.tiltMagnitude, p.tiltDirection, p.finAngle, p.finRate,
     p.pressure, p.temperature, p.airspeed, p.requestedTorque, p.flightElapsed, p.east, p.north, p.height]
  }

  function FallbackValues(p: Packet): (v: seq<u32>)
    requires p.Fallback?
    ensures |v| == 16
  {
    [0xa8, 1, p.sequence, p.primaryLossReason, p.statusFlags, p.lastValidMissionState, p.gnssState, p.missionStatusAge,
     p.anyMissionPeriodicAge, p.powerTimeAge, p.east, p.north, p.height, p.logicVoltage, p.motorVoltage, p.canHealth]
  }

  /** The values the encoders write, field by field. */
  function Values(p: Packet): (v: seq<u32>)
    requires p.Flight? ==> Check(p).Pass?
    ensures |v| == |Widths(HeaderFor(p))|
  {
    match p
    case CommandReceive(_, _, _, _, _, _, _, _, _, _, _, _, _, _, _, _, _) =>
      CommandReceiveValues(p)
    case Flight(_, _, _, _, _, _, _, _, _, _, _, _, _, _, _, _) =>
      FlightValues(p)
    case Descent(_, _, _, _, _, _, _, _) =>
      [0xa4, p.descentStatus, p.pressure, p.temperature, p.paraAngle, p.elapsed, p.east, p.north, p.height, 0]
    case RecoveryBeacon(_, _, _, _, _, _) =>
      [0xa5, p.logicVoltage, p.motorVoltage, p.east, p.north, p.height, p.elapsed, 0]
    case Fallback(_, _, _, _, _, _, _, _, _, _, _, _, _, _) =>
      FallbackValues(p)
    case RecoveryLogData(_, _, _, _, _, _) =>
      [0xa6, p.transferId, (if p.source then 1 else 0) + (if p.endOfFile then 2 else 0), p.offset, p.dataLength]
      + p.data
    case CommandResult(_, _, _, _, _) =>
      [0xb0, p.transactionId, p.command, CanProtocol.RawPhase(p.phase), CanProtocol.RawReason(p.reason), p.detail]
    case GroundTimeRequest(requestId) => [0xb1, requestId]
    case ControlRoll(_, _, _, _) =>
      [0xa7, CanProtocol.SCHEMA_VERSION, p.reference, p.deviation, p.flags, p.captureEventSequence]
  }

  /** The application bytes before the checksum. */
  function Body(p: Packet): seq<u8>
    requires Check(p).Pass?
  {
    BytesOf(Padded(Pack(Values(p), Widths(HeaderFor(p)))))
  }

  /** A frame: the fixed prefix, the packed fields and their XOR checksum. */
  function Encode(p: Packet): Result<seq<u8>, EncodeError> {
    var checked := Check(p);
    :- checked;
    if !Fits(Values(p), Widths(HeaderFor(p))) then Err(OutOfRange)
    else Ok(LORA_PREFIX + Body(p) + [XorChecksum(Body(p))])
  }

  // ---- The reader

  function As8(v: nat): u8 {
    v % U8_LIMIT
  }

  function As16(v: nat): u16 {
    v % U16_LIMIT
  }

  function As32(v: nat): u32 {
    v % U32_LIMIT
  }

  /** The packet with these field values. */
  function Build(header: PacketHeader, v: seq<nat>): (p: Option<Packet>)
    requires |v| == |Widths(header)|
  {
    match header
    case CommandReceiveHeader =>
      Some(CommandReceive(As32(v[1]), As8(v[2]), As8(v[3]), As16(v[4]), As8(v[5]), As8(v[6]), As8(v[7]), As8(v[8]),
                          As16(v[9]), As8(v[10]), As8(v[11]), As8(v[12]), As8(v[13]), As16(v[14]), As16(v[15]),
                          As16(v[16]), As16(v[17])))
    case DescentHeader =>
      Some(Descent(As16(v[1]), As16(v[2]), As8(v[3]), As8(v[4]), As16(v[5]), As16(v[6]), As16(v[7]), As16(v[8])))
    case RecoveryBeaconHeader =>
      Some(RecoveryBeacon(As8(v[1]), As8(v[2]), As16(v[3]), As16(v[4]), As16(v[5]), As16(v[6])))
    case RecoveryLogDataHeader =>
      Some(RecoveryLogData(As8(v[1]), v[2] % 2 == 1, v[2] / 2 == 1, As32(v[3]), As8(v[4]),
                           seq(16, i requires 0 <= i < 16 => As8(v[5 + i]))))
    case ControlRollHeader => Some(ControlRoll(As16(v[2]), As16(v[3]), As8(v[4]), As8(v[5])))
    case FallbackHeader =>
      Some(Fallback(As8(v[2]), As8(v[3]), As16(v[4]), As8(v[5]), As8(v[6]), As16(v[7]), As16(v[8]), As16(v[9]),
                    As16(v[10]), As16(v[11]), As16(v[12]), As8(v[13]), As8(v[14]), As8(v[15])))
    case CommandResultHeader =>
      var phase, reason := CanProtocol.DecodePhase(As8(v[3])), CanProtocol.DecodeReason(As8(v[4]));
      if phase.None? || reason.None? then None
      else Some(CommandResult(As8(v[1]), As8(v[2]), phase.value, reason.value, As32(v[5])))
    case GroundTimeRequestHeader => Some(GroundTimeRequest(As8(v[1])))
    case _ =>
      Some(Flight(header, As16(v[1]), As16(v[2]), As16(v[3]), As8(v[4]), As16(v[5]), As8(v[6]), As16(v[7]),
                  As16(v[8]), As8(v[9]), As8(v[10]), As16(v[11]), As8(v[12]), As16(v[13]), As16(v[14]), As16(v[15])))
  }

  /** The packet a frame carries. */
  function Decode(frame: seq<u8>): Option<Packet> {
    if |frame| < 5 || HeaderOf(frame[3]).None? then None
    else
      var header, bits := HeaderOf(frame[3]).value, BitsOf(frame[3..|frame| - 1]);
      if |bits| < Total(Widths(header)) then None else Build(header, Read(bits, Widths(header)))
  }

  // ---- Frame lengths

  /** The bytes of an application packet, checksum included. */
  function ApplicationLength(header: PacketHeader): (n: nat)
    ensures 3 <= n <= MAX_APPLICATION_LENGTH
  {
    match header
    case DescentHeader => 15
    case RecoveryBeaconHeader => 12
    case ControlRollHeader => 9
    case CommandResultHeader => 10
    case GroundTimeRequestHeader => 3
    case _ => 24
  }

  lemma CommandReceiveTotal()
    ensures Total(Widths(CommandReceiveHeader)) == 184
  {
    OffsetsEndAtTotal(Widths(CommandReceiveHeader),
                      [0, 8, 32, 40, 47, 56, 60, 64, 72, 80, 91, 99, 107, 115, 123, 139, 155, 164, 180, 184]);
  }

  lemma FlightTotal()
    ensures Total(FLIGHT_WIDTHS) == 184
  {
    OffsetsEndAtTotal(FLIGHT_WIDTHS, [0, 8, 24, 40, 56, 63, 72, 80, 96, 107, 115, 123, 135, 143, 159, 175, 184]);
  }

  lemma RecoveryLogTotal()
    ensures Total(Widths(RecoveryLogDataHeader)) == 184
  {
    OffsetsEndAtTotal(Widths(RecoveryLogDataHeader),
                      [0, 8, 16, 24, 48, 56, 64, 72, 80, 88, 96, 104, 112, 120, 128, 136, 144, 152, 160, 168, 176,
                       184]);
  }

  lemma FallbackTotal()
    ensures Total(Widths(FallbackHeader)) == 184
  {
    OffsetsEndAtTotal(Widths(FallbackHeader),
                      [0, 8, 16, 24, 32, 48, 56, 64, 80, 96, 112, 128, 144, 160, 168, 176, 184]);
  }

  lemma LayoutTotals(header: PacketHeader)
    ensures Total(Widths(header)) == 8 * (ApplicationLength(header) - 1)
  {
    hide Total;
    match header
    case CommandReceiveHeader => CommandReceiveTotal();
    case DescentHeader => OffsetsEndAtTotal(Widths(header), [0, 8, 21, 32, 40, 48, 64, 80, 96, 105, 112]);
    case RecoveryBeaconHeader => OffsetsEndAtTotal(Widths(header), [0, 8, 16, 24, 40, 56, 65, 81, 88]);
    case RecoveryLogDataHeader => RecoveryLogTotal();
    case ControlRollHeader => OffsetsEndAtTotal(Widths(header), [0, 8, 16, 32, 48, 56, 64]);
    case FallbackHeader => FallbackTotal();
    case CommandResultHeader => OffsetsEndAtTotal(Widths(header), [0, 8, 16, 24, 32, 40, 72]);
    case GroundTimeRequestHeader => OffsetsEndAtTotal(Widths(header), [0, 8, 16]);
    case _ => FlightTotal();
  }

  /** The fields fill whole bytes, so the bits of the body are the packed fields. */
  lemma NoPadding(p: Packet)
    requires Check(p).Pass?
    ensures var bits := Pack(Values(p), Widths(HeaderFor(p)));
            && |bits| == 8 * (ApplicationLength(HeaderFor(p)) - 1) && Padded(bits) == bits
            && |Body(p)| == ApplicationLength(HeaderFor(p)) - 1 && BitsOf(Body(p)) == bits
  {
    LayoutTotals(HeaderFor(p));
    hide Values, Widths, HeaderFor, Check;
    BytesInverse(Padded(Pack(Values(p), Widths(HeaderFor(p)))));
  }

  // ---- Which packets can be encoded

  /** The ranges of the fields that are narrower than their types, and what the encoders check. */
  predicate Encodable(p: Packet) {
    match p
    case CommandReceive(_, _, _, _, _, _, _, _, _, _, _, _, _, _, _, _, _) =>
      && p.status < 0x100_0000 && p.tiltMagnitude < 0x80 && p.tiltDirection < 0x200 && p.finMode < 0x10
      && p.paraMode < 0x10 && p.pressure < 0x800 && p.height < 0x200
    case Flight(_, _, _, _, _, _, _, _, _, _, _, _, _, _, _, _) =>
      && Check(p).Pass? && p.tiltMagnitude < 0x80 && p.tiltDirection < 0x200 && p.pressure < 0x800
      && p.requestedTorque < 0x1000 && p.height < 0x200
    case Descent(_, _, _, _, _, _, _, _) => p.descentStatus < 0x2000 && p.pressure < 0x800 && p.height < 0x200
    case RecoveryBeacon(_, _, _, _, _, _) => p.height < 0x200
    case _ => Check(p).Pass?
  }

  lemma Powers()
    ensures Pow2(4) == 0x10 && Pow2(7) == 0x80 && Pow2(8) == 0x100 && Pow2(9) == 0x200 && Pow2(11) == 0x800
    ensures Pow2(12) == 0x1000 && Pow2(13) == 0x2000 && Pow2(16) == 0x1_0000 && Pow2(24) == 0x100_0000
    ensures Pow2(32) == U32_LIMIT
  {
    FullWord();
  }

  lemma CommandReceiveFits(p: Packet)
    requires p.CommandReceive?
    ensures Fits(Values(p), Widths(CommandReceiveHeader)) <==> Encodable(p)
  {
    hide Pow2;
    Powers();
    var v, w := CommandReceiveValues(p), Widths(CommandReceiveHeader);
    if Fits(v, w) {
      assert v[1] < Pow2(w[1]) && v[3] < Pow2(w[3]) && v[4] < Pow2(w[4]) && v[5] < Pow2(w[5]) && v[6] < Pow2(w[6]);
      assert v[9] < Pow2(w[9]) && v[16] < Pow2(w[16]);
    }
  }

  lemma FlightFits(p: Packet)
    requires p.Flight? && Check(p).Pass?
    ensures Fits(Values(p), FLIGHT_WIDTHS) <==> Encodable(p)
  {
    hide Pow2;
    Powers();
    var v, w := FlightValues(p), FLIGHT_WIDTHS;
    if Fits(v, w) {
      assert v[4] < Pow2(w[4]) && v[5] < Pow2(w[5]) && v[8] < Pow2(w[8]) && v[11] < Pow2(w[11]) && v[15] < Pow2(w[15]);
    }
  }

  lemma DescentFits(p: Packet)
    requires p.Descent?
    ensures Fits(Values(p), Widths(DescentHeader)) <==> Encodable(p)
  {
    Powers();
    var v, w := Values(p), Widths(DescentHeader);
    hide Pow2;
    if Fits(v, w) {
      assert v[1] < Pow2(w[1]) && v[2] < Pow2(w[2]) && v[8] < Pow2(w[8]);
    }
  }

  lemma RecoveryBeaconFits(p: Packet)
    requires p.RecoveryBeacon?
    ensures Fits(Values(p), Widths(RecoveryBeaconHeader)) <==> Encodable(p)
  {
    Powers();
    var v, w := Values(p), Widths(RecoveryBeaconHeader);
    hide Pow2;
    if Fits(v, w) {
      assert v[5] < Pow2(w[5]);
    }
  }

  lemma CheckedFits(p: Packet)
    requires Check(p).Pass? && (p.Fallback? || p.CommandResult? || p.GroundTimeRequest? || p.ControlRoll?)
    ensures Fits(Values(p), Widths(HeaderFor(p)))
  {
    Powers();
    hide Pow2;
  }

  lemma RecoveryLogFits(p: Packet)
    requires Check(p).Pass? && p.RecoveryLogData?
    ensures Fits(Values(p), Widths(RecoveryLogDataHeader))
  {
    Powers();
    hide Pow2;
    var v, w := Values(p), Widths(RecoveryLogDataHeader);
    var front := v[..5];
    assert v == front + p.data;
    forall i | 0 <= i < |w|
      ensures v[i] < Pow2(w[i])
    {
      if i >= 5 {
        assert v[i] == p.data[i - 5] && w[i] == 8;
      } else {
        assert v[i] == front[i];
      }
    }
  }

  /** Encoding succeeds exactly on the packets whose fields are in range. */
  lemma EncodesExactly(p: Packet)
    ensures Encode(p).Ok? <==> Encodable(p)
  {
    if Check(p).Pass? {
      hide Values, Fits, Widths;
      match p
      case CommandReceive(_, _, _, _, _, _, _, _, _, _, _, _, _, _, _, _, _) => CommandReceiveFits(p);
      case Flight(_, _, _, _, _, _, _, _, _, _, _, _, _, _, _, _) =>
        FlightFits(p);
        FlightWidths(p);
      case Descent(_, _, _, _, _, _, _, _) => DescentFits(p);
      case RecoveryBeacon(_, _, _, _, _, _) => RecoveryBeaconFits(p);
      case RecoveryLogData(_, _, _, _, _, _) => RecoveryLogFits(p);
      case _ => CheckedFits(p);
    }
  }

  lemma FlightWidths(p: Packet)
    requires p.Flight? && Check(p).Pass?
    ensures Widths(p.header) == FLIGHT_WIDTHS
  {
  }

  // ---- Main results

  lemma {:induction false} PackStart(values: seq<u32>, widths: seq<nat>)
    requires |values| == |widths| > 0
    ensures widths[0] <= |Pack(values, widths)| && Pack(values, widths)[..widths[0]] == ToBits(values[0], widths[0])
  {
    var n := |widths| - 1;
    if n > 0 {
      PackStart(values[..n], widths[..n]);
    } else {
      assert Pack(values[..0], widths[..0]) == [];
    }
  }

  lemma FullByte(byte: u8)
    ensures FromBits(ToBits(byte, 8)) == byte
  {
    assert Pow2(8) == 0x100;
    FromToBits(byte, 8);
  }

  lemma ValuesStart(p: Packet)
    requires Check(p).Pass?
    ensures Values(p)[0] == Code(HeaderFor(p))
  {
  }

  /** The first byte of the body is the header code. */
  lemma BodyStartsWithCode(p: Packet)
    requires Check(p).Pass?
    ensures |Body(p)| > 0 && Body(p)[0] == Code(HeaderFor(p))
  {
    ValuesStart(p);
    hide Values, Widths, HeaderFor, Check, Body, Pack, BitsOf, Padded, ApplicationLength, Code, ToBits, FromBits;
    NoPadding(p);
    PackStart(Values(p), Widths(HeaderFor(p)));
    ByteBits(Body(p), 0);
    FullByte(Body(p)[0]);
    FullByte(Code(HeaderFor(p)));
  }

  lemma BlockAfter(front: seq<u32>, data: Block)
    requires |front| == 5
    ensures seq(16, i requires 0 <= i < 16 => As8((front + data)[5 + i])) == data
  {
  }

  lemma LogInverts(p: Packet)
    requires p.RecoveryLogData?
    ensures Build(RecoveryLogDataHeader, Values(p)) == Some(p)
  {
    var front := Values(p)[..5];
    assert Values(p) == front + p.data;
    BlockAfter(front, p.data);
    assert front[2] == (if p.source then 1 else 0) + (if p.endOfFile then 2 else 0);
    assert seq(16, i requires 0 <= i < 16 => As8(Values(p)[5 + i])) == p.data;
  }

  lemma FlightInverts(p: Packet)
    requires p.Flight? && Check(p).Pass?
    ensures Build(p.header, Values(p)) == Some(p)
  {
  }

  lemma CommandReceiveInverts(p: Packet)
    requires p.CommandReceive?
    ensures Build(CommandReceiveHeader, Values(p)) == Some(p)
  {
  }

  lemma DescentInverts(p: Packet)
    requires p.Descent?
    ensures Build(DescentHeader, Values(p)) == Some(p)
  {
  }

  lemma RecoveryBeaconInverts(p: Packet)
    requires p.RecoveryBeacon?
    ensures Build(RecoveryBeaconHeader, Values(p)) == Some(p)
  {
  }

  lemma FallbackInverts(p: Packet)
    requires p.Fallback?
    ensures Build(FallbackHeader, Values(p)) == Some(p)
  {
  }

  lemma CommandResultInverts(p: Packet)
    requires p.CommandResult?
    ensures Build(CommandResultHeader, Values(p)) == Some(p)
  {
  }

  lemma GroundTimeRequestInverts(p: Packet)
    requires p.GroundTimeRequest?
    ensures Build(GroundTimeRequestHeader, Values(p)) == Some(p)
  {
  }

  lemma ControlRollInverts(p: Packet)
    requires p.ControlRoll?
    ensures Build(ControlRollHeader, Values(p)) == Some(p)
  {
  }

  /** The field values determine the packet. */
  lemma BuildInverts(p: Packet)
    requires Check(p).Pass?
    ensures Build(HeaderFor(p), Values(p)) == Some(p)
  {
    hide Build, Values, Widths;
    match p
    case CommandReceive(_, _, _, _, _, _, _, _, _, _, _, _, _, _, _, _, _) => CommandReceiveInverts(p);
    case Flight(_, _, _, _, _, _, _, _, _, _, _, _, _, _, _, _) => FlightInverts(p);
    case Descent(_, _, _, _, _, _, _, _) => DescentInverts(p);
    case RecoveryBeacon(_, _, _, _, _, _) => RecoveryBeaconInverts(p);
    case Fallback(_, _, _, _, _, _, _, _, _, _, _, _, _, _) => FallbackInverts(p);
    case RecoveryLogData(_, _, _, _, _, _) => LogInverts(p);
    case CommandResult(_, _, _, _, _) => CommandResultInverts(p);
    case GroundTimeRequest(_) => GroundTimeRequestInverts(p);
    case ControlRoll(_, _, _, _) => ControlRollInverts(p);
  }

  lemma FrameParts(body: seq<u8>, sum: u8)
    ensures var frame := LORA_PREFIX + body + [sum];
            && |frame| == |body| + 4 && frame[..3] == LORA_PREFIX && frame[3..] == body + [sum]
            && frame[3..|frame| - 1] == body && (body != [] ==> frame[3] == body[0]) && frame[|frame| - 1] == sum
  {
  }

  /** Encoding is lossless: every field of every accepted packet is recovered from its frame. */
  lemma EncodingIsLossless(p: Packet, frame: seq<u8>)
    requires Encode(p) == Ok(frame)
    ensures Decode(frame) == Some(p)
  {
    var header, v, w := HeaderFor(p), Values(p), Widths(HeaderFor(p));
    NoPadding(p);
    BodyStartsWithCode(p);
    BuildInverts(p);
    assert Fits(v, w);
    assert frame == LORA_PREFIX + Body(p) + [XorChecksum(Body(p))];
    hide Values, Widths, HeaderFor, Check, Body, Pack, Build, HeaderOf, Code, Fits, Total, Read;
    ReadPack(v, w, []);
    assert Pack(v, w) + [] == Pack(v, w);
    FrameParts(Body(p), XorChecksum(Body(p)));
  }

  /** Different packets have different frames. */
  lemma FramesDiffer(p: Packet, q: Packet)
    ensures Encode(p).Ok? && Encode(p) == Encode(q) ==> p == q
  {
    hide Encode, Decode;
    if Encode(p).Ok? && Encode(p) == Encode(q) {
      EncodingIsLossless(p, Encode(p).value);
      EncodingIsLossless(q, Encode(q).value);
    }
  }

  /** A frame has the fixed length of its header and at most 24 application bytes; every bit is set in
      an even number of these, and no other final byte would do that. */
  lemma FrameIsClosed(p: Packet, frame: seq<u8>, last: u8)
    requires Encode(p) == Ok(frame)
    ensures |frame| == 3 + ApplicationLength(HeaderFor(p)) <= 3 + MAX_APPLICATION_LENGTH
    ensures frame[..3] == LORA_PREFIX && frame[3] == Code(HeaderFor(p))
    ensures EvenParity(frame[3..])
    ensures EvenParity(frame[3..|frame| - 1] + [last]) <==> last == frame[|frame| - 1]
  {
    NoPadding(p);
    BodyStartsWithCode(p);
    assert frame == LORA_PREFIX + Body(p) + [XorChecksum(Body(p))];
    hide Encode, Values, Widths, HeaderFor, Check, Body, Pack, Fits, XorChecksum, ApplicationLength, Code;
    hide BitsOf, Padded, EvenParity;
    FrameParts(Body(p), XorChecksum(Body(p)));
    ClosedIsEven(Body(p), XorChecksum(Body(p)));
    ClosedIsEven(Body(p), last);
  }

  // ---- The encoder as it runs (lines 169-219)

  method EncodePacket(p: Packet) returns (r: Result<seq<u8>, EncodeError>)
    ensures r == Encode(p)
  {
    hide Values, Widths, HeaderFor, Check, Total, Pack, Pow2, Fits, BytesOf, Padded, BitsOf, XorChecksum;
    hide ApplicationLength;
    var checked := Check(p);
    if checked.Fail? {
      return Err(checked.error);
    }
    var values, widths := Values(p), Widths(HeaderFor(p));
    LayoutTotals(HeaderFor(p));
    NoPadding(p);
    var writer := new BitWriter(MAX_APPLICATION_LENGTH);
    var written := writer.WriteFields(values, widths);
    if !written {
      return Err(OutOfRange);
    }
    var n := writer.ByteLength();
    ghost var body := writer.bytes[..n];
    writer.bytes[n] := XorChecksum(writer.bytes[..n]);
    assert writer.bytes[..n + 1] == body + [XorChecksum(body)];
    assert LORA_PREFIX + (body + [XorChecksum(body)]) == LORA_PREFIX + body + [XorChecksum(body)];
    r := Ok(LORA_PREFIX + writer.bytes[..n + 1]);
  }
}
