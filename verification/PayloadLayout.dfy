/** Where the ground finds each field in a frame: bit offsets and widths of every LoRa application packet
    (src/payload.rs:226-362), counted from the first application byte, least significant bit first. */
module PayloadLayout {
  import opened Prelude
  import opened Bits
  import opened BitPacking
  import opened Payload
  import CanProtocol

  /** The number in `width` bits from `offset` on, after the three prefix bytes. */
  function Field(frame: seq<u8>, offset: nat, width: nat): nat {
    if 24 + offset + width <= 8 * |frame| then FromBits(BitsOf(frame)[24 + offset..24 + offset + width]) else 0
  }

  datatype Place = Place(offset: nat, width: nat, value: nat)

  function FlightPlaces(p: Packet): seq<Place>
    requires p.Flight?
  {
    [Place(0, 8, Code(p.header)), Place(8, 16, p.flightStatus), Place(24, 16, p.roll), Place(40, 16, p.rollRate),
     Place(56, 7, p.tiltMagnitude), Place(63, 9, p.tiltDirection), Place(72, 8, p.finAngle), Place(80, 16, p.finRate),
     Place(96, 11, p.pressure), Place(107, 8, p.temperature), Place(115, 8, p.airspeed),
     Place(123, 12, p.requestedTorque), Place(135, 8, p.flightElapsed), Place(143, 16, p.east),
     Place(159, 16, p.north), Place(175, 9, p.height)]
  }

  function CommandReceivePlaces(p: Packet): seq<Place>
    requires p.CommandReceive?
  {
    [Place(0, 8, 0xa0), Place(8, 24, p.status), Place(32, 8, p.motorProfile), Place(40, 7, p.tiltMagnitude),
     Place(47, 9, p.tiltDirection), Place(56, 4, p.finMode), Place(60, 4, p.paraMode), Place(64, 8, p.finAngle),
     Place(72, 8, p.paraAngle), Place(80, 11, p.pressure), Place(91, 8, p.temperature), Place(99, 8, p.airspeed),
     Place(107, 8, p.logicVoltage), Place(115, 8, p.motorVoltage), Place(123, 16, p.east), Place(139, 16, p.north),
     Place(155, 9, p.height), Place(164, 16, p.displayRoll), Place(180, 4, 0)]
  }

  function DescentPlaces(p: Packet): seq<Place>
    requires p.Descent?
  {
    [Place(0, 8, 0xa4), Place(8, 13, p.descentStatus), Place(21, 11, p.pressure), Place(32, 8, p.temperature),
     Place(40, 8, p.paraAngle), Place(48, 16, p.elapsed), Place(64, 16, p.east), Place(80, 16, p.north),
     Place(96, 9, p.height), Place(105, 7, 0)]
  }

  function BeaconPlaces(p: Packet): seq<Place>
    requires p.RecoveryBeacon?
  {
    [Place(0, 8, 0xa5), Place(8, 8, p.logicVoltage), Place(16, 8, p.motorVoltage), Place(24, 16, p.east),
     Place(40, 16, p.north), Place(56, 9, p.height), Place(65, 16, p.elapsed), Place(81, 7, 0)]
  }

  function FallbackPlaces(p: Packet): seq<Place>
    requires p.Fallback?
  {
    [Place(0, 8, 0xa8), Place(8, 8, 1), Place(16, 8, p.sequence), Place(24, 8, p.primaryLossReason),
     Place(32, 16, p.statusFlags), Place(48, 8, p.lastValidMissionState), Place(56, 8, p.gnssState),
     Place(64, 16, p.missionStatusAge), Place(80, 16, p.anyMissionPeriodicAge), Place(96, 16, p.powerTimeAge),
     Place(112, 16, p.east), Place(128, 16, p.north), Place(144, 16, p.height), Place(160, 8, p.logicVoltage),
     Place(168, 8, p.motorVoltage), Place(176, 8, p.canHealth)]
  }

  function LogDataPlaces(p: Packet): seq<Place>
    requires p.RecoveryLogData?
  {
    var flags := (if p.source then 1 else 0) + (if p.endOfFile then 2 else 0);
    [Place(0, 8, 0xa6), Place(8, 8, p.transferId), Place(16, 8, flags), Place(24, 24, p.offset),
     Place(48, 8, p.dataLength)]
    + seq(16, k requires 0 <= k < 16 => Place(56 + 8 * k, 8, p.data[k]))
  }

  /** The places and values of all fields of a packet. */
  function Places(p: Packet): seq<Place> {
    match p
    case CommandReceive(_, _, _, _, _, _, _, _, _, _, _, _, _, _, _, _, _) => CommandReceivePlaces(p)
    case Flight(_, _, _, _, _, _, _, _, _, _, _, _, _, _, _, _) => FlightPlaces(p)
    case Descent(_, _, _, _, _, _, _, _) => DescentPlaces(p)
    case RecoveryBeacon(_, _, _, _, _, _) => BeaconPlaces(p)
    case Fallback(_, _, _, _, _, _, _, _, _, _, _, _, _, _) => FallbackPlaces(p)
    case RecoveryLogData(_, _, _, _, _, _) => LogDataPlaces(p)
    case CommandResult(_, _, _, _, _) =>
      [Place(0, 8, 0xb0), Place(8, 8, p.transactionId), Place(16, 8, p.command),
       Place(24, 8, CanProtocol.RawPhase(p.phase)), Place(32, 8, CanProtocol.RawReason(p.reason)),
       Place(40, 32, p.detail)]
    case GroundTimeRequest(requestId) => [Place(0, 8, 0xb1), Place(8, 8, requestId)]
    case ControlRoll(_, _, _, _) =>
      [Place(0, 8, 0xa7), Place(8, 8, 2), Place(16, 16, p.reference), Place(32, 16, p.deviation), Place(48, 8, p.flags),
       Place(56, 8, p.captureEventSequence)]
  }

  // ---- Fields of a packed body

  lemma {:induction false} ReadAt(bits: seq<bool>, widths: seq<nat>, i: nat)
    requires Total(widths) <= |bits| && i < |widths|
    ensures Total(widths[..i]) + widths[i] <= |bits|
    ensures Read(bits, widths)[i] == FromBits(bits[Total(widths[..i])..Total(widths[..i]) + widths[i]])
    decreases |widths|
  {
    var n := |widths| - 1;
    if i < n {
      assert widths[..n][..i] == widths[..i];
      ReadAt(bits, widths[..n], i);
    }
  }

  /** Place `i` follows the one before it and has the width and value of field `i`. */
  predicate AgreesAt(places: seq<Place>, widths: seq<nat>, values: seq<u32>, i: nat)
    requires i < |places| == |widths| == |values|
  {
    && places[i].width == widths[i] && places[i].value == values[i]
    && places[i].offset == if i == 0 then 0 else places[i - 1].offset + places[i - 1].width
  }

  predicate Agree(places: seq<Place>, widths: seq<nat>, values: seq<u32>) {
    && |places| == |widths| == |values|
    && forall i | 0 <= i < |places| :: AgreesAt(places, widths, values, i)
  }

  lemma {:induction false} OffsetIsTotal(places: seq<Place>, widths: seq<nat>, values: seq<u32>, i: nat)
    requires Agree(places, widths, values) && i < |widths|
    ensures Total(widths[..i]) == places[i].offset
    decreases i
  {
    assert AgreesAt(places, widths, values, i);
    if i > 0 {
      OffsetIsTotal(places, widths, values, i - 1);
      assert AgreesAt(places, widths, values, i - 1);
      assert widths[..i][..i - 1] == widths[..i - 1];
    } else {
      assert widths[..0] == [];
    }
  }

  /** The bits of a byte string do not depend on what stands around it. */
  lemma BitsInside(front: seq<u8>, body: seq<u8>, rest: seq<u8>, from: nat, until: nat)
    requires from <= until <= 8 * |body|
    ensures BitsOf(front + body + rest)[8 * |front| + from..8 * |front| + until] == BitsOf(body)[from..until]
  {
    var all := front + body + rest;
    forall j | from <= j < until
      ensures BitsOf(all)[8 * |front| + j] == BitsOf(body)[j]
    {
      assert (8 * |front| + j) / 8 == |front| + j / 8 && (8 * |front| + j) % 8 == j % 8;
      assert all[|front| + j / 8] == body[j / 8];
    }
  }

  /** The body of a frame reads back as the values that were packed. */
  lemma BodyReads(p: Packet, frame: seq<u8>)
    requires Encode(p) == Ok(frame)
    ensures Check(p).Pass? && frame == LORA_PREFIX + Body(p) + [XorChecksum(Body(p))]
    ensures Total(Widths(HeaderFor(p))) <= |BitsOf(Body(p))|
    ensures Read(BitsOf(Body(p)), Widths(HeaderFor(p))) == Values(p)
  {
    var v, w := Values(p), Widths(HeaderFor(p));
    assert Fits(v, w);
    NoPadding(p);
    hide Values, Widths, HeaderFor, Check, Body, Fits, Encode, BitsOf, XorChecksum, Code, Read, Padded;
    ReadPack(v, w, []);
    assert Pack(v, w) + [] == Pack(v, w);
  }

  /** The fields of an encoded packet stand at places that agree with its layout. */
  lemma FieldsInPlace(p: Packet, frame: seq<u8>, places: seq<Place>)
    requires Encode(p) == Ok(frame) && Check(p).Pass?
    requires Agree(places, Widths(HeaderFor(p)), Values(p))
    ensures forall i | 0 <= i < |places| :: Field(frame, places[i].offset, places[i].width) == places[i].value
  {
    hide Values, Widths, HeaderFor, Check, Body, Pack, Encode, FromBits, BitsOf, XorChecksum, Read, Field, Total;
    BodyReads(p, frame);
    var w, body := Widths(HeaderFor(p)), Body(p);
    forall i: nat | i < |places|
      ensures Field(frame, places[i].offset, places[i].width) == places[i].value
    {
      assert AgreesAt(places, w, Values(p), i);
      ReadAt(BitsOf(body), w, i);
      OffsetIsTotal(places, w, Values(p), i);
      FieldInside(body, [XorChecksum(body)], places[i].offset, places[i].width);
    }
  }

  lemma FieldInside(body: seq<u8>, sum: seq<u8>, offset: nat, width: nat)
    requires offset + width <= 8 * |body|
    ensures Field(LORA_PREFIX + body + sum, offset, width) == FromBits(BitsOf(body)[offset..offset + width])
  {
    hide FromBits, BitsOf;
    BitsInside(LORA_PREFIX, body, sum, offset, offset + width);
  }

  // ---- Each packet

  lemma FlightAgrees(p: Packet)
    requires p.Flight? && Check(p).Pass?
    ensures Agree(FlightPlaces(p), FLIGHT_WIDTHS, FlightValues(p))
  {
  }

  lemma CommandReceiveAgrees(p: Packet)
    requires p.CommandReceive?
    ensures Agree(CommandReceivePlaces(p), Widths(CommandReceiveHeader), CommandReceiveValues(p))
  {
    CommandReceiveFront(p);
    CommandReceiveRear(p);
    hide CommandReceivePlaces, CommandReceiveValues, Widths, AgreesAt;
  }

  lemma CommandReceiveFront(p: Packet)
    requires p.CommandReceive?
    ensures var places, w, v := CommandReceivePlaces(p), Widths(CommandReceiveHeader), CommandReceiveValues(p);
            |places| == |w| == |v| == 19 && forall i | 0 <= i < 10 :: AgreesAt(places, w, v, i)
  {
  }

  lemma CommandReceiveRear(p: Packet)
    requires p.CommandReceive?
    ensures var places, w, v := CommandReceivePlaces(p), Widths(CommandReceiveHeader), CommandReceiveValues(p);
            |places| == |w| == |v| == 19 && forall i | 10 <= i < 19 :: AgreesAt(places, w, v, i)
  {
  }

  lemma DescentAgrees(p: Packet)
    requires p.Descent?
    ensures Agree(DescentPlaces(p), Widths(DescentHeader), Values(p))
  {
  }

  lemma BeaconAgrees(p: Packet)
    requires p.RecoveryBeacon?
    ensures Agree(BeaconPlaces(p), Widths(RecoveryBeaconHeader), Values(p))
  {
  }

  lemma FallbackAgrees(p: Packet)
    requires p.Fallback?
    ensures Agree(FallbackPlaces(p), Widths(FallbackHeader), FallbackValues(p))
  {
    FallbackFront(p);
    FallbackRear(p);
    hide FallbackPlaces, FallbackValues, Widths, AgreesAt;
  }

  lemma FallbackFront(p: Packet)
    requires p.Fallback?
    ensures var places, w, v := FallbackPlaces(p), Widths(FallbackHeader), FallbackValues(p);
            |places| == |w| == |v| == 16 && forall i | 0 <= i < 8 :: AgreesAt(places, w, v, i)
  {
  }

  lemma FallbackRear(p: Packet)
    requires p.Fallback?
    ensures var places, w, v := FallbackPlaces(p), Widths(FallbackHeader), FallbackValues(p);
            |places| == |w| == |v| == 16 && forall i | 8 <= i < 16 :: AgreesAt(places, w, v, i)
  {
  }

  lemma LogDataAgrees(p: Packet)
    requires p.RecoveryLogData?
    ensures Agree(LogDataPlaces(p), Widths(RecoveryLogDataHeader), Values(p))
  {
    var places, w, v := LogDataPlaces(p), Widths(RecoveryLogDataHeader), Values(p);
    forall i: nat | 5 <= i < 21
      ensures places[i] == Place(56 + 8 * (i - 5), 8, v[i]) && w[i] == 8
    {
    }
    hide Values, HeaderFor;
  }

  lemma ShortAgrees(p: Packet)
    requires p.CommandResult? || p.GroundTimeRequest? || p.ControlRoll?
    ensures Agree(Places(p), Widths(HeaderFor(p)), Values(p))
  {
  }

  /** In every frame, every field of every packet stands at its place. */
  lemma EveryFieldInPlace(p: Packet, frame: seq<u8>)
    requires Encode(p) == Ok(frame)
    ensures var places := Places(p);
            forall i | 0 <= i < |places| :: Field(frame, places[i].offset, places[i].width) == places[i].value
  {
    hide Agree, FlightPlaces, CommandReceivePlaces, DescentPlaces, BeaconPlaces, FallbackPlaces, LogDataPlaces, Field;
    hide FlightValues, CommandReceiveValues, FallbackValues;
    assert Check(p).Pass?;
    match p {
      case CommandReceive(_, _, _, _, _, _, _, _, _, _, _, _, _, _, _, _, _) => CommandReceiveAgrees(p);
      case Flight(_, _, _, _, _, _, _, _, _, _, _, _, _, _, _, _) =>
        FlightWidths(p);
        FlightAgrees(p);
      case Descent(_, _, _, _, _, _, _, _) => DescentAgrees(p);
      case RecoveryBeacon(_, _, _, _, _, _) => BeaconAgrees(p);
      case Fallback(_, _, _, _, _, _, _, _, _, _, _, _, _, _) => FallbackAgrees(p);
      case RecoveryLogData(_, _, _, _, _, _) => LogDataAgrees(p);
      case _ => ShortAgrees(p);
    }
    hide Encode, Check, Values, Widths;
    FieldsInPlace(p, frame, Places(p));
  }
}
