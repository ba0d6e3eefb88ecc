/** The board relays bytes unchanged between the uplink, the CAN bus and the LoRa downlink
    (src/lora_uplink.rs:72-131, src/tasks/lora_task.rs:94-101, 269-300,
    src/tasks/can_communication.rs:300-307, 407-423, src/tasks/lora_task_base.rs:541-559). */
module Relay {
  import opened Prelude
  import opened Bits
  import opened BitPacking
  import opened CanProtocol
  import CanTransmit
  import PeriodicPacket
  import Payload
  import Uplink

  // ---- Uplink to CAN

  /** The CAN message an accepted uplink becomes, once the tracker forwards it. */
  function CanMessageFor(c: Uplink.Command): Option<CanTransmit.TxMessage> {
    match c
    case MissionGeneric(request) => Some(CanTransmit.GenericRequest(request))
    case ActuatorEmergency(id) => Some(CanTransmit.ActuatorEmergencyStop(id))
    case LiftoffDetectionEmergency(id) => Some(CanTransmit.LiftoffEmergencyStop(id))
    case ComBoardLocal(_, _, _) => None
    case GroundTimeResponse(id, source, seconds, milliseconds) =>
      Some(CanTransmit.TimeResponse(id, source, seconds, milliseconds))
  }

  /** Commands and time responses cross to the CAN bus as the eight bytes after the kind, emergency
      stops as the transaction id; none of them fails to encode. */
  lemma UplinkIsRelayedUnchanged(frame: seq<u8>)
    requires |frame| == Uplink.FRAME_LENGTH && Uplink.DecodeUplink(frame).Ok? && frame[1] != 3
    ensures var m := CanMessageFor(Uplink.DecodeUplink(frame).value);
            && m.Some? && CanTransmit.SixArgs(m.value)
            && CanTransmit.TxPayload(m.value) == Ok(if frame[1] == 0 || frame[1] == 4 then frame[2..10] else [frame[2]])
            && CanTransmit.TxId(m.value) ==
               (match frame[1] case 0 => 0x010 case 1 => 0x001 case 2 => 0x002 case _ => 0x013)
  {
    var c := Uplink.DecodeUplink(frame).value;
    Uplink.DecodedBody(frame);
    var body := Uplink.Body(c);
    assert frame[2..10] == body[2..] && frame[1] == body[1] && frame[2] == body[2];
    hide Bits.XorChecksum, Le32, Le16, FromLe32, FromLe16, Uplink.DecodeUplink;
    match c
    case MissionGeneric(r) => assert body[2..] == [r.transactionId, r.command] + r.args;
    case GroundTimeResponse(id, source, seconds, milliseconds) =>
      assert body[2..] == [id, RawTimeSource(source)] + Le32(seconds) + Le16(milliseconds);
    case _ =>
  }

  // ---- Byte-aligned fields

  /** The little-endian bytes of a field of `n` bytes. */
  function FieldBytes(value: nat, n: nat): (bytes: seq<u8>)
    ensures |bytes| == n
    decreases n
  {
    if n == 0 then [] else [value % 0x100] + FieldBytes(value / 0x100, n - 1)
  }

  function AllBytes(values: seq<u32>, widths: seq<nat>): (bytes: seq<u8>)
    requires |values| == |widths| && forall i | 0 <= i < |widths| :: widths[i] % 8 == 0
    ensures Total(widths) == 8 * |bytes|
  {
    if widths == [] then []
    else
      var n := |widths| - 1;
      AllBytes(values[..n], widths[..n]) + FieldBytes(values[n], widths[n] / 8)
  }

  lemma BitsConcat(a: seq<u8>, b: seq<u8>)
    ensures BitsOf(a + b) == BitsOf(a) + BitsOf(b)
  {
  }

  lemma OneByte(b: u8)
    ensures BitsOf([b]) == ToBits(b, 8)
  {
  }

  lemma {:induction false} ToBitsSplit(value: nat, m: nat, n: nat)
    ensures ToBits(value, m + n) == ToBits(value, m) + ToBits(ShiftRight(value, m), n)
  {
    if m > 0 {
      ToBitsSplit(value / 2, m - 1, n);
    }
  }

  lemma TwiceProduct(p: nat, q: nat)
    ensures (2 * p) * q == 2 * (p * q)
  {
  }

  lemma {:induction false} QuotientAndRest(value: nat, n: nat)
    ensures value == FromBits(ToBits(value, n)) + Pow2(n) * ShiftRight(value, n)
  {
    if n > 0 {
      QuotientAndRest(value / 2, n - 1);
      TwiceProduct(Pow2(n - 1), ShiftRight(value / 2, n - 1));
      var bits, rest := ToBits(value, n), ToBits(value / 2, n - 1);
      assert bits[1..] == rest && FromBits(bits) == value % 2 + 2 * FromBits(rest);
      assert Pow2(n) == 2 * Pow2(n - 1) && ShiftRight(value, n) == ShiftRight(value / 2, n - 1);
      hide Pow2, ToBits, FromBits, ShiftRight;
    } else {
      assert Pow2(n) * ShiftRight(value, n) == value;
    }
  }

  lemma LowByte(value: nat, n: nat)
    requires Pow2(n) == 0x100
    ensures ToBits(value, n) == ToBits(value % 0x100, n) && ShiftRight(value, n) == value / 0x100
  {
    hide Pow2, ToBits, FromBits, ShiftRight;
    QuotientAndRest(value, n);
    ToFromBits(ToBits(value, n));
    var rest, quotient := FromBits(ToBits(value, n)), ShiftRight(value, n);
    assert value == rest + 0x100 * quotient && 0 <= rest < 0x100;
  }

  lemma {:induction false} FieldBits(value: nat, n: nat)
    ensures BitsOf(FieldBytes(value, n)) == ToBits(value, 8 * n)
    decreases n
  {
    if n > 0 {
      FieldBits(value / 0x100, n - 1);
      assert Pow2(8) == 0x100;
      hide BitsOf, ToBits, ShiftRight, Pow2;
      BitsConcat([value % 0x100], FieldBytes(value / 0x100, n - 1));
      OneByte(value % 0x100);
      ToBitsSplit(value, 8, 8 * (n - 1));
      LowByte(value, 8);
    }
  }

  /** Byte-aligned fields are packed as their little-endian bytes. */
  lemma {:induction false} AlignedBits(values: seq<u32>, widths: seq<nat>)
    requires |values| == |widths| && forall i | 0 <= i < |widths| :: widths[i] % 8 == 0
    ensures BitsOf(AllBytes(values, widths)) == Pack(values, widths)
  {
    hide BitsOf, ToBits, FieldBytes;
    if widths == [] {
      assert BitsOf([]) == [];
    } else {
      var n := |widths| - 1;
      AlignedBits(values[..n], widths[..n]);
      LastField(values[n], widths[n]);
      BitsConcat(AllBytes(values[..n], widths[..n]), FieldBytes(values[n], widths[n] / 8));
    }
  }

  lemma LastField(value: u32, width: nat)
    requires width % 8 == 0
    ensures BitsOf(FieldBytes(value, width / 8)) == ToBits(value, width)
  {
    hide BitsOf, FieldBytes, ToBits;
    FieldBits(value, width / 8);
    assert 8 * (width / 8) == width;
  }

  lemma AlignedBody(p: Payload.Packet)
    requires Payload.Check(p).Pass? && forall i | 0 <= i < |Payload.Widths(Payload.HeaderFor(p))| ::
               Payload.Widths(Payload.HeaderFor(p))[i] % 8 == 0
    ensures Payload.Body(p) == AllBytes(Payload.Values(p), Payload.Widths(Payload.HeaderFor(p)))
  {
    var v, w := Payload.Values(p), Payload.Widths(Payload.HeaderFor(p));
    Payload.NoPadding(p);
    hide Payload.Values, Payload.Widths, BytesOf, BitsOf, Pack, AllBytes;
    AlignedBits(v, w);
    BitsInverse(AllBytes(v, w));
    BitsInverse(Payload.Body(p));
  }

  // ---- CAN to LoRa

  /** The downlink packet a command result becomes. */
  function ResultPacket(r: CommandResult): Payload.Packet {
    Payload.CommandResult(r.transactionId, r.command, r.phase, r.reason, r.detail)
  }

  lemma AllBytesStep(values: seq<u32>, widths: seq<nat>)
    requires |values| == |widths| > 0 && forall i | 0 <= i < |widths| :: widths[i] % 8 == 0
    ensures var n := |widths| - 1;
            AllBytes(values, widths) == AllBytes(values[..n], widths[..n]) + FieldBytes(values[n], widths[n] / 8)
  {
  }

  lemma ByteField(v: u8)
    ensures FieldBytes(v, 1) == [v]
  {
    assert FieldBytes(v / 0x100, 0) == [];
  }

  lemma WordField(v: u16)
    ensures FieldBytes(v, 2) == Le16(v)
  {
    ByteField(v / 0x100);
  }

  lemma DoubleField(v: u32)
    ensures FieldBytes(v, 4) == Le32(v)
  {
    WordField(v / 0x1_0000);
    assert FieldBytes(v / 0x100, 3) == [v / 0x100 % 0x100] + FieldBytes(v / 0x1_0000, 2);
    assert v / 0x100 % 0x100 == v % 0x1_0000 / 0x100 && v % 0x100 == v % 0x1_0000 % 0x100;
  }

  /** Fields of one byte each. */
  lemma {:induction false} AllByteFields(bytes: seq<u8>, widths: seq<nat>)
    requires |bytes| == |widths| && forall i | 0 <= i < |widths| :: widths[i] == 8
    ensures AllBytes(bytes, widths) == bytes
  {
    if widths != [] {
      var n := |widths| - 1;
      AllByteFields(bytes[..n], widths[..n]);
      ByteField(bytes[n]);
    }
  }

  lemma ResultBody(r: CommandResult)
    requires r.transactionId != 0
    ensures Payload.Body(ResultPacket(r)) ==
            [0xb0, r.transactionId, r.command, RawPhase(r.phase), RawReason(r.reason)] + Le32(r.detail)
  {
    hide Le32, Payload.Body, FieldBytes, AllBytes;
    var p := ResultPacket(r);
    var v, w := Payload.Values(p), Payload.Widths(Payload.CommandResultHeader);
    AlignedBody(p);
    AllBytesStep(v, w);
    DoubleField(r.detail);
    var head: seq<u8> := [0xb0, r.transactionId, r.command, RawPhase(r.phase), RawReason(r.reason)];
    assert v[..5] == head;
    AllByteFields(head, w[..5]);
  }

  lemma ResultFrame(r: CommandResult)
    requires r.transactionId != 0
    ensures var frame := Payload.Encode(ResultPacket(r));
            && frame.Ok? && |frame.value| == 13 && frame.value[3] == 0xb0
            && frame.value[4..12] == PayloadOf(ResultMessage(r))
  {
    var p := ResultPacket(r);
    ResultBody(r);
    Payload.EncodesExactly(p);
    hide Fits, Payload.Values, Payload.Widths, Payload.Body, Le32;
    Payload.FrameParts(Payload.Body(p), XorChecksum(Payload.Body(p)));
    var frame := Payload.Encode(p).value;
    assert frame == Payload.LORA_PREFIX + Payload.Body(p) + [XorChecksum(Payload.Body(p))];
    assert frame[4..12] == frame[3..|frame| - 1][1..] == PayloadOf(ResultMessage(r));
  }

  /** Every accepted result frame becomes a B0 frame that carries its eight bytes unchanged. */
  lemma ResultIsRelayedUnchanged(data: seq<u8>)
    ensures var decoded := DecodeStandard(0x011, data);
            decoded.Ok? ==>
              && decoded.value.ResultMessage?
              && var frame := Payload.Encode(ResultPacket(decoded.value.result));
                 frame.Ok? && |frame.value| == 13 && frame.value[3] == 0xb0 && frame.value[4..12] == data
  {
    if DecodeStandard(0x011, data).Ok? {
      var m := DecodeStandard(0x011, data).value;
      DecodingIsCanonical(0x011, data, m);
      hide DecodeStandard, Payload.Encode, PayloadOf;
      ResultFrame(m.result);
    }
  }

  /** The last of the fields, off a list of them. */
  lemma AllBytesAppend(values: seq<u32>, widths: seq<nat>, value: u32, width: nat)
    requires |values| == |widths| && width % 8 == 0 && forall i | 0 <= i < |widths| :: widths[i] % 8 == 0
    ensures AllBytes(values + [value], widths + [width]) == AllBytes(values, widths) + FieldBytes(value, width / 8)
  {
    assert (values + [value])[..|values|] == values && (widths + [width])[..|widths|] == widths;
  }

  lemma ControlRollBytes(r: ControlRoll)
    ensures AllBytes([0xa7, SCHEMA_VERSION, r.reference, r.deviation, r.flags, r.captureEventSequence],
                     [8, 8, 16, 16, 8, 8]) ==
            [0xa7, SCHEMA_VERSION] + Le16(r.reference) + Le16(r.deviation) + [r.flags, r.captureEventSequence]
  {
    hide AllBytes, FieldBytes, Le16;
    WordField(r.reference);
    WordField(r.deviation);
    ByteField(r.flags);
    ByteField(r.captureEventSequence);
    var v2: seq<u32> := [0xa7, SCHEMA_VERSION];
    AllByteFields([0xa7, SCHEMA_VERSION], [8, 8]);
    var v3, v4 := v2 + [r.reference], v2 + [r.reference] + [r.deviation];
    var v5 := v4 + [r.flags];
    AllBytesAppend(v2, [8, 8], r.reference, 16);
    AllBytesAppend(v3, [8, 8] + [16], r.deviation, 16);
    AllBytesAppend(v4, [8, 8] + [16] + [16], r.flags, 8);
    AllBytesAppend(v5, [8, 8] + [16] + [16] + [8], r.captureEventSequence, 8);
    assert v5 + [r.captureEventSequence as u32]
        == [0xa7, SCHEMA_VERSION, r.reference, r.deviation, r.flags, r.captureEventSequence];
    assert [8, 8] + [16] + [16] + [8] + [8] == [8, 8, 16, 16, 8, 8];
  }

  lemma ControlRollBody(r: ControlRoll)
    requires WellFormed(ControlRollMessage(r))
    ensures Payload.Body(PeriodicPacket.ControlRollPacket(r)) ==
            [0xa7, SCHEMA_VERSION] + Le16(r.reference) + Le16(r.deviation) + [r.flags, r.captureEventSequence]
  {
    hide MaskClear, RangeFlagsAgree, Le16, Payload.Body, AllBytes;
    AlignedBody(PeriodicPacket.ControlRollPacket(r));
    ControlRollBytes(r);
  }

  /** Every accepted control-roll frame becomes an A7 packet that carries its bytes 1 to 7 unchanged. */
  lemma ControlRollIsRelayedUnchanged(data: seq<u8>)
    requires DecodeStandard(0x10a, data).Ok?
    ensures var m := DecodeStandard(0x10a, data).value;
            && m.ControlRollMessage?
            && var frame := Payload.Encode(PeriodicPacket.ControlRollPacket(m.roll));
               frame.Ok? && |frame.value| == 12 && frame.value[3] == 0xa7 && frame.value[4..11] == data[1..]
  {
    var m := DecodeStandard(0x10a, data).value;
    DecodingIsCanonical(0x10a, data, m);
    var p := PeriodicPacket.ControlRollPacket(m.roll);
    ControlRollBody(m.roll);
    Payload.EncodesExactly(p);
    hide DecodeStandard, Fits, Payload.Values, Payload.Widths, Payload.Body, Le16, MaskClear;
    Payload.FrameParts(Payload.Body(p), XorChecksum(Payload.Body(p)));
    var frame := Payload.Encode(p).value;
    assert frame == Payload.LORA_PREFIX + Payload.Body(p) + [XorChecksum(Payload.Body(p))];
    assert data[1..] == Payload.Body(p)[1..];
    assert frame[4..11] == frame[3..|frame| - 1][1..];
  }
}
