/** Encoding of the CAN frames the board sends (src/can/protocol.rs:220-236, 447-507). */
module CanTransmit {
  import opened Prelude
  import opened CanProtocol

  datatype TxMessage =
    | ActuatorEmergencyStop(transactionId: u8)
    | LiftoffEmergencyStop(transactionId: u8)
    | RecoveryControl(opcode: RecoveryOpcode, source: RecoverySource, transferId: u8, offset: u32, length: u32)
    | GenericRequest(request: GenericCommandRequest)
    | TimeResponse(requestId: u8, timeSource: TimeSource, unixSeconds: u32, milliseconds: u16)

  datatype CanEncodeError = ReservedTransactionId | OutOfRange

  function TxId(m: TxMessage): u16 {
    match m
    case ActuatorEmergencyStop(_) => 0x001
    case LiftoffEmergencyStop(_) => 0x002
    case RecoveryControl(_, _, _, _, _) => 0x008
    case GenericRequest(_) => 0x010
    case TimeResponse(_, _, _, _) => 0x013
  }

  function Dlc(m: TxMessage): nat {
    if m.ActuatorEmergencyStop? || m.LiftoffEmergencyStop? then 1 else 8
  }

  const U24_LIMIT := 0x100_0000

  /** Generic requests carry six argument bytes. */
  predicate SixArgs(m: TxMessage) {
    m.GenericRequest? ==> |m.request.args| == 6
  }

  function Le24(v: u32): (bytes: seq<u8>)
    requires v < U24_LIMIT
    ensures |bytes| == 3
  {
    Le16(v % 0x1_0000) + [v / 0x1_0000]
  }

  /** The payload, Dlc bytes long, or the reason there is none. */
  function TxPayload(m: TxMessage): (r: Result<seq<u8>, CanEncodeError>)
    requires SixArgs(m)
    ensures r.Ok? ==> |r.value| == Dlc(m)
  {
    match m
    case ActuatorEmergencyStop(id) => if id == 0 then Err(ReservedTransactionId) else Ok([id])
    case LiftoffEmergencyStop(id) => if id == 0 then Err(ReservedTransactionId) else Ok([id])
    case RecoveryControl(opcode, source, transferId, offset, length) =>
      if offset >= U24_LIMIT || length >= U24_LIMIT then Err(OutOfRange)
      else Ok([RawOpcode(opcode) + 0x10 * RawRecoverySource(source), transferId] + Le24(offset) + Le24(length))
    case GenericRequest(r) =>
      if r.transactionId == 0 then Err(ReservedTransactionId) else Ok([r.transactionId, r.command] + r.args)
    case TimeResponse(requestId, source, seconds, milliseconds) =>
      if milliseconds > 999 then Err(OutOfRange)
      else Ok([requestId, RawTimeSource(source)] + Le32(seconds) + Le16(milliseconds))
  }

  /** The message a transmitted frame stands for. */
  function ReadTx(id: u16, payload: seq<u8>): Option<TxMessage> {
    if id == 0x001 && |payload| == 1 then Some(ActuatorEmergencyStop(payload[0]))
    else if id == 0x002 && |payload| == 1 then Some(LiftoffEmergencyStop(payload[0]))
    else if |payload| != 8 then None
    else if id == 0x008 && DecodeOpcode(payload[0] % 0x10).Some? && DecodeRecoverySource(payload[0] / 0x10).Some? then
      Some(RecoveryControl(DecodeOpcode(payload[0] % 0x10).value, DecodeRecoverySource(payload[0] / 0x10).value,
                           payload[1], FromLe32(payload[2], payload[3], payload[4], 0),
                           FromLe32(payload[5], payload[6], payload[7], 0)))
    else if id == 0x010 then Some(GenericRequest(GenericCommandRequest(payload[0], payload[1], payload[2..8])))
    else if id == 0x013 && DecodeTimeSource(payload[1]).Some? then
      Some(TimeResponse(payload[0], DecodeTimeSource(payload[1]).value,
                        FromLe32(payload[2], payload[3], payload[4], payload[5]), FromLe16(payload[6], payload[7])))
    else None
  }

  lemma Le24Inverse(v: u32, b0: u8, b1: u8, b2: u8)
    requires v < U24_LIMIT && Le24(v) == [b0, b1, b2]
    ensures v == FromLe32(b0, b1, b2, 0)
  {
    Le16Inverse(v % 0x1_0000, b0, b1);
    HighByte(b2);
    hide FromLe16, Le16;
    assert Le16(v % 0x1_0000) == Le24(v)[..2] == [b0, b1];
    assert b2 == Le24(v)[2] == v / 0x1_0000;
  }

  lemma HighByte(b: u8)
    ensures FromLe16(b, 0) == b
  {
  }

  lemma RecoveryControlLossless(m: TxMessage)
    requires m.RecoveryControl? && TxPayload(m).Ok?
    ensures ReadTx(TxId(m), TxPayload(m).value) == Some(m)
  {
    hide FromLe32, Le24;
    var p := TxPayload(m).value;
    assert p[2..5] == Le24(m.offset) == [p[2], p[3], p[4]];
    assert p[5..8] == Le24(m.length) == [p[5], p[6], p[7]];
    Le24Inverse(m.offset, p[2], p[3], p[4]);
    Le24Inverse(m.length, p[5], p[6], p[7]);
  }

  lemma TimeResponseLossless(m: TxMessage)
    requires m.TimeResponse? && TxPayload(m).Ok?
    ensures ReadTx(TxId(m), TxPayload(m).value) == Some(m)
  {
    hide FromLe32, Le32, FromLe16, Le16;
    var p := TxPayload(m).value;
    assert p[2..6] == Le32(m.unixSeconds) == [p[2], p[3], p[4], p[5]];
    assert p[6..8] == Le16(m.milliseconds) == [p[6], p[7]];
    Le32Inverse(m.unixSeconds, p[2], p[3], p[4], p[5]);
    Le16Inverse(m.milliseconds, p[6], p[7]);
  }

  /** The bus carries every encoded message without loss. */
  lemma TxIsLossless(m: TxMessage)
    requires SixArgs(m) && TxPayload(m).Ok?
    ensures ReadTx(TxId(m), TxPayload(m).value) == Some(m)
  {
    hide FromLe32, Le32, Le16, Le24, FromLe16;
    match m
    case RecoveryControl(_, _, _, _, _) => RecoveryControlLossless(m);
    case TimeResponse(_, _, _, _) => TimeResponseLossless(m);
    case GenericRequest(r) => assert TxPayload(m).value[2..8] == r.args;
    case _ =>
  }

  lemma Le24Bytes(value: u32)
    requires value < U24_LIMIT
    ensures Le24(value) == [value % 0x100, value / 0x100 % 0x100, value / 0x1_0000]
  {
    var high, low := value / 0x1_0000, value % 0x1_0000;
    assert value == 0x1_0000 * high + low;
    MiddleByte(high, low);
  }

  lemma MiddleByte(high: nat, low: u16)
    ensures var value := 0x1_0000 * high + low;
            value % 0x100 == low % 0x100 && value / 0x100 % 0x100 == low / 0x100
  {
    var value := 0x1_0000 * high + low;
    assert value == 0x100 * (0x100 * high + low / 0x100) + low % 0x100;
    assert value / 0x100 == 0x100 * high + low / 0x100;
  }

  /** `put_u24_le` into `out[at..at + 3]`. */
  method PutU24Le(out: array<u8>, at: nat, value: u32)
    requires at + 3 <= out.Length && value < U24_LIMIT
    modifies out
    ensures out[..] == old(out[..at]) + Le24(value) + old(out[at + 3..])
  {
    Le24Bytes(value);
    hide Le24;
    out[at], out[at + 1], out[at + 2] := value % 0x100, value / 0x100 % 0x100, value / 0x1_0000;
    assert out[at..at + 3] == Le24(value);
    assert out[..] == out[..at] + out[at..at + 3] + out[at + 3..];
  }

  /** `copy_from_slice` into `out[at..]`. */
  method CopyInto(out: array<u8>, at: nat, bytes: seq<u8>)
    requires at + |bytes| <= out.Length
    modifies out
    ensures out[..] == old(out[..at]) + bytes + old(out[at + |bytes|..])
  {
    for i := 0 to |bytes|
      invariant forall k | 0 <= k < out.Length ::
                  out[k] == if at <= k < at + i then bytes[k - at] else old(out[k])
    {
      out[at + i] := bytes[i];
    }
  }

  const ZEROS: seq<u8> := [0, 0, 0, 0, 0, 0, 0, 0]

  /** encode_payload: the payload at the front of `out`, zeros after it, and all zeros on an error. */
  method EncodePayload(m: TxMessage, out: array<u8>) returns (r: Result<nat, CanEncodeError>)
    requires SixArgs(m) && out.Length == 8
    modifies out
    ensures TxPayload(m).Ok? ==> r == Ok(Dlc(m)) && out[..] == TxPayload(m).value + ZEROS[Dlc(m)..]
    ensures TxPayload(m).Err? ==> r == Err(TxPayload(m).error) && out[..] == ZEROS
  {
    for i := 0 to 8
      invariant forall k | 0 <= k < i :: out[k] == 0
    {
      out[i] := 0;
    }
    assert out[..] == ZEROS;
    hide Le16, Le24, Le32;
    match m {
      case ActuatorEmergencyStop(id) =>
        if id == 0 {
          return Err(ReservedTransactionId);
        }
        out[0] := id;
      case LiftoffEmergencyStop(id) =>
        if id == 0 {
          return Err(ReservedTransactionId);
        }
        out[0] := id;
      case RecoveryControl(opcode, source, transferId, offset, length) =>
        if offset >= U24_LIMIT || length >= U24_LIMIT {
          return Err(OutOfRange);
        }
        out[0] := RawOpcode(opcode) + 0x10 * RawRecoverySource(source);
        out[1] := transferId;
        PutU24Le(out, 2, offset);
        PutU24Le(out, 5, length);
      case GenericRequest(request) =>
        if request.transactionId == 0 {
          return Err(ReservedTransactionId);
        }
        out[0] := request.transactionId;
        out[1] := request.command;
        CopyInto(out, 2, request.args);
      case TimeResponse(requestId, source, seconds, milliseconds) =>
        if milliseconds > 999 {
          return Err(OutOfRange);
        }
        out[0] := requestId;
        out[1] := RawTimeSource(source);
        CopyInto(out, 2, Le32(seconds));
        CopyInto(out, 6, Le16(milliseconds));
    }
    r := Ok(Dlc(m));
  }
}
