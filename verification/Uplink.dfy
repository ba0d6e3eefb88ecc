/** Uplink frames and the buffer that finds them in the received byte stream (src/lora_uplink.rs). */
module Uplink {
  import opened Prelude
  import opened Bits
  import opened CanProtocol

  const FRAME_LENGTH: nat := 11
  const HEADER: u8 := 0x55

  datatype Command =
    | MissionGeneric(request: GenericCommandRequest)
    | ActuatorEmergency(transactionId: u8)
    | LiftoffDetectionEmergency(transactionId: u8)
    | ComBoardLocal(transactionId: u8, command: u8, args: seq<u8>)
    | GroundTimeResponse(requestId: u8, source: TimeSource, unixSeconds: u32, milliseconds: u16)

  datatype UplinkError = InvalidHeader | InvalidChecksum | InvalidKind | ReservedTransactionId | InvalidField

  predicate IsDeprecatedParachuteCommand(command: u8) {
    0x20 <= command <= 0x24
  }

  function DecodeUplink(bytes: seq<u8>): Result<Command, UplinkError>
    requires |bytes| == FRAME_LENGTH
  {
    if bytes[0] != HEADER then Err(InvalidHeader)
    else if XorChecksum(bytes[..10]) != bytes[10] then Err(InvalidChecksum)
    else if bytes[1] > 4 then Err(InvalidKind)
    else if bytes[2] == 0 then Err(ReservedTransactionId)
    else
      match bytes[1]
      case 0 =>
        if IsDeprecatedParachuteCommand(bytes[3]) then Err(UplinkError.InvalidField)
        else Ok(MissionGeneric(GenericCommandRequest(bytes[2], bytes[3], bytes[4..10])))
      case 3 => Ok(ComBoardLocal(bytes[2], bytes[3], bytes[4..10]))
      case 4 =>
        var source := DecodeTimeSource(bytes[3]);
        var milliseconds := FromLe16(bytes[8], bytes[9]);
        if source.None? || milliseconds > 999 then Err(UplinkError.InvalidField)
        else Ok(GroundTimeResponse(bytes[2], source.value, FromLe32(bytes[4], bytes[5], bytes[6], bytes[7]),
                                   milliseconds))
      case kind =>
        if exists i | 3 <= i < 10 :: bytes[i] != 0 then Err(UplinkError.InvalidField)
        else if kind == 1 then Ok(ActuatorEmergency(bytes[2]))
        else Ok(LiftoffDetectionEmergency(bytes[2]))
  }

  // ---- The encoder that decoding inverts

  predicate Sendable(c: Command) {
    match c
    case MissionGeneric(r) => r.transactionId != 0 && |r.args| == 6 && !IsDeprecatedParachuteCommand(r.command)
    case ActuatorEmergency(id) => id != 0
    case LiftoffDetectionEmergency(id) => id != 0
    case ComBoardLocal(id, _, args) => id != 0 && |args| == 6
    case GroundTimeResponse(id, _, _, milliseconds) => id != 0 && milliseconds <= 999
  }

  function Body(c: Command): (body: seq<u8>)
    requires Sendable(c)
    ensures |body| == 10
  {
    match c
    case MissionGeneric(r) => [HEADER, 0, r.transactionId, r.command] + r.args
    case ActuatorEmergency(id) => [HEADER, 1, id, 0, 0, 0, 0, 0, 0, 0]
    case LiftoffDetectionEmergency(id) => [HEADER, 2, id, 0, 0, 0, 0, 0, 0, 0]
    case ComBoardLocal(id, command, args) => [HEADER, 3, id, command] + args
    case GroundTimeResponse(id, source, seconds, milliseconds) =>
      [HEADER, 4, id, RawTimeSource(source)] + Le32(seconds) + Le16(milliseconds)
  }

  function EncodeUplink(c: Command): (frame: seq<u8>)
    requires Sendable(c)
    ensures |frame| == FRAME_LENGTH
  {
    Body(c) + [XorChecksum(Body(c))]
  }

  lemma BodyDecodes(frame: seq<u8>, c: Command)
    requires |frame| == FRAME_LENGTH && Sendable(c) && frame[..10] == Body(c) && frame[10] == XorChecksum(frame[..10])
    ensures DecodeUplink(frame) == Ok(c)
  {
    hide XorChecksum, FromLe32, Le32;
    match c
    case MissionGeneric(r) => assert frame[4..10] == frame[..10][4..] == r.args;
    case ComBoardLocal(_, _, args) => assert frame[4..10] == frame[..10][4..] == args;
    case GroundTimeResponse(_, _, seconds, milliseconds) =>
      assert frame[4..8] == Body(c)[4..8] == Le32(seconds);
      Le32Inverse(seconds, frame[4], frame[5], frame[6], frame[7]);
      assert frame[8..10] == Body(c)[8..] == Le16(milliseconds);
    case _ =>
  }

  lemma DecodedBody(frame: seq<u8>)
    requires |frame| == FRAME_LENGTH && DecodeUplink(frame).Ok?
    ensures var c := DecodeUplink(frame).value;
            Sendable(c) && frame[..10] == Body(c) && frame[10] == XorChecksum(frame[..10])
  {
    hide XorChecksum, FromLe32, Le32;
    var c := DecodeUplink(frame).value;
    match c
    case GroundTimeResponse(_, _, seconds, _) =>
      Le32Inverse(seconds, frame[4], frame[5], frame[6], frame[7]);
      assert Body(c)[4..8] == Le32(seconds) == frame[4..8];
    case _ =>
  }

  /** Decoding accepts exactly the frames of sendable commands, one frame per command. */
  lemma UplinkIsCanonical(frame: seq<u8>, c: Command)
    requires |frame| == FRAME_LENGTH
    ensures DecodeUplink(frame) == Ok(c) <==> Sendable(c) && frame == EncodeUplink(c)
  {
    hide DecodeUplink, Sendable, Body, XorChecksum;
    assert frame == frame[..10] + [frame[10]];
    if DecodeUplink(frame) == Ok(c) {
      DecodedBody(frame);
    } else if Sendable(c) && frame == EncodeUplink(c) {
      BodyDecodes(frame, c);
    }
  }

  /** An accepted frame has every bit set in an even number of its bytes. */
  lemma AcceptedHasEvenParity(frame: seq<u8>)
    requires |frame| == FRAME_LENGTH
    ensures DecodeUplink(frame).Ok? ==> EvenParity(frame)
    ensures DecodeUplink(frame) == Err(InvalidChecksum) <==> frame[0] == HEADER && !EvenParity(frame)
  {
    assert frame == frame[..10] + [frame[10]];
    ClosedIsEven(frame[..10], frame[10]);
    hide XorChecksum, EvenParity;
  }

  /** Which error a rejected frame gives: header, checksum, kind, id and fields are looked at in this order. */
  lemma RejectedExactly(frame: seq<u8>)
    requires |frame| == FRAME_LENGTH
    ensures var result, sound := DecodeUplink(frame), frame[0] == HEADER && EvenParity(frame);
            && (result == Err(InvalidHeader) <==> frame[0] != HEADER)
            && (result == Err(InvalidKind) <==> sound && frame[1] > 4)
            && (result == Err(ReservedTransactionId) <==> sound && frame[1] <= 4 && frame[2] == 0)
            && (result == Err(UplinkError.InvalidField) <==>
                  sound && frame[1] <= 4 && frame[2] != 0 && forall c | Sendable(c) :: frame != EncodeUplink(c))
  {
    assert frame == frame[..10] + [frame[10]];
    ClosedIsEven(frame[..10], frame[10]);
    var result := DecodeUplink(frame);
    forall c: Command
      ensures result == Ok(c) <==> Sendable(c) && frame == EncodeUplink(c)
    {
      UplinkIsCanonical(frame, c);
    }
    assert result.Ok? ==> result == Ok(result.value);
    hide XorChecksum, EvenParity, FromLe32, Sendable, EncodeUplink;
  }

  // ---- The reference: a greedy parser of the whole stream

  type Output = Result<Command, UplinkError>

  /** From left to right: skip bytes that are no header; take eleven bytes from a header on, and go
      on after them if they decode and one byte further if they do not. */
  function Greedy(stream: seq<u8>): seq<Output>
    decreases |stream|
  {
    if stream == [] then []
    else if stream[0] != HEADER then Greedy(stream[1..])
    else if |stream| < FRAME_LENGTH then []
    else
      var result := DecodeUplink(stream[..FRAME_LENGTH]);
      [result] + Greedy(stream[if result.Ok? then FRAME_LENGTH else 1..])
  }

  /** The end of the stream the greedy parser still waits to complete. */
  function Rest(stream: seq<u8>): (rest: seq<u8>)
    ensures |rest| < FRAME_LENGTH && |rest| <= |stream| && (rest != [] ==> rest[0] == HEADER)
    decreases |stream|
  {
    if stream == [] then []
    else if stream[0] != HEADER then Rest(stream[1..])
    else if |stream| < FRAME_LENGTH then stream
    else
      var result := DecodeUplink(stream[..FRAME_LENGTH]);
      Rest(stream[if result.Ok? then FRAME_LENGTH else 1..])
  }

  /** Parsing can stop at any byte and resume from the rest. */
  lemma {:induction false} GreedyResumes(a: seq<u8>, b: seq<u8>)
    ensures Greedy(a + b) == Greedy(a) + Greedy(Rest(a) + b)
    ensures Rest(a + b) == Rest(Rest(a) + b)
    decreases |a|
  {
    hide DecodeUplink;
    if a == [] {
      assert a + b == b && Rest(a) + b == b;
    } else if a[0] != HEADER {
      assert (a + b)[1..] == a[1..] + b;
      GreedyResumes(a[1..], b);
    } else if |a| >= FRAME_LENGTH {
      assert (a + b)[..FRAME_LENGTH] == a[..FRAME_LENGTH];
      var n := if DecodeUplink(a[..FRAME_LENGTH]).Ok? then FRAME_LENGTH else 1;
      assert (a + b)[n..] == a[n..] + b;
      GreedyResumes(a[n..], b);
    }
  }

  /** Bytes before the first header are junk. */
  lemma {:induction false} SkipToHeader(stream: seq<u8>, n: nat)
    requires n <= |stream| && forall i | 0 <= i < n :: stream[i] != HEADER
    ensures Greedy(stream) == Greedy(stream[n..]) && Rest(stream) == Rest(stream[n..])
    decreases n
  {
    if n > 0 {
      assert stream[1..][n - 1..] == stream[n..];
      SkipToHeader(stream[1..], n - 1);
    } else {
      assert stream[0..] == stream;
    }
  }

  lemma {:induction false} NoInvalidHeader(stream: seq<u8>)
    ensures Err(InvalidHeader) !in Greedy(stream)
    decreases |stream|
  {
    if stream == [] {
    } else if stream[0] != HEADER {
      NoInvalidHeader(stream[1..]);
    } else if |stream| >= FRAME_LENGTH {
      NoInvalidHeader(stream[if DecodeUplink(stream[..FRAME_LENGTH]).Ok? then FRAME_LENGTH else 1..]);
    }
  }
}
