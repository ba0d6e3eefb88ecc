/** Recovery chunks on their way to the ground (queue_recovery_chunk, src/tasks/can_communication.rs:325-356;
    encode_recovery_log, src/payload.rs:330-347): which of them can be sent, and what the ground reads. */
module RecoveryDownlink {
  import opened Prelude
  import opened CanProtocol
  import opened Recovery
  import opened RecoveryTransfer
  import Payload

  const OFFSET_MAX: u32 := 0x00ff_ffff

  /** The packet a chunk is sent as. */
  function ChunkPacket(chunk: Chunk): Payload.Packet
    requires |chunk.data| == CHUNK
  {
    Payload.RecoveryLogData(chunk.transferId, chunk.source == MissionSdLatestFlight, chunk.endOfFile, chunk.offset,
                            chunk.dataLength, chunk.data)
  }

  /** A chunk can be sent exactly when its offset fits in 24 bits. */
  lemma ChunkEncodesExactly(chunk: Chunk)
    requires ChunkShaped(chunk)
    ensures Payload.Encode(ChunkPacket(chunk)).Ok? <==> chunk.offset <= OFFSET_MAX
  {
    Payload.EncodesExactly(ChunkPacket(chunk));
    hide Payload.Encode;
  }

  predicate AllFit(chunks: seq<Chunk>)
    requires AllShaped(chunks)
  {
    forall i | 0 <= i < |chunks| :: Payload.Encode(ChunkPacket(chunks[i])).Ok?
  }

  /** The chunks of a transfer can all be sent exactly when the last one starts within 24 bits. */
  lemma TransferFitsExactly(sender: Sender, events: seq<Event>)
    requires Plausible(sender) && CanRun(sender, Begin(sender), events)
    ensures var t := Run(sender, Begin(sender), events);
            && AllShaped(t.chunks)
            && (AllFit(t.chunks) <==> t.chunks == [] || t.chunks[|t.chunks| - 1].offset <= OFFSET_MAX)
  {
    ChunksAreThePrefix(sender, events);
    hide Run, CanRun, Begin, AllShaped, Emitted, Contiguous, OneEnd, AllFit;
    ChunksFitExactly(sender.start, Run(sender, Begin(sender), events).chunks);
  }

  lemma ChunksFitExactly(start: nat, chunks: seq<Chunk>)
    requires AllShaped(chunks) && Contiguous(start, chunks)
    ensures AllFit(chunks) <==> chunks == [] || chunks[|chunks| - 1].offset <= OFFSET_MAX
  {
    hide Contiguous, Payload.Encode;
    forall i | 0 <= i < |chunks|
      ensures Payload.Encode(ChunkPacket(chunks[i])).Ok? <==> chunks[i].offset <= OFFSET_MAX
      ensures chunks[i].offset <= chunks[|chunks| - 1].offset
    {
      ChunkEncodesExactly(chunks[i]);
      OffsetsGrow(start, chunks, i);
    }
  }

  lemma OffsetsGrow(start: nat, chunks: seq<Chunk>, i: nat)
    requires AllShaped(chunks) && Contiguous(start, chunks) && i < |chunks|
    ensures chunks[i].offset <= chunks[|chunks| - 1].offset
  {
    EmittedPrefix(chunks, i, |chunks| - 1);
    hide Emitted;
  }

  lemma {:induction false} EmittedPrefix(chunks: seq<Chunk>, i: nat, j: nat)
    requires AllShaped(chunks) && i <= j <= |chunks|
    ensures AllShaped(chunks[..i]) && AllShaped(chunks[..j])
    ensures Emitted(chunks[..i]) <= Emitted(chunks[..j])
    decreases j
  {
    if i < j {
      EmittedPrefix(chunks, i, j - 1);
      assert chunks[..j][..j - 1] == chunks[..j - 1];
    }
  }

  // ---- The ground

  /** The log bytes in a received frame. */
  function LogBytes(frame: seq<u8>): seq<u8> {
    match Payload.Decode(frame)
    case Some(RecoveryLogData(_, _, _, _, dataLength, data)) => data[..Min(dataLength, CHUNK)]
    case _ => []
  }

  function GroundBytes(frames: seq<seq<u8>>): seq<u8> {
    if frames == [] then [] else GroundBytes(frames[..|frames| - 1]) + LogBytes(frames[|frames| - 1])
  }

  /** The frames are those of the chunks, in order. */
  predicate Carries(frames: seq<seq<u8>>, chunks: seq<Chunk>)
    requires AllShaped(chunks)
  {
    |frames| == |chunks| && forall i | 0 <= i < |chunks| :: Payload.Encode(ChunkPacket(chunks[i])) == Ok(frames[i])
  }

  lemma ChunkIsRead(chunk: Chunk, frame: seq<u8>)
    requires ChunkShaped(chunk)
    ensures Payload.Encode(ChunkPacket(chunk)) == Ok(frame) ==> LogBytes(frame) == Bytes(chunk)
  {
    hide Payload.Encode, Payload.Decode;
    if Payload.Encode(ChunkPacket(chunk)) == Ok(frame) {
      Payload.EncodingIsLossless(ChunkPacket(chunk), frame);
    }
  }

  lemma {:induction false} GroundReadsChunks(frames: seq<seq<u8>>, chunks: seq<Chunk>)
    requires AllShaped(chunks) && Carries(frames, chunks)
    ensures GroundBytes(frames) == Emitted(chunks)
    decreases |chunks|
  {
    hide Payload.Encode, LogBytes, Bytes, ChunkPacket;
    if chunks != [] {
      var n := |chunks| - 1;
      GroundReadsChunks(frames[..n], chunks[..n]);
      ChunkIsRead(chunks[n], frames[n]);
    }
  }

  lemma GroundReadsStart(frames: seq<seq<u8>>, chunks: seq<Chunk>)
    requires AllShaped(chunks) && |frames| <= |chunks|
    requires AllShaped(chunks[..|frames|]) && Carries(frames, chunks[..|frames|])
    ensures GroundBytes(frames) <= Emitted(chunks)
  {
    hide AllShaped, Carries, Emitted, GroundBytes;
    GroundReadsChunks(frames, chunks[..|frames|]);
    EmittedPrefix(chunks, |frames|, |chunks|);
    assert chunks[..|chunks|] == chunks;
  }

  /** Whatever is lost on the CAN bus, and however many of a transfer's chunks get sent before the LoRa
      queue is full, the bytes the ground reads are a prefix of the stream the sender holds. */
  lemma GroundReadsThePrefix(sender: Sender, events: seq<Event>, frames: seq<seq<u8>>)
    requires Plausible(sender) && CanRun(sender, Begin(sender), events)
    requires var t := Run(sender, Begin(sender), events);
             && AllShaped(t.chunks) && |frames| <= |t.chunks|
             && AllShaped(t.chunks[..|frames|]) && Carries(frames, t.chunks[..|frames|])
    ensures GroundBytes(frames) <= sender.stream
  {
    ChunksAreThePrefix(sender, events);
    hide Run, CanRun, Begin, AllShaped, Carries, Emitted, Contiguous, OneEnd, GroundBytes;
    GroundReadsStart(frames, Run(sender, Begin(sender), events).chunks);
  }
}
