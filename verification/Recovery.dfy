/** Reassembly of recovery log fragments into LoRa chunks (RecoveryAssembler, src/can/recovery.rs:132-308). */
module Recovery {
  import opened Prelude
  import opened CanProtocol

  const CHUNK: nat := 16
  const FRAGMENT: nat := 6

  datatype Chunk = Chunk(
    transferId: u8, source: RecoverySource, offset: u32, dataLength: u8, data: seq<u8>, endOfFile: bool)
  datatype Resume = Resume(transferId: u8, source: RecoverySource, offset: u32)
  datatype AssemblyError = NotStarted | WrongTransfer | SequenceGap

  /** The assembler as a value; `data` are the buffered bytes. */
  datatype Assembler = Assembler(
    active: bool, transferId: u8, source: RecoverySource, offset: u32, totalSize: Option<u32>,
    expectedSequence: Option<u8>, data: seq<u8>)

  const IDLE := Assembler(false, 0, InternalFlash, 0, None, None, [])

  function Started(transferId: u8, source: RecoverySource, offset: u32, requestedLength: u32): Assembler {
    Assembler(true, transferId, source, offset,
              if requestedLength != 0 then Some(SaturatingAdd32(offset, requestedLength)) else None, None, [])
  }

  function WithTotalSize(a: Assembler, transferId: u8, totalSize: u32): Assembler {
    if a.active && a.transferId == transferId && totalSize != 0 then
      a.(totalSize := Some(if a.totalSize.Some? then Min(a.totalSize.value, totalSize) else totalSize))
    else a
  }

  /** The offset after everything accepted. */
  function End(a: Assembler): u32
    requires |a.data| <= CHUNK
  {
    SaturatingAdd32(a.offset, |a.data|)
  }

  predicate ReachedEnd(a: Assembler)
    requires |a.data| <= CHUNK
  {
    a.totalSize.Some? && End(a) >= a.totalSize.value
  }

  function Zeros(n: nat): (z: seq<u8>)
    ensures |z| == n && forall i | 0 <= i < n :: z[i] == 0
  {
    if n == 0 then [] else Zeros(n - 1) + [0]
  }

  function ChunkOf(a: Assembler, endOfFile: bool): Chunk
    requires |a.data| <= CHUNK
  {
    Chunk(a.transferId, a.source, a.offset, |a.data|, a.data + Zeros(CHUNK - |a.data|), endOfFile)
  }

  function AfterChunk(a: Assembler, endOfFile: bool): Assembler
    requires |a.data| <= CHUNK
  {
    a.(offset := End(a), data := [], active := a.active && !endOfFile)
  }

  /** How much of the next fragment still belongs to the transfer. */
  function FragmentLength(a: Assembler): nat
    requires |a.data| <= CHUNK
    ensures FragmentLength(a) <= FRAGMENT
  {
    match a.totalSize
    case None => FRAGMENT
    case Some(total) => if total <= End(a) then 0 else Min(total - End(a), FRAGMENT)
  }

  datatype Pushed = Pushed(next: Assembler, result: Result<Option<Chunk>, AssemblyError>)

  function Push(a: Assembler, fragment: RecoveryLogData): Pushed
    requires |a.data| < CHUNK && |fragment.data| == FRAGMENT
  {
    if !a.active then Pushed(a, Err(NotStarted))
    else if fragment.transferId != a.transferId then Pushed(a, Err(WrongTransfer))
    else if a.expectedSequence.Some? && fragment.sequence != a.expectedSequence.value then
      Pushed(a.(offset := End(a), data := [], active := false), Err(SequenceGap))
    else Accept(a.(expectedSequence := Some((fragment.sequence + 1) % 0x100)), fragment.data[..FragmentLength(a)])
  }

  /** The accepted bytes join the buffer; a full buffer becomes a chunk, and so does the last one. */
  function Accept(a: Assembler, bytes: seq<u8>): (p: Pushed)
    requires |a.data| < CHUNK && |bytes| <= FRAGMENT
    ensures p.result.Ok? && p.next == a.(offset := p.next.offset, data := p.next.data, active := p.next.active)
  {
    var joined := a.data + bytes;
    if |joined| >= CHUNK then
      var full := a.(data := joined[..CHUNK]);
      var endOfFile := ReachedEnd(full) && |joined| == CHUNK;
      Pushed(AfterChunk(full, endOfFile).(data := joined[CHUNK..]), Ok(Some(ChunkOf(full, endOfFile))))
    else
      var filled := a.(data := joined);
      if ReachedEnd(filled) then Pushed(AfterChunk(filled, true), Ok(Some(ChunkOf(filled, true))))
      else Pushed(filled, Ok(None))
  }

  function AfterFinish(a: Assembler, transferId: u8): (r: (Assembler, Option<Chunk>))
    requires |a.data| < CHUNK
  {
    if !a.active || a.transferId != transferId then (a, None)
    else (AfterChunk(a, true), Some(ChunkOf(a, true)))
  }

  function AfterAbort(a: Assembler): (r: (Assembler, Option<Resume>))
    requires |a.data| < CHUNK
  {
    (a.(active := false, data := []),
     if a.transferId != 0 then Some(Resume(a.transferId, a.source, End(a))) else None)
  }

  /** The state of the copy loop after `from` of the bytes. */
  predicate CopiedSoFar(before: Assembler, bytes: seq<u8>, from: nat, now: Assembler, emitted: Option<Chunk>)
    requires |before.data| < CHUNK && from <= |bytes|
  {
    var joined := before.data + bytes;
    var n := |before.data| + from;
    if n < CHUNK then emitted == None && now == before.(data := joined[..n])
    else
      var full := before.(data := joined[..CHUNK]);
      var last := ReachedEnd(full) && |joined| == CHUNK;
      emitted == Some(ChunkOf(full, last)) && now == AfterChunk(full, last).(data := joined[CHUNK..n])
  }

  /** Copying as much as fits either leaves room or fills the first chunk. */
  lemma CopyStep(before: Assembler, bytes: seq<u8>, from: nat, now: Assembler, emitted: Option<Chunk>, copied: nat)
    requires |before.data| < CHUNK && from < |bytes| <= FRAGMENT && CopiedSoFar(before, bytes, from, now, emitted)
    requires |now.data| < CHUNK && copied == Min(CHUNK - |now.data|, |bytes| - from)
    ensures var next := now.(data := now.data + bytes[from..from + copied]);
            && (|next.data| < CHUNK ==> CopiedSoFar(before, bytes, from + copied, next, emitted))
            && (|next.data| == CHUNK ==>
                  && emitted == None && |before.data| + from + copied == CHUNK
                  && next == before.(data := (before.data + bytes)[..CHUNK]))
  {
    hide ChunkOf, AfterChunk, ReachedEnd;
    var joined := before.data + bytes;
    var n := |before.data| + from;
    if n < CHUNK {
      assert joined[..n] + bytes[from..from + copied] == joined[..n + copied];
    } else {
      assert joined[CHUNK..n] + bytes[from..from + copied] == joined[CHUNK..n + copied];
    }
  }

  /** Taking the full chunk leaves the loop with an empty buffer. */
  lemma ChunkStep(before: Assembler, bytes: seq<u8>, from: nat)
    requires |before.data| < CHUNK && from <= |bytes| && |before.data| + from == CHUNK
    ensures var full := before.(data := (before.data + bytes)[..CHUNK]);
            var last := ReachedEnd(full) && from == |bytes|;
            CopiedSoFar(before, bytes, from, AfterChunk(full, last), Some(ChunkOf(full, last)))
  {
    hide ChunkOf, ReachedEnd;
    assert (before.data + bytes)[CHUNK..CHUNK] == [];
  }

  /** The assembler as the task holds it: a 16-byte array filled in place. */
  class RecoveryAssembler {
    var active: bool
    var transferId: u8
    var source: RecoverySource
    var offset: u32
    var totalSize: Option<u32>
    var expectedSequence: Option<u8>
    const data: array<u8>
    var dataLength: u8

    ghost predicate Shaped()
      reads this, data
    {
      data.Length == CHUNK && dataLength <= CHUNK && forall i | dataLength <= i < CHUNK :: data[i] == 0
    }

    ghost predicate Valid()
      reads this, data
    {
      Shaped() && dataLength < CHUNK
    }

    ghost function Value(): Assembler
      requires Shaped()
      reads this, data
      ensures |Value().data| == dataLength
    {
      Assembler(active, transferId, source, offset, totalSize, expectedSequence, data[..dataLength])
    }

    constructor ()
      ensures Valid() && Value() == IDLE && fresh(data)
    {
      active, transferId, source, offset := false, 0, InternalFlash, 0;
      totalSize, expectedSequence, dataLength := None, None, 0;
      data := new u8[CHUNK](_ => 0);
    }

    method ClearData()
      requires data.Length == CHUNK
      modifies data, this`dataLength
      ensures Shaped() && dataLength == 0
    {
      for i := 0 to CHUNK
        invariant forall k | 0 <= k < i :: data[k] == 0
      {
        data[i] := 0;
      }
      dataLength := 0;
    }

    method Start(newTransferId: u8, newSource: RecoverySource, newOffset: u32, requestedLength: u32)
      requires Valid()
      modifies this, data
      ensures Valid() && Value() == Started(newTransferId, newSource, newOffset, requestedLength)
    {
      active, transferId, source, offset := true, newTransferId, newSource, newOffset;
      totalSize := if requestedLength != 0 then Some(SaturatingAdd32(newOffset, requestedLength)) else None;
      expectedSequence := None;
      ClearData();
    }

    method SetTotalSize(forTransfer: u8, size: u32)
      requires Valid()
      modifies this`totalSize
      ensures Valid() && Value() == WithTotalSize(old(Value()), forTransfer, size)
    {
      if active && transferId == forTransfer && size != 0 {
        totalSize := Some(if totalSize.Some? then Min(totalSize.value, size) else size);
      }
    }

    method TakeChunk(endOfFile: bool) returns (chunk: Chunk)
      requires Shaped()
      modifies this, data
      ensures Valid() && Value() == AfterChunk(old(Value()), endOfFile)
      ensures chunk == ChunkOf(old(Value()), endOfFile)
    {
      chunk := Chunk(transferId, source, offset, dataLength, data[..], endOfFile);
      assert data[..] == data[..dataLength] + Zeros(CHUNK - dataLength);
      offset := SaturatingAdd32(offset, dataLength);
      ClearData();
      assert data[..0] == [];
      if endOfFile {
        active := false;
      }
    }

    method PushFragment(fragment: RecoveryLogData) returns (r: Result<Option<Chunk>, AssemblyError>)
      requires Valid() && |fragment.data| == FRAGMENT
      modifies this, data
      ensures Valid() && Pushed(Value(), r) == Push(old(Value()), fragment)
    {
      if !active {
        return Err(NotStarted);
      }
      if fragment.transferId != transferId {
        return Err(WrongTransfer);
      }
      if expectedSequence.Some? && fragment.sequence != expectedSequence.value {
        offset := SaturatingAdd32(offset, dataLength);
        ClearData();
        active := false;
        assert data[..0] == [];
        return Err(SequenceGap);
      }
      var fragmentLength := FragmentLength(Assembler(active, transferId, source, offset, totalSize, expectedSequence,
                                                     data[..dataLength]));
      expectedSequence := Some((fragment.sequence + 1) % 0x100);
      r := CopyFragment(fragment.data[..fragmentLength]);
    }

    /** Lines 243-256: the copy loop. */
    method CopyIntoChunks(bytes: seq<u8>) returns (emitted: Option<Chunk>)
      requires Valid() && |bytes| <= FRAGMENT
      modifies this, data
      ensures Valid()
      ensures var joined := old(Value()).data + bytes;
              if |joined| < CHUNK then
                emitted == None && Value() == old(Value()).(data := joined)
              else
                var full := old(Value()).(data := joined[..CHUNK]);
                var last := ReachedEnd(full) && |joined| == CHUNK;
                && emitted == Some(ChunkOf(full, last))
                && Value() == AfterChunk(full, last).(data := joined[CHUNK..])
    {
      ghost var before := Value();
      hide Value, ChunkOf, AfterChunk, ReachedEnd, HasReachedEnd;
      var from := 0;
      emitted := None;
      assert (before.data + bytes)[..|before.data|] == before.data;
      while from < |bytes|
        invariant from <= |bytes| && Valid() && CopiedSoFar(before, bytes, from, Value(), emitted)
      {
        var copied := Min(CHUNK - dataLength, |bytes| - from);
        CopyStep(before, bytes, from, Value(), emitted, copied);
        hide CopiedSoFar;
        CopyBytes(bytes[from..from + copied]);
        from := from + copied;
        if dataLength == CHUNK {
          ChunkStep(before, bytes, from);
          var chunk := TakeChunk(HasReachedEnd() && from == |bytes|);
          emitted := Some(chunk);
        }
      }
      assert (before.data + bytes)[..|before.data| + |bytes|] == before.data + bytes;
    }

    /** Lines 257-260: and the chunk of a completed transfer. */
    method CopyFragment(bytes: seq<u8>) returns (r: Result<Option<Chunk>, AssemblyError>)
      requires Valid() && |bytes| <= FRAGMENT
      modifies this, data
      ensures Valid() && Pushed(Value(), r) == Accept(old(Value()), bytes)
    {
      hide ChunkOf, AfterChunk, End;
      var emitted := CopyIntoChunks(bytes);
      if emitted.None? && HasReachedEnd() {
        var chunk := TakeChunk(true);
        emitted := Some(chunk);
      }
      r := Ok(emitted);
    }

    /** reached_end, from the fields */
    predicate HasReachedEnd()
      requires Shaped()
      reads this, data
      ensures HasReachedEnd() == ReachedEnd(Value())
    {
      totalSize.Some? && SaturatingAdd32(offset, dataLength) >= totalSize.value
    }

    method CopyBytes(bytes: seq<u8>)
      requires Shaped() && dataLength + |bytes| <= CHUNK
      modifies data, this`dataLength
      ensures Shaped() && Value() == old(Value()).(data := old(Value().data) + bytes)
    {
      for i := 0 to |bytes|
        invariant dataLength == old(dataLength)
        invariant forall k | 0 <= k < CHUNK ::
                    data[k] == if dataLength <= k < dataLength + i then bytes[k - dataLength] else old(data[k])
      {
        data[dataLength + i] := bytes[i];
      }
      assert data[..dataLength + |bytes|] == old(data[..dataLength]) + bytes;
      dataLength := dataLength + |bytes|;
    }

    method Finish(forTransfer: u8) returns (chunk: Option<Chunk>)
      requires Valid()
      modifies this, data
      ensures Valid() && (Value(), chunk) == AfterFinish(old(Value()), forTransfer)
    {
      if !active || transferId != forTransfer {
        return None;
      }
      var last := TakeChunk(true);
      chunk := Some(last);
    }

    method Stop() returns (chunk: Option<Chunk>)
      requires Valid()
      modifies this, data
      ensures Valid() && (Value(), chunk) == AfterFinish(old(Value()), old(transferId))
    {
      if !active {
        return None;
      }
      chunk := Finish(transferId);
    }

    method Abort() returns (resume: Option<Resume>)
      requires Valid()
      modifies this, data
      ensures Valid() && (Value(), resume) == AfterAbort(old(Value()))
    {
      resume := if transferId != 0 then Some(Resume(transferId, source, SaturatingAdd32(offset, dataLength))) else None;
      active := false;
      ClearData();
      assert data[..0] == [];
    }
  }
}
