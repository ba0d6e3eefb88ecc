/** A whole recovery transfer: what the chunks of the assembler say about the stream the Mission
    board sent, over any lossy in-order delivery (src/can/recovery.rs:182-307). */
module RecoveryTransfer {
  import opened Prelude
  import opened CanProtocol
  import opened Recovery

  /** The sender: fragment i carries bytes 6i..6i+6 and the sequence number i, wrapped to 8 bits. */
  datatype Sender = Sender(
    transferId: u8, source: RecoverySource, start: u32, requested: u32, firstSequence: u8, stream: seq<u8>)

  predicate Sends(sender: Sender, i: nat) {
    FRAGMENT * (i + 1) <= |sender.stream|
  }

  function SequenceOf(sender: Sender, i: nat): u8 {
    (sender.firstSequence + i) % 0x100
  }

  function FragmentAt(sender: Sender, i: nat): RecoveryLogData
    requires Sends(sender, i)
  {
    RecoveryLogData(sender.transferId, SequenceOf(sender, i),
                    sender.stream[FRAGMENT * i..FRAGMENT * (i + 1)])
  }

  datatype Event =
    | Deliver(index: nat)              // fragment `index` arrives
    | Stray(fragment: RecoveryLogData) // a fragment of another transfer arrives
    | Total(transferId: u8, size: u32) // a status reports a total size
    | Finish(transferId: u8)
    | Stop
    | Abort

  /** A transfer in progress; `next` is one more than the last index delivered, `inOrder` the
      number of fragments delivered in a row while the transfer was open, `resume` what the first
      abort returned. */
  datatype Transfer = Transfer(
    assembler: Assembler, next: nat, inOrder: nat, chunks: seq<Chunk>, resume: Option<Resume>, aborted: bool)

  function Begin(sender: Sender): Transfer {
    Transfer(Started(sender.transferId, sender.source, sender.start, sender.requested), 0, 0, [], None, false)
  }

  /** Fragments arrive in order, the first one is not lost, and no loss is a positive multiple of
      256 fragments; stray fragments are of other transfers; no total falls below what was accepted. */
  predicate Allowed(sender: Sender, t: Transfer, event: Event)
    requires |t.assembler.data| < CHUNK
  {
    match event
    case Deliver(i) =>
      Sends(sender, i) && i >= t.next && (t.next == 0 ==> i == 0) && ((i - t.next) % 0x100 == 0 ==> i == t.next)
    case Stray(f) => |f.data| == FRAGMENT && f.transferId != sender.transferId
    case Total(_, size) => TotalIsAhead(t.assembler, event)
    case _ => true
  }

  predicate TotalIsAhead(a: Assembler, event: Event)
    requires event.Total? && |a.data| < CHUNK
  {
    event.size == 0 || !a.active || a.transferId != event.transferId || event.size >= End(a)
  }

  function Apply(sender: Sender, t: Transfer, event: Event): Transfer
    requires |t.assembler.data| < CHUNK && Allowed(sender, t, event)
  {
    match event
    case Deliver(i) =>
      var p := Push(t.assembler, FragmentAt(sender, i));
      t.(assembler := p.next, next := i + 1, inOrder := if t.assembler.active && i == t.next then i + 1 else t.inOrder,
         chunks := t.chunks + if p.result.Ok? then Slot(p.result.value) else [])
    case Stray(f) => t.(assembler := Push(t.assembler, f).next)
    case Total(id, size) => t.(assembler := WithTotalSize(t.assembler, id, size))
    case Finish(id) =>
      var (a, chunk) := AfterFinish(t.assembler, id);
      t.(assembler := a, chunks := t.chunks + Slot(chunk))
    case Stop =>
      var (a, chunk) := AfterFinish(t.assembler, t.assembler.transferId);
      t.(assembler := a, chunks := t.chunks + Slot(chunk))
    case Abort =>
      var (a, resume) := AfterAbort(t.assembler);
      t.(assembler := a, aborted := true, resume := if t.aborted then t.resume else resume)
  }

  predicate CanRun(sender: Sender, t: Transfer, events: seq<Event>)
    decreases |events|
  {
    |t.assembler.data| < CHUNK &&
    (events == [] || (Allowed(sender, t, events[0]) && CanRun(sender, Apply(sender, t, events[0]), events[1..])))
  }

  function Run(sender: Sender, t: Transfer, events: seq<Event>): (u: Transfer)
    requires CanRun(sender, t, events)
    ensures |u.assembler.data| < CHUNK
    decreases |events|
  {
    if events == [] then t else Run(sender, Apply(sender, t, events[0]), events[1..])
  }

  // ---- What the chunks say

  /** The bytes a chunk carries. */
  function Bytes(chunk: Chunk): seq<u8>
    requires chunk.dataLength <= |chunk.data|
  {
    chunk.data[..chunk.dataLength]
  }

  predicate ChunkShaped(chunk: Chunk) {
    |chunk.data| == CHUNK && chunk.dataLength <= CHUNK && (!chunk.endOfFile ==> chunk.dataLength == CHUNK)
  }

  predicate AllShaped(chunks: seq<Chunk>) {
    forall i | 0 <= i < |chunks| :: ChunkShaped(chunks[i])
  }

  function Emitted(chunks: seq<Chunk>): seq<u8>
    requires AllShaped(chunks)
  {
    if chunks == [] then [] else Emitted(chunks[..|chunks| - 1]) + Bytes(chunks[|chunks| - 1])
  }

  /** Every chunk starts where the one before it ended. */
  predicate Contiguous(start: nat, chunks: seq<Chunk>)
    requires AllShaped(chunks)
  {
    forall i | 0 <= i < |chunks| :: chunks[i].offset == start + |Emitted(chunks[..i])|
  }

  /** Only the last chunk can be the end of the file. */
  predicate OneEnd(chunks: seq<Chunk>) {
    forall i | 0 <= i < |chunks| - 1 :: !chunks[i].endOfFile
  }

  lemma AppendChunk(start: nat, chunks: seq<Chunk>, chunk: Chunk)
    requires AllShaped(chunks) && ChunkShaped(chunk)
    ensures AllShaped(chunks + [chunk]) && Emitted(chunks + [chunk]) == Emitted(chunks) + Bytes(chunk)
    ensures Contiguous(start, chunks) && chunk.offset == start + |Emitted(chunks)| ==>
              Contiguous(start, chunks + [chunk])
    ensures (forall i | 0 <= i < |chunks| :: !chunks[i].endOfFile) ==> OneEnd(chunks + [chunk])
  {
    var longer := chunks + [chunk];
    assert longer[..|chunks|] == chunks;
    forall i | 0 <= i < |longer|
      ensures ChunkShaped(longer[i])
    {
    }
    if Contiguous(start, chunks) && chunk.offset == start + |Emitted(chunks)| {
      forall i | 0 <= i < |longer|
        ensures longer[i].offset == start + |Emitted(longer[..i])|
      {
        if i < |chunks| {
          assert longer[..i] == chunks[..i];
        }
      }
    }
  }

  // ---- The invariant of a transfer

  /** The number of stream bytes accepted: the fragments in order, cut at the total size. */
  function Accepted(sender: Sender, t: Transfer): nat {
    var all := FRAGMENT * t.inOrder;
    match t.assembler.totalSize
    case None => all
    case Some(total) => if total <= sender.start then 0 else Min(all, total - sender.start)
  }

  /** Offsets stay clear of the end of the u32 range, and transfer ids are not 0. */
  predicate Plausible(sender: Sender) {
    sender.start + |sender.stream| <= U32_MAX && sender.transferId != 0
  }

  /** The transfer is open: what was emitted and what is buffered are the accepted bytes. */
  ghost predicate Open(sender: Sender, chunks: seq<Chunk>, a: Assembler, accepted: nat) {
    && |a.data| < CHUNK && accepted <= |sender.stream|
    && AllShaped(chunks) && Contiguous(sender.start, chunks) && (forall i | 0 <= i < |chunks| :: !chunks[i].endOfFile)
    && Emitted(chunks) + a.data == sender.stream[..accepted]
    && a.offset == sender.start + |Emitted(chunks)|
  }

  /** What was emitted is the start of the accepted bytes, and all of them once the end was sent. */
  ghost predicate Prefix(sender: Sender, chunks: seq<Chunk>, accepted: nat) {
    && accepted <= |sender.stream|
    && AllShaped(chunks) && Contiguous(sender.start, chunks) && OneEnd(chunks)
    && |Emitted(chunks)| <= accepted && Emitted(chunks) == sender.stream[..|Emitted(chunks)|]
    && (chunks != [] && chunks[|chunks| - 1].endOfFile ==> |Emitted(chunks)| == accepted)
  }

  lemma OpenIsPrefix(sender: Sender, chunks: seq<Chunk>, a: Assembler, accepted: nat)
    requires Open(sender, chunks, a, accepted)
    ensures Prefix(sender, chunks, accepted) && a.offset + |a.data| == sender.start + accepted
  {
    assert sender.stream[..accepted][..|Emitted(chunks)|] == sender.stream[..|Emitted(chunks)|];
  }

  /** One chunk leaves the buffer. */
  lemma EmitSound(sender: Sender, chunks: seq<Chunk>, a: Assembler, endOfFile: bool, accepted: nat)
    requires Plausible(sender) && |a.data| <= CHUNK && (endOfFile || |a.data| == CHUNK) && accepted <= |sender.stream|
    requires AllShaped(chunks) && Contiguous(sender.start, chunks)
    requires forall i | 0 <= i < |chunks| :: !chunks[i].endOfFile
    requires Emitted(chunks) + a.data == sender.stream[..accepted] && a.offset == sender.start + |Emitted(chunks)|
    ensures var longer := chunks + [ChunkOf(a, endOfFile)];
            && AllShaped(longer) && Contiguous(sender.start, longer) && OneEnd(longer)
            && (!endOfFile ==> forall i | 0 <= i < |longer| :: !longer[i].endOfFile)
            && Emitted(longer) == sender.stream[..accepted]
            && AfterChunk(a, endOfFile).offset == sender.start + accepted
  {
    hide ChunkOf, ChunkShaped, Bytes, Emitted, Contiguous, AllShaped;
    var chunk := ChunkOf(a, endOfFile);
    ChunkCarries(a, endOfFile);
    assert |Emitted(chunks)| + |a.data| == accepted;
    AppendChunk(sender.start, chunks, chunk);
  }

  lemma ChunkCarries(a: Assembler, endOfFile: bool)
    requires |a.data| <= CHUNK && (endOfFile || |a.data| == CHUNK)
    ensures var chunk := ChunkOf(a, endOfFile);
            ChunkShaped(chunk) && Bytes(chunk) == a.data && chunk.offset == a.offset && chunk.endOfFile == endOfFile
  {
  }

  /** The transfer is open, or has ended with everything sent. */
  ghost predicate Settled(sender: Sender, chunks: seq<Chunk>, a: Assembler, accepted: nat) {
    && (if a.active then Open(sender, chunks, a, accepted) else Prefix(sender, chunks, accepted) && a.data == [])
    && a.offset + |a.data| == sender.start + accepted <= sender.start + |sender.stream|
  }

  /** Accepting the next bytes of the stream keeps the transfer open or ends it with everything sent. */
  lemma AcceptSound(sender: Sender, chunks: seq<Chunk>, a: Assembler, bytes: seq<u8>, accepted: nat)
    requires Plausible(sender) && Open(sender, chunks, a, accepted) && a.active && |bytes| <= FRAGMENT
    requires accepted + |bytes| <= |sender.stream| && bytes == sender.stream[accepted..accepted + |bytes|]
    ensures var p := Accept(a, bytes);
            Settled(sender, chunks + Slot(p.result.value), p.next, accepted + |bytes|)
  {
    var joined := a.data + bytes;
    var all := accepted + |bytes|;
    hide ChunkOf, Contiguous, OneEnd, Emitted, AllShaped;
    assert Emitted(chunks) + joined == sender.stream[..all] by {
      assert sender.stream[..all] == sender.stream[..accepted] + bytes;
      assert Emitted(chunks) + joined == Emitted(chunks) + a.data + bytes;
    }
    if |joined| >= CHUNK {
      var full := a.(data := joined[..CHUNK]);
      var last := ReachedEnd(full) && |joined| == CHUNK;
      var length := |Emitted(chunks)| + CHUNK;
      assert Emitted(chunks) + full.data == sender.stream[..length] by {
        assert sender.stream[..all][..length] == sender.stream[..length];
        assert (Emitted(chunks) + joined)[..length] == Emitted(chunks) + full.data;
      }
      EmitSound(sender, chunks, full, last, length);
      assert sender.stream[..all] == sender.stream[..length] + joined[CHUNK..] by {
        assert (Emitted(chunks) + joined)[length..] == joined[CHUNK..];
      }
    } else {
      var filled := a.(data := joined);
      if ReachedEnd(filled) {
        EmitSound(sender, chunks, filled, true, all);
      } else {
        assert chunks + [] == chunks;
      }
    }
  }

  ghost predicate Faithful(sender: Sender, t: Transfer) {
    var a := t.assembler;
    var accepted := Accepted(sender, t);
    && Plausible(sender)
    && a.transferId == sender.transferId && a.source == sender.source
    && FRAGMENT * t.inOrder <= |sender.stream| && accepted <= |sender.stream|
    && (a.totalSize.Some? ==> a.totalSize.value >= sender.start)
    && (a.active ==>
          && Open(sender, t.chunks, a, accepted) && t.inOrder == t.next
          && a.expectedSequence == (if t.next == 0 then None else Some(SequenceOf(sender, t.next))))
    && (!a.active ==> a.data == [] && Prefix(sender, t.chunks, accepted))
    && (!t.aborted ==> a.offset + |a.data| == sender.start + accepted)
    && (t.aborted ==>
          !a.active && t.resume == Some(Resume(sender.transferId, sender.source, sender.start + accepted)))
  }

  lemma BeginFaithful(sender: Sender)
    requires Plausible(sender)
    ensures Faithful(sender, Begin(sender))
  {
  }

  lemma AcceptedGrows(sender: Sender, t: Transfer, n: nat)
    requires Faithful(sender, t) && t.assembler.active && Sends(sender, t.next) && n == FragmentLength(t.assembler)
    ensures Accepted(sender, t.(inOrder := t.next + 1)) == Accepted(sender, t) + n <= |sender.stream|
    ensures FragmentAt(sender, t.next).data[..n] == sender.stream[Accepted(sender, t)..Accepted(sender, t) + n]
  {
    OpenIsPrefix(sender, t.chunks, t.assembler, Accepted(sender, t));
    assert End(t.assembler) == sender.start + Accepted(sender, t);
    assert FRAGMENT * (t.next + 1) == FRAGMENT * t.next + FRAGMENT;
    var f := FragmentAt(sender, t.next).data;
    if n > 0 {
      assert f[..n] == sender.stream[FRAGMENT * t.next..FRAGMENT * t.next + n];
    }
  }

  lemma NextSequence(sender: Sender, i: nat)
    ensures (SequenceOf(sender, i) + 1) % 0x100 == SequenceOf(sender, i + 1)
  {
  }

  function Expecting(sender: Sender, t: Transfer): Assembler {
    t.assembler.(expectedSequence := Some(SequenceOf(sender, t.next + 1)))
  }

  function Taken(sender: Sender, t: Transfer): seq<u8>
    requires |t.assembler.data| < CHUNK && Sends(sender, t.next)
  {
    FragmentAt(sender, t.next).data[..FragmentLength(t.assembler)]
  }

  lemma InOrderStep(sender: Sender, t: Transfer)
    requires Faithful(sender, t) && Allowed(sender, t, Deliver(t.next)) && t.assembler.active
    ensures var p := Accept(Expecting(sender, t), Taken(sender, t));
            p.result.Ok? ==>
              Apply(sender, t, Deliver(t.next)) ==
              t.(assembler := p.next, next := t.next + 1, inOrder := t.next + 1,
                 chunks := t.chunks + Slot(p.result.value))
  {
    NextSequence(sender, t.next);
    hide Accept, FragmentLength, Open, Prefix, SequenceOf;
  }

  /** The fragment that comes next carries the next bytes of the stream. */
  lemma TakenIsNext(sender: Sender, t: Transfer)
    requires Faithful(sender, t) && Sends(sender, t.next) && t.assembler.active
    ensures var all := Accepted(sender, t.(inOrder := t.next + 1));
            && Accepted(sender, t) + |Taken(sender, t)| == all <= |sender.stream|
            && Taken(sender, t) == sender.stream[Accepted(sender, t)..all]
  {
    AcceptedGrows(sender, t, FragmentLength(t.assembler));
    hide Open, Prefix, FragmentLength, FragmentAt, Accepted, SequenceOf;
  }

  lemma InOrderResult(sender: Sender, t: Transfer)
    requires Faithful(sender, t) && Allowed(sender, t, Deliver(t.next)) && t.assembler.active
    ensures var p := Accept(Expecting(sender, t), Taken(sender, t));
            Settled(sender, t.chunks + Slot(p.result.value), p.next, Accepted(sender, t.(inOrder := t.next + 1)))
  {
    TakenIsNext(sender, t);
    hide Accept, Open, Prefix, End, SequenceOf, Taken, FragmentLength, FragmentAt, Accepted;
    ExpectingIsOpen(sender, t);
    AcceptSound(sender, t.chunks, Expecting(sender, t), Taken(sender, t), Accepted(sender, t));
  }

  /** A settled transfer with one more fragment in order is faithful. */
  lemma SettledIsFaithful(sender: Sender, t: Transfer, next: Assembler, chunks: seq<Chunk>)
    requires Faithful(sender, t) && t.assembler.active && Sends(sender, t.next)
    requires next == Expecting(sender, t).(offset := next.offset, data := next.data, active := next.active)
    requires Settled(sender, chunks, next, Accepted(sender, t.(inOrder := t.next + 1)))
    ensures Faithful(sender, t.(assembler := next, next := t.next + 1, inOrder := t.next + 1, chunks := chunks))
  {
    assert FRAGMENT * (t.next + 1) <= |sender.stream|;
    var u := t.(assembler := next, next := t.next + 1, inOrder := t.next + 1, chunks := chunks);
    assert Accepted(sender, u) == Accepted(sender, t.(inOrder := t.next + 1));
    hide Open, Prefix, SequenceOf, Sends, Accepted;
  }

  lemma InOrderFaithful(sender: Sender, t: Transfer)
    requires Faithful(sender, t) && Allowed(sender, t, Deliver(t.next)) && t.assembler.active
    ensures Faithful(sender, Apply(sender, t, Deliver(t.next)))
  {
    InOrderResult(sender, t);
    InOrderStep(sender, t);
    var p := Accept(Expecting(sender, t), Taken(sender, t));
    assert |t.assembler.data| < CHUNK;
    hide Accept, Taken, Apply, Faithful, Settled, Accepted, Slot, Expecting;
    SettledIsFaithful(sender, t, p.next, t.chunks + Slot(p.result.value));
  }

  lemma ExpectingIsOpen(sender: Sender, t: Transfer)
    requires Open(sender, t.chunks, t.assembler, Accepted(sender, t))
    ensures Open(sender, t.chunks, Expecting(sender, t), Accepted(sender, t))
  {
  }

  /** A lost fragment is noticed: the transfer closes and nothing more is emitted. */
  lemma GapNoticed(sender: Sender, t: Transfer, i: nat)
    requires Faithful(sender, t) && Allowed(sender, t, Deliver(i)) && t.assembler.active && i != t.next
    ensures Push(t.assembler, FragmentAt(sender, i)).result == Err(SequenceGap)
    ensures Faithful(sender, Apply(sender, t, Deliver(i)))
  {
    SequencesDiffer(sender, t.next, i);
    OpenIsPrefix(sender, t.chunks, t.assembler, Accepted(sender, t));
    assert t.chunks + [] == t.chunks;
    assert End(t.assembler) == sender.start + Accepted(sender, t);
    hide Open, Prefix, FragmentAt, SequenceOf;
  }

  lemma SequencesDiffer(sender: Sender, i: nat, j: nat)
    requires i <= j
    ensures SequenceOf(sender, i) == SequenceOf(sender, j) <==> (j - i) % 0x100 == 0
  {
  }

  lemma ClosedPrefix(sender: Sender, chunks: seq<Chunk>, a: Assembler, accepted: nat)
    requires Plausible(sender) && Open(sender, chunks, a, accepted)
    ensures Prefix(sender, chunks + [ChunkOf(a, true)], accepted)
    ensures AfterChunk(a, true).offset == sender.start + accepted
  {
    hide ChunkOf, Emitted, Contiguous, OneEnd, AllShaped, ChunkShaped;
    EmitSound(sender, chunks, a, true, accepted);
    ChunkCarries(a, true);
  }

  lemma CloseFaithful(sender: Sender, t: Transfer, transferId: u8)
    requires Faithful(sender, t)
    ensures Faithful(sender, Apply(sender, t, Finish(transferId)))
  {
    hide Prefix, ChunkOf, SequenceOf;
    var a := t.assembler;
    if a.active && a.transferId == transferId {
      ClosedPrefix(sender, t.chunks, a, Accepted(sender, t));
      var u := Apply(sender, t, Finish(transferId));
      assert u.chunks == t.chunks + [ChunkOf(a, true)] && Accepted(sender, u) == Accepted(sender, t);
    } else {
      assert t.chunks + [] == t.chunks;
    }
    hide Open, Accepted;
  }

  lemma AbortFaithful(sender: Sender, t: Transfer)
    requires Faithful(sender, t)
    ensures Faithful(sender, Apply(sender, t, Abort))
  {
    if t.assembler.active {
      OpenIsPrefix(sender, t.chunks, t.assembler, Accepted(sender, t));
    }
    hide Open, Prefix;
  }

  lemma TotalFaithful(sender: Sender, t: Transfer, event: Event)
    requires Faithful(sender, t) && event.Total? && Allowed(sender, t, event)
    ensures Faithful(sender, Apply(sender, t, event))
  {
    if t.assembler.active {
      OpenIsPrefix(sender, t.chunks, t.assembler, Accepted(sender, t));
    }
    hide Prefix;
  }

  /** A fragment for a closed transfer, or one of another transfer, changes nothing. */
  lemma IgnoredFaithful(sender: Sender, t: Transfer, event: Event)
    requires Faithful(sender, t) && Allowed(sender, t, event)
    requires event.Stray? || (event.Deliver? && !t.assembler.active)
    ensures Faithful(sender, Apply(sender, t, event))
  {
    assert t.chunks + [] == t.chunks;
    assert |t.assembler.data| < CHUNK;
    hide Open, Prefix, SequenceOf, Accepted, FragmentAt, Accept, FragmentLength;
  }

  lemma FaithfulStep(sender: Sender, t: Transfer, event: Event)
    requires Faithful(sender, t) && Allowed(sender, t, event)
    ensures Faithful(sender, Apply(sender, t, event))
  {
    match event
    case Deliver(i) =>
      if !t.assembler.active { IgnoredFaithful(sender, t, event); }
      else if i == t.next { InOrderFaithful(sender, t); }
      else { GapNoticed(sender, t, i); }
    case Stray(f) => IgnoredFaithful(sender, t, event);
    case Total(_, _) => TotalFaithful(sender, t, event);
    case Finish(id) => CloseFaithful(sender, t, id);
    case Stop =>
      hide Faithful, AfterFinish;
      CloseFaithful(sender, t, t.assembler.transferId);
      assert Apply(sender, t, Stop) == Apply(sender, t, Finish(t.assembler.transferId));
    case Abort => AbortFaithful(sender, t);
  }

  lemma {:induction false} FaithfulRun(sender: Sender, t: Transfer, events: seq<Event>)
    requires Faithful(sender, t) && CanRun(sender, t, events)
    ensures Faithful(sender, Run(sender, t, events))
    decreases |events|
  {
    hide Faithful, Apply, Allowed;
    if events != [] {
      FaithfulStep(sender, t, events[0]);
      FaithfulRun(sender, Apply(sender, t, events[0]), events[1..]);
    }
  }

  // ---- Main results

  /** Whatever is lost, the chunks are a prefix of the sender's stream, no longer than the total
      size allows; they follow each other without a gap from the start offset; all but the last
      are sixteen bytes long and none but the last ends the file; and once the end is sent,
      nothing accepted is missing. */
  lemma ChunksAreThePrefix(sender: Sender, events: seq<Event>)
    requires Plausible(sender) && CanRun(sender, Begin(sender), events)
    ensures var t := Run(sender, Begin(sender), events);
            && AllShaped(t.chunks) && Contiguous(sender.start, t.chunks) && OneEnd(t.chunks)
            && |Emitted(t.chunks)| <= Accepted(sender, t) <= |sender.stream|
            && Emitted(t.chunks) == sender.stream[..|Emitted(t.chunks)|]
            && (t.assembler.totalSize.Some? ==> sender.start + |Emitted(t.chunks)| <= t.assembler.totalSize.value)
            && (t.chunks != [] && t.chunks[|t.chunks| - 1].endOfFile ==> |Emitted(t.chunks)| == Accepted(sender, t))
  {
    var t := Run(sender, Begin(sender), events);
    BeginFaithful(sender);
    FaithfulRun(sender, Begin(sender), events);
    hide Run, CanRun, Begin, SequenceOf, Allowed;
    if t.assembler.active {
      OpenIsPrefix(sender, t.chunks, t.assembler, Accepted(sender, t));
    }
  }

  /** Finishing an open transfer sends the rest of what was accepted and ends the file. */
  lemma FinishFlushes(sender: Sender, events: seq<Event>)
    requires Plausible(sender) && CanRun(sender, Begin(sender), events)
    requires Run(sender, Begin(sender), events).assembler.active
    ensures var t := Run(sender, Begin(sender), events);
            var u := Apply(sender, t, Finish(sender.transferId));
            && AllShaped(u.chunks) && Accepted(sender, t) <= |sender.stream|
            && Emitted(u.chunks) == sender.stream[..Accepted(sender, t)]
            && |u.chunks| == |t.chunks| + 1 && u.chunks[|t.chunks|].endOfFile && !u.assembler.active
  {
    var t := Run(sender, Begin(sender), events);
    BeginFaithful(sender);
    FaithfulRun(sender, Begin(sender), events);
    hide Run, CanRun, Begin, SequenceOf, Allowed, Contiguous, OneEnd, AllShaped;
    EmitSound(sender, t.chunks, t.assembler, true, Accepted(sender, t));
  }

  /** The first abort, whenever it comes, reports the start offset plus the bytes accepted. */
  lemma FirstAbortReportsAccepted(sender: Sender, events: seq<Event>)
    requires Plausible(sender) && CanRun(sender, Begin(sender), events)
    ensures var t := Run(sender, Begin(sender), events);
            && Accepted(sender, t) <= |sender.stream|
            && (!t.aborted ==>
                  AfterAbort(t.assembler).1 ==
                  Some(Resume(sender.transferId, sender.source, sender.start + Accepted(sender, t))))
            && (t.aborted ==>
                  t.resume == Some(Resume(sender.transferId, sender.source, sender.start + Accepted(sender, t))))
  {
    hide Run, CanRun, Begin, Faithful, Accepted, AfterAbort;
    BeginFaithful(sender);
    FaithfulRun(sender, Begin(sender), events);
    AbortReports(sender, Run(sender, Begin(sender), events));
  }

  lemma AbortReports(sender: Sender, t: Transfer)
    requires Faithful(sender, t)
    ensures Accepted(sender, t) <= |sender.stream| && |t.assembler.data| < CHUNK
    ensures sender.start + Accepted(sender, t) <= U32_MAX
    ensures (if t.aborted then t.resume else AfterAbort(t.assembler).1) ==
            Some(Resume(sender.transferId, sender.source, sender.start + Accepted(sender, t)))
  {
    hide SequenceOf, Accepted;
    if t.assembler.active {
      OpenIsPrefix(sender, t.chunks, t.assembler, Accepted(sender, t));
    }
    hide Open, Prefix;
  }

  /** A second abort repeats the first report if and only if nothing was buffered at the first. */
  lemma SecondAbortFallsBack(a: Assembler)
    requires |a.data| < CHUNK && a.transferId != 0 && a.offset + |a.data| <= U32_MAX
    ensures AfterAbort(AfterAbort(a).0).1 == AfterAbort(a).1 <==> a.data == []
  {
  }

  /** A loss is noticed if and only if a fragment was accepted before and the loss is no multiple of
      256 fragments: whatever arrives first is taken for the opening of the stream. */
  lemma LossNoticed(sender: Sender, events: seq<Event>, i: nat)
    requires Plausible(sender) && CanRun(sender, Begin(sender), events) && Sends(sender, i)
    requires var t := Run(sender, Begin(sender), events); t.assembler.active && t.next <= i
    ensures var t := Run(sender, Begin(sender), events);
            Push(t.assembler, FragmentAt(sender, i)).result == Err(SequenceGap) <==>
              t.next > 0 && (i - t.next) % 0x100 != 0
  {
    hide Run, CanRun, Begin, Faithful, Push, Sends;
    BeginFaithful(sender);
    FaithfulRun(sender, Begin(sender), events);
    GapIsNoticed(sender, Run(sender, Begin(sender), events), i);
  }

  lemma GapIsNoticed(sender: Sender, t: Transfer, i: nat)
    requires Faithful(sender, t) && t.assembler.active && Sends(sender, i) && t.next <= i
    ensures |t.assembler.data| < CHUNK
    ensures Push(t.assembler, FragmentAt(sender, i)).result == Err(SequenceGap) <==>
              t.next > 0 && (i - t.next) % 0x100 != 0
  {
    assert |t.assembler.data| < CHUNK;
    hide Open, Prefix, SequenceOf, Accepted, Accept, FragmentLength;
    SequencesDiffer(sender, t.next, i);
  }

  lemma FragmentStart(sender: Sender, i: nat, n: nat)
    requires Sends(sender, i) && n <= FRAGMENT
    ensures FragmentAt(sender, i).data[..n] == sender.stream[FRAGMENT * i..FRAGMENT * i + n]
  {
  }

  /** Whichever fragment arrives first, its bytes are taken as those at the start offset. */
  lemma OpeningIsWhateverArrives(sender: Sender, i: nat)
    requires Plausible(sender) && Sends(sender, i)
    ensures var p := Push(Begin(sender).assembler, FragmentAt(sender, i));
            var taken := sender.stream[FRAGMENT * i..FRAGMENT * i + FragmentLength(Begin(sender).assembler)];
            && p.result.Ok?
            && match p.result.value
               case None => p.next.active && p.next.offset == sender.start && p.next.data == taken
               case Some(chunk) => ChunkShaped(chunk) && chunk.offset == sender.start && Bytes(chunk) == taken
  {
    var a := Begin(sender).assembler.(expectedSequence := Some((FragmentAt(sender, i).sequence + 1) % 0x100));
    var n := FragmentLength(a);
    var bytes := FragmentAt(sender, i).data[..n];
    FragmentStart(sender, i, n);
    assert a.data + bytes == bytes;
    hide ChunkOf, ChunkShaped, Bytes, FragmentAt, Sends;
    ChunkCarries(a.(data := bytes), true);
  }

  /** So losing the first fragment puts bytes at the start offset that do not belong there. */
  lemma LosingTheFirstGoesUnnoticed() returns (sender: Sender)
    ensures Plausible(sender) && Sends(sender, 0) && Sends(sender, 1)
    ensures var p := Push(Begin(sender).assembler, FragmentAt(sender, 1));
            && p.result == Ok(None) && p.next.active && p.next.offset == sender.start
            && |p.next.data| == FRAGMENT && p.next.data != sender.stream[..FRAGMENT]
  {
    sender := Sender(1, InternalFlash, 0, 0, 0, [0, 0, 0, 0, 0, 0, 1, 1, 1, 1, 1, 1]);
    OpeningIsWhateverArrives(sender, 1);
    hide FragmentAt;
    var p := Push(Begin(sender).assembler, FragmentAt(sender, 1));
    assert sender.stream[FRAGMENT..2 * FRAGMENT][0] == 1 && sender.stream[..FRAGMENT][0] == 0;
  }

  /** Losing 256 fragments in a row joins bytes of the stream that do not belong together. */
  lemma Losing256GoesUnnoticed() returns (sender: Sender)
    ensures Plausible(sender) && Sends(sender, 0) && Sends(sender, 257)
    ensures var first := Push(Begin(sender).assembler, FragmentAt(sender, 0));
            var second := Push(first.next, FragmentAt(sender, 257));
            && second.result == Ok(None) && second.next.active
            && |second.next.data| == 12 && second.next.data != sender.stream[..12]
  {
    var stream: seq<u8> := seq(1548, i => if i < 1542 then 0 else 1);
    sender := Sender(1, InternalFlash, 0, 0, 0, stream);
    assert FragmentAt(sender, 0).data == stream[0..6] && FragmentAt(sender, 257).data == stream[1542..1548];
    var first := Push(Begin(sender).assembler, FragmentAt(sender, 0));
    assert first.next.data == [] + stream[0..6][..6];
    var second := Push(first.next, FragmentAt(sender, 257));
    assert second.next.data == first.next.data + stream[1542..1548][..6];
    assert second.next.data[6] == stream[1542] == 1 && stream[..12][6] == 0;
  }

  /** What was accepted stays within the total. */
  predicate WithinTotal(a: Assembler)
    requires |a.data| < CHUNK
  {
    a.totalSize.Some? ==> End(a) <= a.totalSize.value
  }

  /** A reported total keeps the cut if and only if it is not behind what was already accepted. */
  lemma TotalBehindBreaksTheCut(a: Assembler, transferId: u8, size: u32)
    requires |a.data| < CHUNK && WithinTotal(a)
    ensures WithinTotal(WithTotalSize(a, transferId, size)) <==> TotalIsAhead(a, Total(transferId, size))
  {
  }

  /** A total reported to an open transfer that then finishes: the bytes emitted stay within it if and
      only if it is not below the bytes accepted. */
  lemma LateTotalIsPassedExactly(sender: Sender, events: seq<Event>, size: u32)
    requires Plausible(sender) && CanRun(sender, Begin(sender), events) && size > 0
    requires Run(sender, Begin(sender), events).assembler.active
    ensures var t := Run(sender, Begin(sender), events);
            var late := t.(assembler := WithTotalSize(t.assembler, sender.transferId, size));
            var done := Apply(sender, late, Finish(sender.transferId));
            && AllShaped(done.chunks) && late.assembler.totalSize.Some?
            && (sender.start + |Emitted(done.chunks)| <= late.assembler.totalSize.value <==>
                  size >= sender.start + Accepted(sender, t))
  {
    BeginFaithful(sender);
    FaithfulRun(sender, Begin(sender), events);
    hide Faithful, Run, CanRun, Begin, Accepted, Apply, AllShaped, Emitted, Plausible, WithTotalSize;
    LateTotal(sender, Run(sender, Begin(sender), events), size);
  }

  lemma LateTotal(sender: Sender, t: Transfer, size: u32)
    requires Faithful(sender, t) && t.assembler.active && size > 0
    ensures var late := t.(assembler := WithTotalSize(t.assembler, sender.transferId, size));
            && |late.assembler.data| < CHUNK
            && var done := Apply(sender, late, Finish(sender.transferId));
            && AllShaped(done.chunks) && late.assembler.totalSize.Some?
            && (sender.start + |Emitted(done.chunks)| <= late.assembler.totalSize.value <==>
                  size >= sender.start + Accepted(sender, t))
  {
    var late := WithTotalSize(t.assembler, sender.transferId, size);
    var total := late.totalSize.value;
    assert total <= size && (total < size ==> total >= sender.start + Accepted(sender, t));
    FinishEmits(sender, t, late);
    hide Faithful, Accepted, AllShaped, Emitted, WithTotalSize;
  }

  /** Finishing emits everything accepted, whatever the total says. */
  lemma FinishEmits(sender: Sender, t: Transfer, late: Assembler)
    requires Faithful(sender, t) && t.assembler.active && late == t.assembler.(totalSize := late.totalSize)
    ensures var done := Apply(sender, t.(assembler := late), Finish(sender.transferId));
            AllShaped(done.chunks) && |Emitted(done.chunks)| == Accepted(sender, t)
  {
    assert Open(sender, t.chunks, late, Accepted(sender, t)) && Plausible(sender);
    var done := Apply(sender, t.(assembler := late), Finish(sender.transferId));
    assert done.chunks == t.chunks + [ChunkOf(late, true)];
    assert Accepted(sender, t) <= |sender.stream| && |late.data| < CHUNK;
    hide Faithful, Apply, Accepted, ChunkOf, Emitted, Contiguous, AllShaped, OneEnd, Plausible, End;
    EmitSound(sender, t.chunks, late, true, Accepted(sender, t));
  }

  /** So it happens: two fragments are accepted, a total of 5 is reported, and with the third fragment
      all twelve accepted bytes are emitted. */
  lemma LateTotalEmitsPastIt(stream: seq<u8>)
    requires |stream| == 18
    ensures var sender := Sender(1, InternalFlash, 0, 0, 0, stream);
            var first := Push(Begin(sender).assembler, FragmentAt(sender, 0)).next;
            && |first.data| < CHUNK
            && var second := Push(first, FragmentAt(sender, 1)).next;
            && |second.data| < CHUNK
            && var third := Push(WithTotalSize(second, 1, 5), FragmentAt(sender, 2)).result;
            && third.Ok? && third.value.Some? && third.value.value.endOfFile
            && third.value.value.offset == 0 && third.value.value.dataLength == 12
  {
    var sender := Sender(1, InternalFlash, 0, 0, 0, stream);
    var first := Push(Begin(sender).assembler, FragmentAt(sender, 0)).next;
    assert FragmentAt(sender, 0).data[..6] == stream[..6] && first.data == [] + stream[..6];
    var second := Push(first, FragmentAt(sender, 1)).next;
    assert |second.data| == 12 && second.expectedSequence == Some(2);
    var late := WithTotalSize(second, 1, 5);
    assert FragmentLength(late) == 0 && FragmentAt(sender, 2).data[..0] == [];
    assert late.data + [] == late.data;
  }
}
