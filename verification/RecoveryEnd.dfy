/** When a recovery transfer ends, over any lossy in-order delivery: exactly when its total is reached, with
    the end of the file sent and nothing left over (src/can/recovery.rs:201-308). */
module RecoveryEnd {
  import opened Prelude
  import CanProtocol
  import opened Recovery
  import opened RecoveryTransfer

  /** The bytes of a fragment close the transfer exactly when they reach the total and fit the buffer. */
  lemma AcceptCloses(a: Assembler, bytes: seq<u8>)
    requires |a.data| < CHUNK && |bytes| <= FRAGMENT && a.active
    requires a.offset + |a.data| + |bytes| <= U32_MAX
    ensures var p, sum := Accept(a, bytes), |a.data| + |bytes|;
            && (!p.next.active <==> a.totalSize.Some? && a.offset + sum >= a.totalSize.value && sum <= CHUNK)
            && (!p.next.active ==> p.result.value.Some? && p.result.value.value.endOfFile)
            && (p.next.active ==> |p.next.data| == if sum < CHUNK then sum else sum - CHUNK)
  {
  }

  /** The bytes an in-order fragment adds to what was accepted. */
  function NewBytes(sender: Sender, t: Transfer): int
    requires |t.assembler.data| < CHUNK && Allowed(sender, t, Deliver(t.next))
  {
    Accepted(sender, Apply(sender, t, Deliver(t.next))) - Accepted(sender, t)
  }

  /** The total is known, and that much was accepted. */
  predicate TotalReached(sender: Sender, t: Transfer) {
    t.assembler.totalSize.Some? && sender.start + Accepted(sender, t) >= t.assembler.totalSize.value
  }

  lemma NextIsAllowed(sender: Sender, t: Transfer)
    requires |t.assembler.data| < CHUNK && Sends(sender, t.next)
    ensures Allowed(sender, t, Deliver(t.next))
  {
  }

  lemma ClosesAt(sender: Sender, t: Transfer)
    requires Faithful(sender, t) && t.assembler.active && Sends(sender, t.next)
    ensures |t.assembler.data| < CHUNK && Allowed(sender, t, Deliver(t.next))
    ensures var u := Apply(sender, t, Deliver(t.next));
            var sum := |t.assembler.data| + NewBytes(sender, t);
            && (!u.assembler.active <==> TotalReached(sender, u) && sum <= CHUNK)
            && (!u.assembler.active ==>
                  u.chunks != [] && |u.chunks| == |t.chunks| + 1 && u.chunks[|t.chunks|].endOfFile)
            && (u.assembler.active ==>
                  |u.assembler.data| == (if sum < CHUNK then sum else sum - CHUNK) && u.next == t.next + 1)
  {
    assert |t.assembler.data| < CHUNK;
    NextIsAllowed(sender, t);
    TakenIsNext(sender, t);
    OpenIsPrefix(sender, t.chunks, t.assembler, Accepted(sender, t));
    hide Accept, Open, Prefix, Taken, FragmentLength, FragmentAt, SequenceOf;
    InOrderStep(sender, t);
    AcceptCloses(Expecting(sender, t), Taken(sender, t));
    assert Accepted(sender, Apply(sender, t, Deliver(t.next))) == Accepted(sender, t.(inOrder := t.next + 1));
  }

  /** In every run, with b bytes buffered and n new bytes in the next fragment: the fragment closes the
      transfer, with an end-of-file chunk, if and only if a total is known, what is accepted then reaches
      it, and b + n is at most sixteen. Otherwise the transfer stays open with the rest buffered. */
  lemma TransferEndsExactly(sender: Sender, events: seq<Event>)
    requires Plausible(sender) && CanRun(sender, Begin(sender), events)
    requires var t := Run(sender, Begin(sender), events); t.assembler.active && Sends(sender, t.next)
    ensures var t := Run(sender, Begin(sender), events);
            && Allowed(sender, t, Deliver(t.next))
            && var u := Apply(sender, t, Deliver(t.next));
               var sum := |t.assembler.data| + NewBytes(sender, t);
               && (!u.assembler.active <==> TotalReached(sender, u) && sum <= CHUNK)
               && (!u.assembler.active ==>
                     u.chunks != [] && |u.chunks| == |t.chunks| + 1 && u.chunks[|t.chunks|].endOfFile)
               && (u.assembler.active ==>
                     |u.assembler.data| == (if sum < CHUNK then sum else sum - CHUNK) && u.next == t.next + 1)
  {
    BeginFaithful(sender);
    FaithfulRun(sender, Begin(sender), events);
    hide Run, CanRun, Begin, Faithful, Apply, Allowed, NewBytes, TotalReached, Sends;
    ClosesAt(sender, Run(sender, Begin(sender), events));
  }

  /** The end was sent: the ground has everything up to the total. */
  predicate EndSent(sender: Sender, t: Transfer) {
    && !t.assembler.active && AllShaped(t.chunks) && t.chunks != [] && t.chunks[|t.chunks| - 1].endOfFile
    && t.assembler.totalSize.Some? && sender.start <= t.assembler.totalSize.value
    && t.assembler.totalSize.value - sender.start <= |sender.stream|
    && Emitted(t.chunks) == sender.stream[..t.assembler.totalSize.value - sender.start]
  }

  lemma ClosedHasSentAll(sender: Sender, t: Transfer)
    requires Faithful(sender, t) && TotalReached(sender, t) && !t.assembler.active
    requires t.chunks != [] && t.chunks[|t.chunks| - 1].endOfFile
    ensures EndSent(sender, t)
  {
    hide SequenceOf, Contiguous, OneEnd, AllShaped, Emitted;
  }

  lemma StaysReached(sender: Sender, u: Transfer)
    requires Faithful(sender, u) && u.assembler.active && Sends(sender, u.next) && TotalReached(sender, u)
    ensures |u.assembler.data| < CHUNK && Allowed(sender, u, Deliver(u.next))
    ensures EndSent(sender, Apply(sender, u, Deliver(u.next)))
  {
    ClosesAt(sender, u);
    FaithfulStep(sender, u, Deliver(u.next));
    TakenIsNext(sender, u);
    InOrderStep(sender, u);
    var v := Apply(sender, u, Deliver(u.next));
    hide Accept, Open, Prefix, Taken, FragmentAt, SequenceOf, FragmentLength;
    assert Accepted(sender, v) == Accepted(sender, u.(inOrder := u.next + 1));
    assert Accepted(sender, v) == Accepted(sender, u);
    hide Faithful, Apply;
    ClosedHasSentAll(sender, v);
  }

  /** In every run, once the total is reached the transfer is closed with all its bytes sent, or the next
      fragment in sequence closes it and sends the rest. */
  lemma ReachedTotalIsSent(sender: Sender, events: seq<Event>)
    requires Plausible(sender) && CanRun(sender, Begin(sender), events)
    requires var t := Run(sender, Begin(sender), events); t.assembler.active && Sends(sender, t.next)
    requires TotalReached(sender, Run(sender, Begin(sender), events))
    ensures var t := Run(sender, Begin(sender), events);
            Allowed(sender, t, Deliver(t.next)) && EndSent(sender, Apply(sender, t, Deliver(t.next)))
  {
    BeginFaithful(sender);
    FaithfulRun(sender, Begin(sender), events);
    hide Run, CanRun, Begin, Faithful, Apply, Allowed, TotalReached, Sends, EndSent;
    StaysReached(sender, Run(sender, Begin(sender), events));
  }

  // ---- Closed transfers

  lemma ClosedStep(sender: Sender, t: Transfer, event: Event)
    requires |t.assembler.data| < CHUNK && Allowed(sender, t, event) && !t.assembler.active
    ensures var u := Apply(sender, t, event); u.chunks == t.chunks && !u.assembler.active
  {
    assert t.chunks + [] == t.chunks;
    hide ChunkOf, Accept, FragmentLength, SequenceOf;
  }

  /** Nothing is emitted after the end of a transfer, however it came about. */
  lemma {:induction false} NothingAfterTheEnd(sender: Sender, t: Transfer, events: seq<Event>)
    requires CanRun(sender, t, events) && !t.assembler.active
    ensures var u := Run(sender, t, events); u.chunks == t.chunks && !u.assembler.active
    decreases |events|
  {
    hide Apply, Allowed;
    if events != [] {
      ClosedStep(sender, t, events[0]);
      NothingAfterTheEnd(sender, Apply(sender, t, events[0]), events[1..]);
    }
  }

  /** In every run, an abort ends the transfer without a chunk; finishing ends it with exactly one, the end of
      the file, if it is open and the one named; and finishing any other transfer changes nothing. */
  lemma EndsOnRequestExactly(sender: Sender, events: seq<Event>, transferId: u8)
    requires Plausible(sender) && CanRun(sender, Begin(sender), events)
    ensures var t := Run(sender, Begin(sender), events);
            var aborted, finished := Apply(sender, t, Abort), Apply(sender, t, Finish(transferId));
            && !aborted.assembler.active && aborted.chunks == t.chunks
            && (if t.assembler.active && transferId == sender.transferId then
                  && !finished.assembler.active && |finished.chunks| == |t.chunks| + 1
                  && finished.chunks[..|t.chunks|] == t.chunks && finished.chunks[|t.chunks|].endOfFile
                else finished == t)
  {
    BeginFaithful(sender);
    FaithfulRun(sender, Begin(sender), events);
    var t := Run(sender, Begin(sender), events);
    assert t.assembler.transferId == sender.transferId && |t.assembler.data| < CHUNK;
    assert t.chunks + [] == t.chunks;
    hide Run, CanRun, Begin, Faithful, Plausible, End;
  }

  // ---- Which total is in force

  /** The totals reported for the open transfer, in order. */
  function Reported(sender: Sender, t: Transfer, events: seq<Event>): seq<u32>
    requires CanRun(sender, t, events)
    decreases |events|
  {
    if events == [] then []
    else
      var e := events[0];
      (if e.Total? && e.size != 0 && e.transferId == sender.transferId && t.assembler.active then [e.size] else [])
      + Reported(sender, Apply(sender, t, e), events[1..])
  }

  /** The size is the smallest of those known; there is none exactly when none is known. */
  predicate IsSmallest(size: Option<u32>, known: seq<u32>) {
    match size
    case None => known == []
    case Some(v) => v in known && forall i | 0 <= i < |known| :: v <= known[i]
  }

  lemma SmallestGrows(size: Option<u32>, known: seq<u32>, more: u32)
    requires IsSmallest(size, known)
    ensures IsSmallest(Some(if size.Some? then Min(size.value, more) else more), known + [more])
  {
    assert (known + [more])[|known|] == more;
    if size.Some? {
      var i :| 0 <= i < |known| && known[i] == size.value;
      assert (known + [more])[i] == size.value;
    }
  }

  lemma OnlyTotalsCount(sender: Sender, t: Transfer, event: Event)
    requires |t.assembler.data| < CHUNK && Allowed(sender, t, event) && t.assembler.transferId == sender.transferId
    ensures var a, b := t.assembler, Apply(sender, t, event).assembler;
            && b.transferId == sender.transferId
            && b.totalSize ==
               if event.Total? && event.size != 0 && event.transferId == sender.transferId && a.active
               then Some(if a.totalSize.Some? then Min(a.totalSize.value, event.size) else event.size)
               else a.totalSize
  {
    hide ChunkOf, FragmentLength, SequenceOf;
  }

  lemma {:induction false} SmallestRun(sender: Sender, t: Transfer, events: seq<Event>, known: seq<u32>)
    requires CanRun(sender, t, events) && t.assembler.transferId == sender.transferId
    requires IsSmallest(t.assembler.totalSize, known)
    ensures IsSmallest(Run(sender, t, events).assembler.totalSize, known + Reported(sender, t, events))
    decreases |events|
  {
    hide Apply, Allowed, IsSmallest;
    if events == [] {
      assert known + [] == known;
    } else {
      var e := events[0];
      OnlyTotalsCount(sender, t, e);
      var more := if e.Total? && e.size != 0 && e.transferId == sender.transferId && t.assembler.active
                  then [e.size] else [];
      if more != [] {
        SmallestGrows(t.assembler.totalSize, known, e.size);
      }
      assert known + more == if more == [] then known else known + [e.size];
      SmallestRun(sender, Apply(sender, t, e), events[1..], known + more);
      assert known + Reported(sender, t, events) ==
             known + more + Reported(sender, Apply(sender, t, e), events[1..]);
    }
  }

  /** In every run the total in force is the smallest of the requested end and the totals reported for the
      transfer while it was open. */
  lemma TotalIsTheSmallest(sender: Sender, events: seq<Event>)
    requires CanRun(sender, Begin(sender), events)
    ensures IsSmallest(Run(sender, Begin(sender), events).assembler.totalSize,
                       (if sender.requested != 0 then [Min(sender.start + sender.requested, U32_MAX)] else [])
                       + Reported(sender, Begin(sender), events))
  {
    var known := if sender.requested != 0 then [Min(sender.start + sender.requested, U32_MAX)] else [];
    assert IsSmallest(Begin(sender).assembler.totalSize, known);
    SmallestRun(sender, Begin(sender), events, known);
  }

  // ---- Labels, padding and rejected fragments

  /** The chunk belongs to the sender's transfer, and what follows its bytes is zero. */
  predicate Labelled(sender: Sender, chunk: Chunk) {
    && chunk.transferId == sender.transferId && chunk.source == sender.source
    && forall i | chunk.dataLength <= i < |chunk.data| :: chunk.data[i] == 0
  }

  predicate AllLabelled(sender: Sender, t: Transfer) {
    && t.assembler.transferId == sender.transferId && t.assembler.source == sender.source
    && forall i | 0 <= i < |t.chunks| :: Labelled(sender, t.chunks[i])
  }

  lemma ChunkLabelled(sender: Sender, a: Assembler, endOfFile: bool)
    requires |a.data| <= CHUNK && a.transferId == sender.transferId && a.source == sender.source
    ensures Labelled(sender, ChunkOf(a, endOfFile))
  {
  }

  lemma AcceptLabelled(sender: Sender, a: Assembler, bytes: seq<u8>)
    requires |a.data| < CHUNK && |bytes| <= FRAGMENT
    requires a.transferId == sender.transferId && a.source == sender.source
    ensures var p := Accept(a, bytes);
            && p.next.transferId == a.transferId && p.next.source == a.source
            && (p.result.value.Some? ==> Labelled(sender, p.result.value.value))
  {
    hide Labelled, ChunkOf, ReachedEnd;
    var joined := a.data + bytes;
    forall b: Assembler, endOfFile | b.transferId == a.transferId && b.source == a.source && |b.data| <= CHUNK
      ensures Labelled(sender, ChunkOf(b, endOfFile))
    {
      ChunkLabelled(sender, b, endOfFile);
    }
  }

  lemma LabelledStep(sender: Sender, t: Transfer, event: Event)
    requires |t.assembler.data| < CHUNK && Allowed(sender, t, event) && AllLabelled(sender, t)
    ensures AllLabelled(sender, Apply(sender, t, event))
  {
    ChunkLabelled(sender, t.assembler, true);
    match event
    case Deliver(i) => PushLabelled(sender, t.assembler, FragmentAt(sender, i));
    case Stray(f) => PushLabelled(sender, t.assembler, f);
    case _ =>
    hide Labelled, ChunkOf, Push, SequenceOf, FragmentAt, End;
  }

  lemma PushLabelled(sender: Sender, a: Assembler, f: CanProtocol.RecoveryLogData)
    requires |a.data| < CHUNK && |f.data| == FRAGMENT
    requires a.transferId == sender.transferId && a.source == sender.source
    ensures var p := Push(a, f);
            && p.next.transferId == a.transferId && p.next.source == a.source
            && (p.result.Ok? && p.result.value.Some? ==> Labelled(sender, p.result.value.value))
  {
    hide Labelled, Accept, FragmentLength;
    var b := a.(expectedSequence := Some((f.sequence + 1) % 0x100));
    AcceptLabelled(sender, b, f.data[..FragmentLength(b)]);
    assert FragmentLength(b) == FragmentLength(a) by {
      SameLength(a, b);
    }
  }

  lemma SameLength(a: Assembler, b: Assembler)
    requires |a.data| < CHUNK && b == a.(expectedSequence := b.expectedSequence)
    ensures FragmentLength(a) == FragmentLength(b)
  {
  }

  lemma {:induction false} LabelledRun(sender: Sender, t: Transfer, events: seq<Event>)
    requires CanRun(sender, t, events) && AllLabelled(sender, t)
    ensures AllLabelled(sender, Run(sender, t, events))
    decreases |events|
  {
    hide Apply, Allowed, AllLabelled;
    if events != [] {
      LabelledStep(sender, t, events[0]);
      LabelledRun(sender, Apply(sender, t, events[0]), events[1..]);
    }
  }

  /** In every run each chunk names the sender's transfer and source, and its unused bytes are zero. */
  lemma ChunksAreLabelled(sender: Sender, events: seq<Event>, i: nat)
    requires CanRun(sender, Begin(sender), events) && i < |Run(sender, Begin(sender), events).chunks|
    ensures Labelled(sender, Run(sender, Begin(sender), events).chunks[i])
  {
    LabelledRun(sender, Begin(sender), events);
  }

  /** Which fragments are rejected, and why; a rejected fragment changes nothing, but a gap closes the
      transfer and drops what was buffered. */
  lemma RejectedExactly(a: Assembler, f: CanProtocol.RecoveryLogData)
    requires |a.data| < CHUNK && |f.data| == FRAGMENT
    ensures var p := Push(a, f);
            && (p.result == Err(NotStarted) <==> !a.active)
            && (p.result == Err(WrongTransfer) <==> a.active && f.transferId != a.transferId)
            && (p.result == Err(SequenceGap) <==>
                  a.active && f.transferId == a.transferId && a.expectedSequence !in {None, Some(f.sequence)})
            && (p.result in {Err(NotStarted), Err(WrongTransfer)} ==> p.next == a)
            && (p.result == Err(SequenceGap) ==> !p.next.active && p.next.data == [])
  {
    hide Accept, FragmentLength;
  }
}
