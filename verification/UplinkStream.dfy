/** The in-place uplink buffer (UplinkFrameBuffer, src/lora_uplink.rs:137-185) refines the greedy
    parser of the whole stream, and the greedy parser finds every frame it can reach. */
module UplinkStream {
  import opened Prelude
  import opened Uplink

  /** A frame is accepted that starts at `p`. */
  predicate AcceptedAt(stream: seq<u8>, p: nat)
    decreases |stream|
  {
    if stream == [] then false
    else if stream[0] != HEADER then p > 0 && AcceptedAt(stream[1..], p - 1)
    else if |stream| < FRAME_LENGTH then false
    else if DecodeUplink(stream[..FRAME_LENGTH]).Ok? then
      p == 0 || (p >= FRAME_LENGTH && AcceptedAt(stream[FRAME_LENGTH..], p - FRAME_LENGTH))
    else p > 0 && AcceptedAt(stream[1..], p - 1)
  }

  /** An accepted frame that starts before the end of `junk` reaches past it. */
  ghost predicate Overlapped(junk: seq<u8>, frame: seq<u8>) {
    exists p | 0 <= p < |junk| :: AcceptedAt(junk + frame, p) && p + FRAME_LENGTH > |junk|
  }

  /** Accepted frames do not overlap. */
  lemma {:induction false} AcceptedDisjoint(stream: seq<u8>, p: nat, q: nat)
    requires AcceptedAt(stream, p) && AcceptedAt(stream, q) && p < q
    ensures p + FRAME_LENGTH <= q
    decreases |stream|
  {
    hide DecodeUplink;
    if stream[0] != HEADER {
      AcceptedDisjoint(stream[1..], p - 1, q - 1);
    } else if DecodeUplink(stream[..FRAME_LENGTH]).Ok? {
      if p > 0 {
        AcceptedDisjoint(stream[FRAME_LENGTH..], p - FRAME_LENGTH, q - FRAME_LENGTH);
      }
    } else {
      AcceptedDisjoint(stream[1..], p - 1, q - 1);
    }
  }

  lemma OverlappedTail(junk: seq<u8>, frame: seq<u8>, n: nat)
    requires n <= |junk| && !Overlapped(junk, frame)
    requires forall p: nat :: AcceptedAt((junk + frame)[n..], p) ==> AcceptedAt(junk + frame, p + n)
    ensures !Overlapped(junk[n..], frame)
  {
    assert (junk + frame)[n..] == junk[n..] + frame;
    forall p | 0 <= p < |junk[n..]| && p + FRAME_LENGTH > |junk[n..]|
      ensures !AcceptedAt(junk[n..] + frame, p)
    {
      var q := p + n;
      assert !AcceptedAt(junk + frame, q);
    }
  }

  /** A valid frame after any junk that no accepted frame overlaps is decoded when its eleventh
      byte arrives, and leaves the parser waiting for nothing. */
  lemma {:induction false} FrameIsFound(junk: seq<u8>, frame: seq<u8>)
    requires |frame| == FRAME_LENGTH && DecodeUplink(frame).Ok? && !Overlapped(junk, frame)
    ensures Greedy(junk + frame) == Greedy(junk + frame[..10]) + [DecodeUplink(frame)]
    ensures Rest(junk + frame) == [] && AcceptedAt(junk + frame, |junk|)
    decreases |junk|
  {
    var stream, short := junk + frame, junk + frame[..10];
    if junk == [] {
      assert stream == frame && short == frame[..10];
      assert frame[0] == HEADER && frame[..FRAME_LENGTH] == frame;
    } else {
      var n := if junk[0] == HEADER && DecodeUplink(stream[..FRAME_LENGTH]).Ok? then FRAME_LENGTH else 1;
      assert short[..FRAME_LENGTH] == stream[..FRAME_LENGTH];
      if n == FRAME_LENGTH {
        assert AcceptedAt(stream, 0);
        assert |junk| >= FRAME_LENGTH;
      }
      assert stream[n..] == junk[n..] + frame && short[n..] == junk[n..] + frame[..10];
      OverlappedTail(junk, frame, n);
      hide DecodeUplink;
      FrameIsFound(junk[n..], frame);
    }
  }

  /** So a valid frame is accepted where it stands if and only if no earlier accepted frame
      overlaps it. */
  lemma FoundUnlessOverlapped(junk: seq<u8>, frame: seq<u8>)
    requires |frame| == FRAME_LENGTH && DecodeUplink(frame).Ok?
    ensures AcceptedAt(junk + frame, |junk|) <==> !Overlapped(junk, frame)
  {
    if !Overlapped(junk, frame) {
      FrameIsFound(junk, frame);
    } else if AcceptedAt(junk + frame, |junk|) {
      var p :| 0 <= p < |junk| && AcceptedAt(junk + frame, p) && p + FRAME_LENGTH > |junk|;
      AcceptedDisjoint(junk + frame, p, |junk|);
    }
  }

  class UplinkFrameBuffer {
    const bytes: array<u8>
    var length: nat
    ghost var stream: seq<u8> // everything pushed since the last reset

    ghost predicate Valid()
      reads this, bytes
    {
      bytes.Length == FRAME_LENGTH && length < FRAME_LENGTH && bytes[..length] == Rest(stream)
    }

    constructor ()
      ensures Valid() && fresh(bytes) && stream == []
    {
      bytes := new u8[FRAME_LENGTH](_ => 0);
      length := 0;
      stream := [];
    }

    method Reset()
      requires Valid()
      modifies this`length, this`stream
      ensures Valid() && stream == []
    {
      length := 0;
      stream := [];
    }

    /** `self.bytes[1..].position(header) + 1`, or the frame length when there is none. */
    method NextHeader() returns (at: nat)
      requires bytes.Length == FRAME_LENGTH
      ensures 1 <= at <= FRAME_LENGTH && (at < FRAME_LENGTH ==> bytes[at] == HEADER)
      ensures forall i | 1 <= i < at :: bytes[i] != HEADER
    {
      at := 1;
      while at < FRAME_LENGTH && bytes[at] != HEADER
        invariant 1 <= at <= FRAME_LENGTH
        invariant forall i | 1 <= i < at :: bytes[i] != HEADER
      {
        at := at + 1;
      }
    }

    /** `self.bytes.copy_within(from.., 0)` */
    method ShiftDown(from: nat)
      requires bytes.Length == FRAME_LENGTH && 1 <= from <= FRAME_LENGTH
      modifies bytes
      ensures bytes[..FRAME_LENGTH - from] == old(bytes[from..])
    {
      var i := 0;
      while i < FRAME_LENGTH - from
        invariant 0 <= i <= FRAME_LENGTH - from
        invariant forall k | 0 <= k < i :: bytes[k] == old(bytes[k + from])
        invariant forall k | i <= k < FRAME_LENGTH :: bytes[k] == old(bytes[k])
      {
        bytes[i] := bytes[i + from];
        i := i + 1;
      }
    }

    /** Each byte yields exactly what it adds to the greedy parse of the stream. */
    method Push(byte: u8) returns (output: Option<Output>)
      requires Valid()
      modifies this`length, this`stream, bytes
      ensures Valid() && stream == old(stream) + [byte]
      ensures Greedy(stream) == Greedy(old(stream)) + Slot(output)
    {
      ghost var before := stream;
      stream := stream + [byte];
      GreedyResumes(before, [byte]);
      hide DecodeUplink, Greedy, Rest;
      if length == 0 {
        assert Rest(before) + [byte] == [byte];
        OneByte(byte);
        if byte != HEADER {
          assert bytes[..0] == [];
          return None;
        }
        bytes[0] := byte;
        length := 1;
        assert bytes[..1] == [byte];
        return None;
      }

      ghost var held := Rest(before) + [byte];
      assert held[0] == HEADER;
      bytes[length] := byte;
      length := length + 1;
      assert bytes[..length] == held;
      if length != FRAME_LENGTH {
        ShortFrame(held);
        return None;
      }

      assert bytes[..] == held;
      var result := TakeFrame();
      output := Some(result);
    }

    /** Lines 164-178: a full buffer is decoded. */
    method TakeFrame() returns (result: Output)
      requires bytes.Length == FRAME_LENGTH && bytes[0] == HEADER
      modifies this`length, bytes
      ensures length < FRAME_LENGTH && bytes[..length] == Rest(old(bytes[..]))
      ensures Greedy(old(bytes[..])) == [result]
    {
      hide DecodeUplink, Greedy, Rest;
      result := DecodeUplink(bytes[..]);
      if result.Ok? {
        length := 0;
        assert bytes[..0] == [];
        FullAccepted(bytes[..]);
      } else {
        Resynchronise();
      }
    }

    /** Lines 167-177: the bytes from the next header on move to the front. */
    method Resynchronise()
      requires bytes.Length == FRAME_LENGTH && bytes[0] == HEADER && DecodeUplink(bytes[..]).Err?
      modifies this`length, bytes
      ensures length < FRAME_LENGTH && bytes[..length] == Rest(old(bytes[..]))
      ensures Greedy(old(bytes[..])) == [DecodeUplink(old(bytes[..]))]
    {
      ghost var held := bytes[..];
      var next := NextHeader();
      FullRejected(held, next);
      if next < FRAME_LENGTH {
        ShiftDown(next);
        length := FRAME_LENGTH - next;
      } else {
        length := 0;
      }
      assert bytes[..length] == held[next..];
    }
  }

  lemma OneByte(byte: u8)
    ensures Greedy([byte]) == [] && Rest([byte]) == if byte == HEADER then [byte] else []
  {
    assert [byte][1..] == [];
  }

  lemma ShortFrame(held: seq<u8>)
    requires 0 < |held| < FRAME_LENGTH && held[0] == HEADER
    ensures Greedy(held) == [] && Rest(held) == held
  {
  }

  /** A full buffer that decodes yields the command and is used up. */
  lemma FullAccepted(held: seq<u8>)
    requires |held| == FRAME_LENGTH && DecodeUplink(held).Ok?
    ensures Greedy(held) == [DecodeUplink(held)] && Rest(held) == []
  {
    assert held[..FRAME_LENGTH] == held && held[FRAME_LENGTH..] == [];
  }

  /** A full buffer that does not decode yields the error and keeps the part from the next header on. */
  lemma FullRejected(held: seq<u8>, next: nat)
    requires |held| == FRAME_LENGTH && held[0] == HEADER && DecodeUplink(held).Err?
    requires 1 <= next <= FRAME_LENGTH && forall i | 1 <= i < next :: held[i] != HEADER
    requires next < FRAME_LENGTH ==> held[next] == HEADER
    ensures Greedy(held) == [DecodeUplink(held)] && Rest(held) == held[next..]
  {
    assert held[..FRAME_LENGTH] == held;
    hide DecodeUplink;
    SkipToHeader(held[1..], next - 1);
    assert held[1..][next - 1..] == held[next..];
  }

  /** The receive loop (src/tasks/lora_task_base.rs:1082-1120): fed byte by byte, the buffer emits
      the greedy parse of the stream. */
  method ParseStream(received: seq<u8>) returns (outputs: seq<Output>)
    ensures outputs == Greedy(received)
    ensures Err(InvalidHeader) !in outputs
  {
    var buffer := new UplinkFrameBuffer();
    outputs := [];
    for i := 0 to |received|
      invariant buffer.Valid() && fresh(buffer) && fresh(buffer.bytes)
      invariant buffer.stream == received[..i] && outputs == Greedy(received[..i])
    {
      var output := buffer.Push(received[i]);
      assert received[..i + 1] == received[..i] + [received[i]];
      if output.Some? {
        outputs := outputs + [output.value];
      }
    }
    assert received[..|received|] == received;
    NoInvalidHeader(received);
  }
}
