/** The queue of ground time requests (queue_ground_time_request, src/tasks/can_communication.rs:264-298):
    eight slots between the CAN task, which drops the oldest entry of a full queue, and the transmit
    task, which takes entries from the front. */
module TimeRequestQueue {
  import opened Prelude
  import opened LoRaScheduler
  import Payload

  const CAPACITY: nat := 8

  /** An entry that left the queue at the front. */
  datatype Departure = Departure(id: u8, dropped: bool)

  /** The queue and its history: the ids accepted and the entries that left, in order. `newestLost`
      counts how often the new entry itself found no room. */
  datatype Queue = Queue(
    entries: seq<u8>, previous: Option<u8>, accepted: seq<u8>, departed: seq<Departure>, newestLost: nat)

  const EMPTY := Queue([], None, [], [], 0)

  /** `try_receive` */
  function Front(q: Queue, dropped: bool): Queue
    requires q.entries != []
  {
    q.(entries := q.entries[1..], departed := q.departed + [Departure(q.entries[0], dropped)])
  }

  /** `try_send` and its bookkeeping */
  function Sent(q: Queue, id: u8): Queue {
    if |q.entries| < CAPACITY then q.(entries := q.entries + [id], previous := Some(id), accepted := q.accepted + [id])
    else q.(newestLost := q.newestLost + 1)
  }

  function Requested(q: Queue, id: u8): Queue {
    match GroundTimeAction(q.previous, id, |q.entries| >= CAPACITY)
    case IgnoreDuplicate => q
    case Enqueue => Sent(q, id)
    case ReplaceOldest => Sent(if q.entries != [] then Front(q, true) else q, id)
  }

  datatype Step = Request(id: u8) | Deliver

  predicate Enabled(q: Queue, step: Step) {
    step.Deliver? ==> q.entries != []
  }

  function Apply(q: Queue, step: Step): Queue
    requires Enabled(q, step)
  {
    match step
    case Request(id) => Requested(q, id)
    case Deliver => Front(q, false)
  }

  predicate CanRun(q: Queue, steps: seq<Step>)
    decreases |steps|
  {
    steps == [] || (Enabled(q, steps[0]) && CanRun(Apply(q, steps[0]), steps[1..]))
  }

  function Run(q: Queue, steps: seq<Step>): Queue
    requires CanRun(q, steps)
    decreases |steps|
  {
    if steps == [] then q else Run(Apply(q, steps[0]), steps[1..])
  }

  function Ids(departed: seq<Departure>): (ids: seq<u8>)
    ensures |ids| == |departed|
  {
    seq(|departed|, i requires 0 <= i < |departed| => departed[i].id)
  }

  function Dropped(departed: seq<Departure>): (n: nat)
    ensures n <= |departed|
  {
    if departed == [] then 0
    else Dropped(departed[..|departed| - 1]) + if departed[|departed| - 1].dropped then 1 else 0
  }

  ghost predicate NoRepeats(ids: seq<u8>) {
    forall i, j | 0 <= i < j < |ids| && j == i + 1 :: ids[i] != ids[j]
  }

  /** Entries leave in the order they were accepted, none is lost otherwise, no id is accepted twice
      in a row, and a new entry always finds room. */
  ghost predicate Sound(q: Queue) {
    && |q.entries| <= CAPACITY && q.newestLost == 0
    && q.accepted == Ids(q.departed) + q.entries
    && (if q.accepted == [] then q.previous == None else q.previous == Some(q.accepted[|q.accepted| - 1]))
    && NoRepeats(q.accepted)
  }

  lemma FrontSound(q: Queue, dropped: bool)
    requires Sound(q) && q.entries != []
    ensures Sound(Front(q, dropped))
  {
    var t := Front(q, dropped);
    assert Ids(t.departed) == Ids(q.departed) + [q.entries[0]];
    assert q.entries == [q.entries[0]] + q.entries[1..];
  }

  lemma SentSound(q: Queue, id: u8)
    requires Sound(q) && |q.entries| < CAPACITY && q.previous != Some(id)
    ensures Sound(Sent(q, id))
  {
  }

  lemma StepSound(q: Queue, step: Step)
    requires Sound(q) && Enabled(q, step)
    ensures Sound(Apply(q, step)) && q.accepted <= Apply(q, step).accepted
  {
    match step
    case Deliver => FrontSound(q, false);
    case Request(id) =>
      match GroundTimeAction(q.previous, id, |q.entries| >= CAPACITY) {
        case IgnoreDuplicate =>
        case Enqueue => SentSound(q, id);
        case ReplaceOldest =>
          FrontSound(q, true);
          SentSound(Front(q, true), id);
      }
  }

  lemma {:induction false} RunSound(q: Queue, steps: seq<Step>)
    requires Sound(q) && CanRun(q, steps)
    ensures Sound(Run(q, steps)) && q.accepted <= Run(q, steps).accepted
    decreases |steps|
  {
    hide Sound, Apply;
    if steps != [] {
      StepSound(q, steps[0]);
      RunSound(Apply(q, steps[0]), steps[1..]);
    }
  }

  /** In every run: what was accepted is, in order, what was delivered or dropped and then what is
      queued; the queue never rejects a new entry; and no id is accepted twice in a row. */
  lemma RequestsAreConserved(steps: seq<Step>)
    requires CanRun(EMPTY, steps)
    ensures var q := Run(EMPTY, steps);
            && q.accepted == Ids(q.departed) + q.entries
            && |q.accepted| == (|q.departed| - Dropped(q.departed)) + Dropped(q.departed) + |q.entries|
            && q.newestLost == 0 && |q.entries| <= CAPACITY
            && NoRepeats(q.accepted)
  {
    RunSound(EMPTY, steps);
  }

  /** The requested ids, in order. */
  function Requests(steps: seq<Step>): seq<u8> {
    if steps == [] then []
    else
      var last := steps[|steps| - 1];
      Requests(steps[..|steps| - 1]) + if last.Request? then [last.id] else []
  }

  /** The ids without those that repeat the one just before them. */
  function WithoutRepeats(ids: seq<u8>): seq<u8> {
    if ids == [] then []
    else
      var n := |ids| - 1;
      if n > 0 && ids[n] == ids[n - 1] then WithoutRepeats(ids[..n]) else WithoutRepeats(ids[..n]) + [ids[n]]
  }

  lemma RunExtends(q: Queue, steps: seq<Step>)
    requires CanRun(q, steps) && steps != []
    ensures var n := |steps| - 1;
            && CanRun(q, steps[..n]) && Enabled(Run(q, steps[..n]), steps[n])
            && Run(q, steps) == Apply(Run(q, steps[..n]), steps[n])
    decreases |steps|
  {
    hide Apply, Enabled;
    if |steps| == 1 {
      assert Run(Apply(q, steps[0]), []) == Apply(q, steps[0]);
    } else {
      assert steps[..|steps| - 1][1..] == steps[1..][..|steps| - 2] && steps[..|steps| - 1][0] == steps[0];
      RunExtends(Apply(q, steps[0]), steps[1..]);
    }
  }

  /** What a request does to the ids accepted. */
  lemma RequestAccepts(q: Queue, step: Step)
    requires Sound(q) && Enabled(q, step)
    ensures var t := Apply(q, step);
            if step.Request? && q.previous != Some(step.id) then
              t.accepted == q.accepted + [step.id] && t.previous == Some(step.id)
            else t.accepted == q.accepted && t.previous == q.previous
  {
  }

  /** In every run, whatever is delivered meanwhile, the ids accepted are the requested ones without those
      that repeat the one before. */
  lemma {:induction false} EveryNewIdIsAccepted(steps: seq<Step>)
    requires CanRun(EMPTY, steps)
    ensures var q, ids := Run(EMPTY, steps), Requests(steps);
            && q.accepted == WithoutRepeats(ids)
            && q.previous == if ids == [] then None else Some(ids[|ids| - 1])
  {
    if steps != [] {
      var n := |steps| - 1;
      RunExtends(EMPTY, steps);
      EveryNewIdIsAccepted(steps[..n]);
      RunSound(EMPTY, steps[..n]);
      var q := Run(EMPTY, steps[..n]);
      RequestAccepts(q, steps[n]);
      hide Sound, Apply, Run, CanRun, Enabled, WithoutRepeats;
      var ids := Requests(steps[..n]);
      if steps[n].Request? {
        RepeatOrNot(ids, steps[n].id);
      } else {
        assert ids + [] == ids;
      }
    }
  }

  lemma RepeatOrNot(ids: seq<u8>, id: u8)
    ensures WithoutRepeats(ids + [id]) ==
            if ids != [] && ids[|ids| - 1] == id then WithoutRepeats(ids) else WithoutRepeats(ids) + [id]
  {
    assert (ids + [id])[..|ids|] == ids;
  }

  /** Only a request that finds eight entries waiting drops one, and it drops the oldest. */
  lemma DropsOnlyWhenFull(q: Queue, step: Step)
    requires Sound(q) && Enabled(q, step)
    ensures Dropped(Apply(q, step).departed) > Dropped(q.departed) <==>
              step.Request? && |q.entries| == CAPACITY && q.previous != Some(step.id)
    ensures Dropped(Apply(q, step).departed) > Dropped(q.departed) ==>
              Apply(q, step).departed == q.departed + [Departure(q.entries[0], true)]
              && Apply(q, step).entries == q.entries[1..] + [step.id]
  {
    if q.entries != [] {
      DroppedAppend(q.departed, Departure(q.entries[0], true));
      DroppedAppend(q.departed, Departure(q.entries[0], false));
    }
  }

  lemma DroppedAppend(departed: seq<Departure>, last: Departure)
    ensures Dropped(departed + [last]) == Dropped(departed) + if last.dropped then 1 else 0
  {
    assert (departed + [last])[..|departed|] == departed;
  }

  function Wrapped(n: nat): u32 {
    n % U32_LIMIT
  }

  /** `fetch_add(1)` */
  function Next(count: u32): u32 {
    Wrapped(count + 1)
  }

  lemma NextWrapped(n: nat)
    ensures Next(Wrapped(n)) == Wrapped(n + 1)
  {
  }

  lemma TimeRequestsEncode(id: u8)
    ensures Payload.Encode(Payload.GroundTimeRequest(id)).Ok?
  {
    Payload.EncodesExactly(Payload.GroundTimeRequest(id));
  }

  /** The channel, the counters and the task's own memory of the last id. */
  class TimeRequests {
    var channel: seq<u8>
    var previousRequestId: Option<u8>
    var duplicateCount: u32
    var dropCount: u32
    ghost var accepted: seq<u8>
    ghost var departed: seq<Departure>
    ghost var newestLost: nat

    ghost function Value(): Queue
      reads this
    {
      Queue(channel, previousRequestId, accepted, departed, newestLost)
    }

    /** The counter of dropped requests wraps at 2^32. */
    ghost predicate Valid()
      reads this
    {
      Sound(Value()) && dropCount == Wrapped(Dropped(departed))
    }

    constructor ()
      ensures Valid() && Value() == EMPTY && duplicateCount == 0
    {
      channel, previousRequestId := [], None;
      duplicateCount, dropCount := 0, 0;
      accepted, departed, newestLost := [], [], 0;
    }

    method TakeFront(dropped: bool) returns (id: u8)
      requires Sound(Value()) && channel != []
      modifies this`channel, this`departed
      ensures Value() == Front(old(Value()), dropped) && Sound(Value())
      ensures id == old(channel)[0] && Dropped(departed) == Dropped(old(departed)) + if dropped then 1 else 0
    {
      FrontSound(Value(), dropped);
      DroppedAppend(departed, Departure(channel[0], dropped));
      id := channel[0];
      departed := departed + [Departure(id, dropped)];
      channel := channel[1..];
    }

    method Receive() returns (id: u8)
      requires Valid() && channel != []
      modifies this`channel, this`departed
      ensures Valid() && Value() == Front(old(Value()), false) && id == old(channel)[0]
    {
      id := TakeFront(false);
    }

    method RequestTime(requestId: u8)
      requires Valid()
      modifies this
      ensures Valid() && Value() == Requested(old(Value()), requestId)
      ensures duplicateCount ==
              if old(previousRequestId) == Some(requestId) then Next(old(duplicateCount)) else old(duplicateCount)
    {
      StepSound(Value(), Request(requestId));
      hide Sound, Dropped, Wrapped, Next;
      var action := GroundTimeAction(previousRequestId, requestId, |channel| >= CAPACITY);
      if action == IgnoreDuplicate {
        duplicateCount := Next(duplicateCount);
      } else {
        SendWithRoom(requestId, action == ReplaceOldest);
      }
    }

    /** Lines 274-297: the frame is encoded, room is made, and the frame is sent. */
    method SendWithRoom(requestId: u8, replace: bool)
      requires Valid() && previousRequestId != Some(requestId) && replace == (|channel| >= CAPACITY)
      modifies this
      ensures Value() == Requested(old(Value()), requestId)
      ensures dropCount == Wrapped(Dropped(departed)) && duplicateCount == old(duplicateCount)
    {
      TimeRequestsEncode(requestId);
      var frame := Payload.EncodePacket(Payload.GroundTimeRequest(requestId));
      if frame.Ok? {
        MakeRoom(replace);
        Send(requestId);
      }
    }

    method MakeRoom(replace: bool)
      requires Valid()
      modifies this`channel, this`departed, this`dropCount
      ensures Value() == if replace && old(channel) != [] then Front(old(Value()), true) else old(Value())
      ensures Valid()
    {
      hide Sound, Dropped, Next, Wrapped;
      if replace && channel != [] {
        NextWrapped(Dropped(departed));
        var oldest := TakeFront(true);
        dropCount := Next(dropCount);
      }
    }

    /** Lines 286-297. */
    method Send(requestId: u8)
      modifies this
      ensures Value() == Sent(old(Value()), requestId)
      ensures departed == old(departed) && duplicateCount == old(duplicateCount)
      ensures dropCount == if |old(channel)| < CAPACITY then old(dropCount) else Next(old(dropCount))
    {
      if |channel| >= CAPACITY {
        dropCount := Next(dropCount);
        newestLost := newestLost + 1;
        return;
      }
      channel := channel + [requestId];
      previousRequestId := Some(requestId);
      accepted := accepted + [requestId];
    }
  }
}
