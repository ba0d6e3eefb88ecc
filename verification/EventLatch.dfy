/** The latch of mission event flags (src/can/cache.rs:154-164, 216-224) under every interleaving of
    events with the transmit task, which snapshots the flags into a flight frame, may lose the frame
    to a preemption or a failed write, and clears what it sent later
    (src/tasks/lora_task_base.rs:559, 649-650, 687-703, 765-773, 1385-1390). */
module EventLatch {
  import opened Prelude
  import opened Bits
  import opened CanProtocol
  import opened CanCache
  import LoRaScheduler

  const REPORTED_FLAGS: bv16 := 0x001f

  /** map_flight_interval_events */
  function MapFlightIntervalEvents(events: bv16): (status: bv16) {
    (if events & 0x0001 != 0 then 0x0200 else 0)
    | (if events & 0x0002 != 0 then 0x0400 else 0)
    | (if events & 0x0004 != 0 then 0x0800 else 0)
    | (if events & 0x0008 != 0 then 0x1000 else 0)
    | (if events & 0x0010 != 0 then 0x4000 else 0)
  }

  /** The status bit that reports an event flag. */
  function StatusBit(flag: bv16): bv16 {
    match flag
    case 0x0001 => 0x0200
    case 0x0002 => 0x0400
    case 0x0004 => 0x0800
    case 0x0008 => 0x1000
    case 0x0010 => 0x4000
    case _ => 0
  }

  predicate IsReported(flag: bv16) {
    flag == 0x0001 || flag == 0x0002 || flag == 0x0004 || flag == 0x0008 || flag == 0x0010
  }

  /** A periodic frame: its flight status, the flags it will clear, the revision it saw, and how many
      events had been accepted when it was built. */
  datatype Frame = Frame(status: bv16, events: bv16, revision: u32, seen: nat)

  datatype Phase = Idle | Holding(frame: Frame) | Acknowledging(frame: Frame)

  /** The latch, the transmit task's phase, and the history: the flags of every accepted event and
      every frame sent. */
  datatype State = State(latch: Latch, phase: Phase, accepted: seq<bv16>, sent: seq<Frame>)

  datatype Step =
    | Event(event: MissionEvent)
    | Snapshot(flight: bool, status: bv16)  // a periodic packet is built on this mission status
    | Lose                                  // preempted, or the write failed
    | Send
    | Clear

  const START := State(Latch(0, 0, None), Idle, [], [])

  predicate Enabled(s: State, step: Step) {
    match step
    case Event(_) => true
    case Snapshot(_, _) => s.phase.Idle?
    case Lose => s.phase.Holding?
    case Send => s.phase.Holding?
    case Clear => s.phase.Acknowledging?
  }

  /** A flight status word that also reports the latched events. */
  function WithEvents(status: bv16, latched: bv16): bv16 {
    status | MapFlightIntervalEvents(latched)
  }

  /** The flags a flight frame will clear once it was sent. */
  function Carried(latched: bv16): bv16 {
    latched & REPORTED_FLAGS
  }

  function Built(s: State, flight: bool, status: bv16): Frame {
    if flight then
      Frame(WithEvents(status, s.latch.flags), Carried(s.latch.flags), s.latch.revision, |s.accepted|)
    else Frame(0, 0, s.latch.revision, |s.accepted|)
  }

  function Apply(s: State, step: Step): State
    requires Enabled(s, step)
  {
    match step
    case Event(event) =>
      s.(latch := Latched(s.latch, event),
         accepted := if s.latch.lastSequence == Some(event.sequence) then s.accepted
                     else s.accepted + [FlagBits(event)])
    case Snapshot(flight, status) => s.(phase := Holding(Built(s, flight, status)))
    case Lose => s.(phase := Idle)
    case Send => s.(phase := Acknowledging(s.phase.frame), sent := s.sent + [s.phase.frame])
    case Clear =>
      s.(phase := Idle,
         latch := if LoRaScheduler.ShouldClearPeriodicEvents(LoRaScheduler.Periodic, true, s.phase.frame.events == 0)
                  then Cleared(s.latch, s.phase.frame.events, s.phase.frame.revision) else s.latch)
  }

  predicate CanRun(s: State, steps: seq<Step>)
    decreases |steps|
  {
    steps == [] || (Enabled(s, steps[0]) && CanRun(Apply(s, steps[0]), steps[1..]))
  }

  function Run(s: State, steps: seq<Step>): State
    requires CanRun(s, steps)
    decreases |steps|
  {
    if steps == [] then s else Run(Apply(s, steps[0]), steps[1..])
  }

  /** No clear finds the revision wrapped round to the one its frame saw: the events accepted since
      are not a positive multiple of 2^32. */
  predicate NoWrap(s: State, step: Step)
    requires Enabled(s, step)
  {
    step.Clear? ==>
      |s.accepted| <= s.phase.frame.seen || (|s.accepted| - s.phase.frame.seen) % U32_LIMIT != 0
  }

  predicate NeverWraps(s: State, steps: seq<Step>)
    requires CanRun(s, steps)
    decreases |steps|
  {
    steps == [] || (NoWrap(s, steps[0]) && NeverWraps(Apply(s, steps[0]), steps[1..]))
  }

  // ---- Invariants

  predicate Counted(s: State) {
    && s.latch.revision == |s.accepted| % U32_LIMIT
    && (s.phase != Idle ==>
          && s.phase.frame.seen <= |s.accepted|
          && s.phase.frame.revision == s.phase.frame.seen % U32_LIMIT
          && s.phase.frame.events & !REPORTED_FLAGS == 0)
    && (s.phase.Acknowledging? ==> s.sent != [] && s.sent[|s.sent| - 1] == s.phase.frame)
  }

  /** A frame reports every flag it will clear. */
  ghost predicate Reports(f: Frame) {
    forall flag | IsReported(flag) && Any(f.events, flag) :: Any(f.status, StatusBit(flag))
  }

  ghost predicate SentReports(s: State) {
    && (forall i | 0 <= i < |s.sent| :: Reports(s.sent[i]))
    && (s.phase != Idle ==> Reports(s.phase.frame))
  }

  /** A frame built after the n-th event and sent carries one of the flags. */
  predicate SentWith(sent: seq<Frame>, n: nat, flags: bv16) {
    exists i | 0 <= i < |sent| :: sent[i].seen > n && Any(sent[i].events, flags)
  }

  /** Every flag of every accepted event is still latched or was sent by a frame built after it. */
  ghost predicate Kept(s: State, flags: bv16) {
    forall n | 0 <= n < |s.accepted| && Any(s.accepted[n], flags) ::
      Any(s.latch.flags, flags) || SentWith(s.sent, n, flags)
  }

  lemma CountedStep(s: State, step: Step)
    requires Counted(s) && Enabled(s, step)
    ensures Counted(Apply(s, step))
  {
    match step
    case Event(event) =>
      if s.latch.lastSequence != Some(event.sequence) {
        Increment(|s.accepted|);
      }
    case Snapshot(_, _) =>
      var latched := s.latch.flags;
      assert (latched & REPORTED_FLAGS) & !REPORTED_FLAGS == 0;
    case _ =>
  }

  lemma Increment(n: nat)
    ensures (n % U32_LIMIT + 1) % U32_LIMIT == (n + 1) % U32_LIMIT
  {
  }

  lemma SameRevision(a: nat, b: nat)
    requires a <= b
    ensures a % U32_LIMIT == b % U32_LIMIT <==> (b - a) % U32_LIMIT == 0
  {
  }

  lemma BuiltReports(s: State, flight: bool, status: bv16)
    ensures Reports(Built(s, flight, status))
  {
  }

  lemma ReportsStep(s: State, step: Step)
    requires SentReports(s) && Enabled(s, step)
    ensures SentReports(Apply(s, step))
  {
    if step.Snapshot? {
      BuiltReports(s, step.flight, step.status);
    }
    hide Reports, Built;
  }

  lemma OrKeeps(a: bv16, b: bv16, flags: bv16)
    ensures Any(a | b, flags) <==> Any(a, flags) || Any(b, flags)
  {
    OrDistributes(a, b, flags);
    OrIsZero(a & flags, b & flags);
  }

  lemma OrDistributes(a: bv16, b: bv16, flags: bv16)
    ensures (a | b) & flags == (a & flags) | (b & flags)
  {
  }

  lemma OrIsZero(a: bv16, b: bv16)
    ensures a | b == 0 <==> a == 0 && b == 0
  {
  }

  /** Clearing takes a flag away only by clearing one of the flags asked for. */
  lemma ClearTakes(latched: bv16, cleared: bv16, flags: bv16)
    requires Any(latched, flags) && !Any(latched & !cleared, flags)
    ensures Any(cleared, flags) && cleared != 0
  {
  }

  lemma EventKeeps(s: State, event: MissionEvent, flags: bv16)
    requires Kept(s, flags)
    ensures Kept(Apply(s, Event(event)), flags)
  {
    hide Any, SentWith, FlagBits;
    OrKeeps(s.latch.flags, FlagBits(event), flags);
    assert |s.accepted + [FlagBits(event)]| == |s.accepted| + 1;
  }

  lemma SentWithMore(sent: seq<Frame>, frame: Frame, n: nat, flags: bv16)
    requires SentWith(sent, n, flags)
    ensures SentWith(sent + [frame], n, flags)
  {
    hide Any;
    var i :| 0 <= i < |sent| && sent[i].seen > n && Any(sent[i].events, flags);
    assert (sent + [frame])[i] == sent[i];
  }

  lemma SendKeeps(s: State, flags: bv16)
    requires Kept(s, flags) && s.phase.Holding?
    ensures Kept(Apply(s, Send), flags)
  {
    hide Any, SentWith;
    forall n | 0 <= n < |s.accepted| && SentWith(s.sent, n, flags)
      ensures SentWith(s.sent + [s.phase.frame], n, flags)
    {
      SentWithMore(s.sent, s.phase.frame, n, flags);
    }
  }

  lemma ClearKeeps(s: State, flags: bv16)
    requires Counted(s) && Kept(s, flags) && s.phase.Acknowledging? && NoWrap(s, Clear)
    ensures Kept(Apply(s, Clear), flags)
  {
    var f := s.phase.frame;
    var t := Apply(s, Clear);
    if Any(s.latch.flags, flags) && !Any(t.latch.flags, flags) {
      ClearTakes(s.latch.flags, f.events, flags);
      SameRevision(f.seen, |s.accepted|);
      hide Any;
      assert s.sent[|s.sent| - 1] == f && f.seen == |s.accepted|;
      assert forall n | 0 <= n < |s.accepted| :: SentWith(s.sent, n, flags);
    } else {
      hide Any, SentWith;
    }
  }

  lemma KeptStep(s: State, step: Step, flags: bv16)
    requires Counted(s) && Kept(s, flags) && Enabled(s, step) && NoWrap(s, step)
    ensures Kept(Apply(s, step), flags)
  {
    match step
    case Event(event) => EventKeeps(s, event, flags);
    case Send => SendKeeps(s, flags);
    case Clear => ClearKeeps(s, flags);
    case _ => hide Any, SentWith, Built;
  }

  lemma {:induction false} KeptRun(s: State, steps: seq<Step>, flags: bv16)
    requires CanRun(s, steps) && NeverWraps(s, steps)
    requires Counted(s) && SentReports(s) && Kept(s, flags)
    ensures Counted(Run(s, steps)) && SentReports(Run(s, steps)) && Kept(Run(s, steps), flags)
    decreases |steps|
  {
    hide Apply, Enabled, NoWrap, Counted, SentReports, Kept;
    if steps != [] {
      CountedStep(s, steps[0]);
      ReportsStep(s, steps[0]);
      KeptStep(s, steps[0], flags);
      KeptRun(Apply(s, steps[0]), steps[1..], flags);
    }
  }

  // ---- Main results

  /** A reported flag of an accepted event stays latched until a flight frame built after the event
      was sent with the flag's status bit set. */
  lemma FlagStaysUntilSent(steps: seq<Step>, n: nat, flag: bv16)
    requires CanRun(START, steps) && NeverWraps(START, steps) && IsReported(flag)
    requires var s := Run(START, steps); n < |s.accepted| && Any(s.accepted[n], flag)
    ensures var s := Run(START, steps);
            || Any(s.latch.flags, flag)
            || exists i | 0 <= i < |s.sent| ::
                 s.sent[i].seen > n && Any(s.sent[i].events, flag) && Any(s.sent[i].status, StatusBit(flag))
  {
    StartKeeps(flag);
    KeptRun(START, steps, flag);
    var s := Run(START, steps);
    hide Run, CanRun, NeverWraps, Any, Counted;
    if !Any(s.latch.flags, flag) {
      var i :| 0 <= i < |s.sent| && s.sent[i].seen > n && Any(s.sent[i].events, flag);
      assert Reports(s.sent[i]);
    }
  }

  lemma StartKeeps(flags: bv16)
    ensures Counted(START) && SentReports(START) && Kept(START, flags)
  {
  }

  /** Every one of these flags that an event raised is still latched. */
  ghost predicate AllLatched(s: State, flags: bv16) {
    forall n | 0 <= n < |s.accepted| && Any(s.accepted[n], flags) :: Any(s.latch.flags, flags)
  }

  lemma OnlyReported(events: bv16, flags: bv16)
    requires events & !REPORTED_FLAGS == 0 && !Any(flags, REPORTED_FLAGS)
    ensures !Any(events, flags)
  {
  }

  /** No clear takes an unreported flag away, whatever revision it finds. */
  lemma UnreportedStep(s: State, step: Step, flags: bv16)
    requires Counted(s) && AllLatched(s, flags) && !Any(flags, REPORTED_FLAGS) && Enabled(s, step)
    ensures AllLatched(Apply(s, step), flags)
  {
    match step
    case Event(event) =>
      hide Any, FlagBits;
      OrKeeps(s.latch.flags, FlagBits(event), flags);
      assert |s.accepted + [FlagBits(event)]| == |s.accepted| + 1;
    case Clear =>
      var latched, cleared := s.latch.flags, s.phase.frame.events;
      OnlyReported(cleared, flags);
      if Any(latched, flags) && !Any(latched & !cleared, flags) {
        ClearTakes(latched, cleared, flags);
      }
      hide Any;
    case _ => hide Any, Built;
  }

  lemma {:induction false} UnreportedRun(s: State, steps: seq<Step>, flags: bv16)
    requires CanRun(s, steps) && Counted(s) && AllLatched(s, flags) && !Any(flags, REPORTED_FLAGS)
    ensures AllLatched(Run(s, steps), flags)
    decreases |steps|
  {
    hide Apply, Enabled, Counted, AllLatched, Any;
    if steps != [] {
      CountedStep(s, steps[0]);
      UnreportedStep(s, steps[0], flags);
      UnreportedRun(Apply(s, steps[0]), steps[1..], flags);
    }
  }

  /** Flags outside the five reported ones are never cleared, in any run. */
  lemma UnreportedFlagsStay(steps: seq<Step>, n: nat, flags: bv16)
    requires CanRun(START, steps) && !Any(flags, REPORTED_FLAGS)
    requires var s := Run(START, steps); n < |s.accepted| && Any(s.accepted[n], flags)
    ensures Any(Run(START, steps).latch.flags, flags)
  {
    UnreportedRun(START, steps, flags);
    hide Any;
  }

  // ---- The same, told from the events themselves

  /** The sequence number of the last event. */
  function LastSequence(steps: seq<Step>): Option<u8> {
    if steps == [] then None
    else
      var last := steps[|steps| - 1];
      if last.Event? then Some(last.event.sequence) else LastSequence(steps[..|steps| - 1])
  }

  /** Step `k` is an event that does not repeat the sequence number of the one before. */
  predicate IsNew(steps: seq<Step>, k: nat)
    requires k < |steps|
  {
    steps[k].Event? && LastSequence(steps[..k]) != Some(steps[k].event.sequence)
  }

  /** The number of such events. */
  function NewEvents(steps: seq<Step>): nat {
    if steps == [] then 0
    else NewEvents(steps[..|steps| - 1]) + if IsNew(steps, |steps| - 1) then 1 else 0
  }

  lemma {:induction false} RunSplits(s: State, steps: seq<Step>, k: nat)
    requires CanRun(s, steps) && k <= |steps|
    ensures CanRun(s, steps[..k]) && CanRun(Run(s, steps[..k]), steps[k..])
    ensures Run(s, steps) == Run(Run(s, steps[..k]), steps[k..])
    decreases k
  {
    hide Apply, Enabled;
    if k > 0 {
      assert steps[..k][0] == steps[0] && steps[..k][1..] == steps[1..][..k - 1] && steps[1..][k - 1..] == steps[k..];
      RunSplits(Apply(s, steps[0]), steps[1..], k - 1);
    } else {
      assert steps[..0] == [] && steps[0..] == steps;
    }
  }

  lemma LastStep(steps: seq<Step>)
    requires CanRun(START, steps) && steps != []
    ensures var n := |steps| - 1;
            && CanRun(START, steps[..n]) && Enabled(Run(START, steps[..n]), steps[n])
            && Run(START, steps) == Apply(Run(START, steps[..n]), steps[n])
  {
    var n := |steps| - 1;
    RunSplits(START, steps, n);
    var t := Run(START, steps[..n]);
    assert steps[n..][0] == steps[n] && steps[n..][1..] == [];
    hide Apply, Enabled;
    assert Run(Apply(t, steps[n]), []) == Apply(t, steps[n]);
  }

  /** The latch has seen every event, and accepted the new ones. */
  lemma {:induction false} AcceptedAreNew(steps: seq<Step>)
    requires CanRun(START, steps)
    ensures var s := Run(START, steps);
            s.latch.lastSequence == LastSequence(steps) && |s.accepted| == NewEvents(steps)
  {
    if steps != [] {
      var n := |steps| - 1;
      LastStep(steps);
      AcceptedAreNew(steps[..n]);
      hide Run, CanRun, FlagBits, Built;
    }
  }

  lemma AcceptedStays(s: State, step: Step)
    requires Enabled(s, step)
    ensures s.accepted <= Apply(s, step).accepted
  {
    hide FlagBits, Built;
  }

  lemma {:induction false} AcceptedGrows(s: State, steps: seq<Step>)
    requires CanRun(s, steps)
    ensures s.accepted <= Run(s, steps).accepted
    decreases |steps|
  {
    hide Apply, Enabled;
    if steps != [] {
      AcceptedStays(s, steps[0]);
      AcceptedGrows(Apply(s, steps[0]), steps[1..]);
    }
  }

  /** A new event is accepted with its own flags. */
  lemma NewIsAccepted(steps: seq<Step>, k: nat)
    requires CanRun(START, steps) && k < |steps| && IsNew(steps, k)
    ensures CanRun(START, steps[..k])
    ensures var s, n := Run(START, steps), NewEvents(steps[..k]);
            n < |s.accepted| && s.accepted[n] == Flags(steps[k].event.flags)
  {
    RunSplits(START, steps, k);
    AcceptedAreNew(steps[..k]);
    var before := Run(START, steps[..k]);
    var rest := steps[k..];
    assert rest[0] == steps[k] && CanRun(Apply(before, rest[0]), rest[1..]);
    AcceptedGrows(Apply(before, rest[0]), rest[1..]);
    hide Run, CanRun, Flags;
  }

  /** The status bit that reports event flag `i`. */
  function ReportBit(i: nat): nat
    requires i < 5
  {
    if i < 4 then 9 + i else 14
  }

  lemma FlagAsBit(v: u16, w: bv16, i: nat)
    requires i < 5
    ensures var flag := if i == 0 then 0x0001 else if i == 1 then 0x0002 else if i == 2 then 0x0004
                        else if i == 3 then 0x0008 else 0x0010;
            && IsReported(flag) && (Any(Flags(v), flag) <==> Bit(v, i)) && (Any(w, flag) <==> Bit(Word(w), i))
            && (Any(w, StatusBit(flag)) <==> Bit(Word(w), ReportBit(i)))
  {
    hide Any, Flags, Word, Bit;
    LowByteBits(v);
    LowByteBits(Word(w));
    HighByteBits(Word(w));
    WordInverse(w);
  }

  /** Flag `i` of a new event stays latched until a flight frame built after the event was sent with the
      status bit that reports it. */
  lemma EventStaysUntilSent(steps: seq<Step>, k: nat, i: nat)
    requires CanRun(START, steps) && NeverWraps(START, steps)
    requires k < |steps| && IsNew(steps, k) && i < 5 && Bit(steps[k].event.flags, i)
    ensures var s := Run(START, steps);
            || Bit(Word(s.latch.flags), i)
            || exists j | 0 <= j < |s.sent| ::
                 s.sent[j].seen > NewEvents(steps[..k]) && Bit(Word(s.sent[j].status), ReportBit(i))
  {
    hide Run, CanRun, NeverWraps, Any, Bit, Word, Flags, StatusBit, IsReported;
    var s, n := Run(START, steps), NewEvents(steps[..k]);
    NewIsAccepted(steps, k);
    var flag := if i == 0 then 0x0001 else if i == 1 then 0x0002 else if i == 2 then 0x0004
                else if i == 3 then 0x0008 else 0x0010;
    FlagAsBit(steps[k].event.flags, s.latch.flags, i);
    FlagStaysUntilSent(steps, n, flag);
    if !Any(s.latch.flags, flag) {
      var j :| 0 <= j < |s.sent| && s.sent[j].seen > n && Any(s.sent[j].events, flag)
               && Any(s.sent[j].status, StatusBit(flag));
      FlagAsBit(0, s.sent[j].status, i);
    }
  }

  lemma OtherMasks()
    ensures !Any(0x0020, REPORTED_FLAGS) && !Any(0x0040, REPORTED_FLAGS) && !Any(0x0080, REPORTED_FLAGS)
    ensures !Any(0x0100, REPORTED_FLAGS) && !Any(0x0200, REPORTED_FLAGS) && !Any(0x0400, REPORTED_FLAGS)
    ensures !Any(0x0800, REPORTED_FLAGS) && !Any(0x1000, REPORTED_FLAGS) && !Any(0x2000, REPORTED_FLAGS)
    ensures !Any(0x4000, REPORTED_FLAGS) && !Any(0x8000, REPORTED_FLAGS)
  {
  }

  lemma OtherFlagAsBit(v: u16, w: bv16, i: nat) returns (flag: bv16)
    requires 5 <= i < 16
    ensures !Any(flag, REPORTED_FLAGS)
    ensures (Any(Flags(v), flag) <==> Bit(v, i)) && (Any(w, flag) <==> Bit(Word(w), i))
  {
    flag := if i == 5 then 0x0020 else if i == 6 then 0x0040 else if i == 7 then 0x0080 else if i == 8 then 0x0100
            else if i == 9 then 0x0200 else if i == 10 then 0x0400 else if i == 11 then 0x0800
            else if i == 12 then 0x1000 else if i == 13 then 0x2000 else if i == 14 then 0x4000 else 0x8000;
    OtherMasks();
    hide Any, Flags, Word, Bit;
    LowByteBits(v);
    LowByteBits(Word(w));
    HighByteBits(v);
    HighByteBits(Word(w));
    WordInverse(w);
  }

  /** The other eleven flags of a new event are latched for good. */
  lemma OtherFlagsOfEventsStay(steps: seq<Step>, k: nat, i: nat)
    requires CanRun(START, steps) && k < |steps| && IsNew(steps, k)
    requires 5 <= i < 16 && Bit(steps[k].event.flags, i)
    ensures Bit(Word(Run(START, steps).latch.flags), i)
  {
    hide Run, CanRun, Any, Bit, Word, Flags;
    NewIsAccepted(steps, k);
    var flag := OtherFlagAsBit(steps[k].event.flags, Run(START, steps).latch.flags, i);
    UnreportedFlagsStay(steps, NewEvents(steps[..k]), flag);
  }

  /** Frames are sent in the order they were built. */
  predicate InOrder(s: State) {
    && (forall i | 0 <= i < |s.sent| :: s.sent[i].seen <= |s.accepted|)
    && (s.phase != Idle ==> forall i | 0 <= i < |s.sent| :: s.sent[i].seen <= s.phase.frame.seen)
  }

  lemma InOrderStep(s: State, step: Step)
    requires Counted(s) && InOrder(s) && Enabled(s, step)
    ensures InOrder(Apply(s, step))
  {
    hide Built;
    if step.Snapshot? {
      BuiltSees(s, step.flight, step.status);
    }
  }

  lemma BuiltSees(s: State, flight: bool, status: bv16)
    ensures Built(s, flight, status).seen == |s.accepted|
  {
    hide WithEvents, Carried;
  }

  /** The clear of a frame with the flag takes effect although an event after its snapshot raised the
      flag again: a positive multiple of 2^32 events came in between. */
  predicate LosesFlag(s: State, step: Step, flag: bv16)
    requires Enabled(s, step)
  {
    && step.Clear? && Any(s.phase.frame.events, flag)
    && s.phase.frame.seen < |s.accepted| && (|s.accepted| - s.phase.frame.seen) % U32_LIMIT == 0
    && exists n | s.phase.frame.seen <= n < |s.accepted| :: Any(s.accepted[n], flag)
  }

  lemma ClearedIsGone(latched: bv16, cleared: bv16, flag: bv16)
    requires IsReported(flag)
    ensures Any(latched & !cleared, flag) <==> Any(latched, flag) && !Any(cleared, flag)
  {
    MaskOut(latched, cleared, flag);
    OneBit(cleared, flag);
    NothingLeft(latched, flag);
  }

  lemma MaskOut(latched: bv16, cleared: bv16, flag: bv16)
    ensures (latched & !cleared) & flag == (latched & flag) & !(cleared & flag)
  {
  }

  lemma OneBit(flags: bv16, flag: bv16)
    requires IsReported(flag)
    ensures flags & flag == 0 || flags & flag == flag
  {
  }

  lemma NothingLeft(latched: bv16, flag: bv16)
    ensures (latched & flag) & !flag == 0 && (latched & flag) & !(0 as bv16) == latched & flag
  {
  }

  lemma NoneIsAny(flag: bv16)
    ensures !Any(0, flag)
  {
  }

  /** A clear under the current revision takes its flags away. */
  lemma FooledClearTakes(s: State, flag: bv16)
    requires IsReported(flag) && s.phase.Acknowledging? && s.latch.revision == s.phase.frame.revision
    requires Any(s.phase.frame.events, flag)
    ensures !Any(Apply(s, Clear).latch.flags, flag)
  {
    NoneIsAny(flag);
    ClearedIsGone(s.latch.flags, s.phase.frame.events, flag);
    hide Any, IsReported;
  }

  /** Just after a send, exactly the events before the snapshot were sent with the flag. */
  lemma SentBeforeSnapshot(s: State, n: nat, flag: bv16)
    requires Counted(s) && InOrder(s) && s.phase.Acknowledging? && Any(s.phase.frame.events, flag)
    ensures SentWith(s.sent, n, flag) <==> n < s.phase.frame.seen
  {
    hide Any;
    assert s.sent[|s.sent| - 1] == s.phase.frame;
  }

  lemma FooledClear(s: State, flag: bv16)
    requires IsReported(flag) && Counted(s) && InOrder(s) && s.phase.Acknowledging?
    requires Any(s.phase.frame.events, flag) && s.latch.revision == s.phase.frame.revision
    ensures Kept(Apply(s, Clear), flag) <==>
              !exists n | s.phase.frame.seen <= n < |s.accepted| :: Any(s.accepted[n], flag)
  {
    FooledClearTakes(s, flag);
    var t := Apply(s, Clear);
    assert t.accepted == s.accepted && t.sent == s.sent;
    forall n | 0 <= n < |s.accepted|
      ensures SentWith(t.sent, n, flag) <==> n < s.phase.frame.seen
    {
      SentBeforeSnapshot(s, n, flag);
    }
    hide Any, SentWith, IsReported, Counted, InOrder, Apply;
  }

  lemma HarmlessClear(s: State, flag: bv16)
    requires IsReported(flag) && Kept(s, flag) && s.phase.Acknowledging? && !Any(s.phase.frame.events, flag)
    ensures Kept(Apply(s, Clear), flag)
  {
    ClearedIsGone(s.latch.flags, s.phase.frame.events, flag);
    hide Any, SentWith, IsReported;
  }

  /** One step keeps a flag accounted for if and only if it is not such a clear. */
  lemma KeptExactly(s: State, step: Step, flag: bv16)
    requires IsReported(flag) && Counted(s) && InOrder(s) && Kept(s, flag) && Enabled(s, step)
    ensures Kept(Apply(s, step), flag) <==> !LosesFlag(s, step, flag)
  {
    if !step.Clear? || NoWrap(s, step) {
      KeptStep(s, step, flag);
    } else {
      SameRevision(s.phase.frame.seen, |s.accepted|);
      if Any(s.phase.frame.events, flag) {
        FooledClear(s, flag);
      } else {
        HarmlessClear(s, flag);
      }
    }
    hide Kept, Any, Apply, Counted, InOrder, IsReported;
  }

  ghost predicate AlwaysKept(s: State, steps: seq<Step>, flag: bv16)
    requires CanRun(s, steps)
    decreases |steps|
  {
    Kept(s, flag) && (steps == [] || AlwaysKept(Apply(s, steps[0]), steps[1..], flag))
  }

  predicate NeverLoses(s: State, steps: seq<Step>, flag: bv16)
    requires CanRun(s, steps)
    decreases |steps|
  {
    steps == [] || (!LosesFlag(s, steps[0], flag) && NeverLoses(Apply(s, steps[0]), steps[1..], flag))
  }

  lemma {:induction false} AlwaysKeptExactly(s: State, steps: seq<Step>, flag: bv16)
    requires IsReported(flag) && Counted(s) && InOrder(s) && Kept(s, flag) && CanRun(s, steps)
    ensures AlwaysKept(s, steps, flag) <==> NeverLoses(s, steps, flag)
    decreases |steps|
  {
    hide Apply, Enabled, LosesFlag, Counted, InOrder, Kept, IsReported;
    if steps != [] {
      CountedStep(s, steps[0]);
      InOrderStep(s, steps[0]);
      KeptExactly(s, steps[0], flag);
      if Kept(Apply(s, steps[0]), flag) {
        AlwaysKeptExactly(Apply(s, steps[0]), steps[1..], flag);
      }
    }
  }

  /** A run keeps a reported flag latched or sent throughout exactly when no clear of it comes a
      positive multiple of 2^32 events after its snapshot with the flag raised among them. */
  lemma RunLosesFlagExactly(steps: seq<Step>, flag: bv16)
    requires CanRun(START, steps) && IsReported(flag)
    ensures AlwaysKept(START, steps, flag) <==> NeverLoses(START, steps, flag)
  {
    StartKeeps(flag);
    AlwaysKeptExactly(START, steps, flag);
  }

  /** When a clear takes effect although events were accepted after its snapshot: exactly when
      their number is a multiple of 2^32. */
  lemma ClearIsFooledExactly(s: State)
    requires Counted(s) && s.phase.Acknowledging? && s.phase.frame.seen < |s.accepted|
    ensures s.latch.revision == s.phase.frame.revision <==> (|s.accepted| - s.phase.frame.seen) % U32_LIMIT == 0
  {
    SameRevision(s.phase.frame.seen, |s.accepted|);
  }

  // ---- The one way to lose a flag

  function EventWith(sequence: u8, flags: u16): Step {
    Event(MissionEvent(sequence, flags, CommandReceive, 0, 0))
  }

  /** `n` events without flags, after one with this sequence number. */
  function Quiet(sequence: u8, n: nat): seq<Step>
    decreases n
  {
    if n == 0 then [] else [EventWith((sequence + 1) % U8_LIMIT, 0)] + Quiet((sequence + 1) % U8_LIMIT, n - 1)
  }

  lemma {:induction false} QuietRun(s: State, sequence: u8, n: nat)
    requires s.latch.lastSequence == Some(sequence) && Counted(s)
    ensures CanRun(s, Quiet(sequence, n))
    ensures var t := Run(s, Quiet(sequence, n));
            && t.phase == s.phase && t.sent == s.sent && t.latch.flags == s.latch.flags && Counted(t)
            && |t.accepted| == |s.accepted| + n && t.accepted[..|s.accepted|] == s.accepted
    decreases n
  {
    if n > 0 {
      var step := EventWith((sequence + 1) % U8_LIMIT, 0);
      CountedStep(s, step);
      var t := Apply(s, step);
      assert t.latch.flags == s.latch.flags && t.accepted[..|s.accepted|] == s.accepted;
      QuietRun(t, (sequence + 1) % U8_LIMIT, n - 1);
      assert ([step] + Quiet((sequence + 1) % U8_LIMIT, n - 1))[1..] == Quiet((sequence + 1) % U8_LIMIT, n - 1);
    }
  }

  lemma {:induction false} RunConcat(s: State, first: seq<Step>, rest: seq<Step>)
    requires CanRun(s, first) && CanRun(Run(s, first), rest)
    ensures CanRun(s, first + rest) && Run(s, first + rest) == Run(Run(s, first), rest)
    ensures NeverWraps(s, first + rest) ==> NeverWraps(Run(s, first), rest)
    decreases |first|
  {
    hide Apply, Enabled, NoWrap;
    if first == [] {
      assert first + rest == rest;
    } else {
      assert (first + rest)[1..] == first[1..] + rest;
      RunConcat(Apply(s, first[0]), first[1..], rest);
    }
  }

  lemma RunExtend(s: State, steps: seq<Step>, step: Step)
    requires CanRun(s, steps) && Enabled(Run(s, steps), step)
    ensures CanRun(s, steps + [step]) && Run(s, steps + [step]) == Apply(Run(s, steps), step)
  {
    var t := Run(s, steps);
    hide Apply, Enabled;
    assert [step][1..] == [];
    assert CanRun(Apply(t, step), []) && Run(Apply(t, step), []) == Apply(t, step);
    assert CanRun(t, [step]) && Run(t, [step]) == Apply(t, step);
    RunConcat(s, steps, [step]);
  }

  const OPENING: seq<Step> := [EventWith(1, 1), Snapshot(true, 0), Send, EventWith(2, 1)]

  /** A flag is sent, and then raised again before the clear. */
  lemma Opening() returns (s: State)
    ensures CanRun(START, OPENING) && s == Run(START, OPENING)
    ensures Counted(s) && |s.accepted| == 2 && Any(s.accepted[1], 0x0001)
    ensures s.latch.flags == 1 && s.latch.lastSequence == Some(2)
    ensures s.phase.Acknowledging? && s.phase.frame.seen == 1 && s.phase.frame.events == 1 && s.sent == [s.phase.frame]
  {
    var s1 := Apply(START, OPENING[0]);
    var s2 := Apply(s1, OPENING[1]);
    var s3 := Apply(s2, OPENING[2]);
    s := Apply(s3, OPENING[3]);
    CountedStep(START, OPENING[0]);
    CountedStep(s1, OPENING[1]);
    CountedStep(s2, OPENING[2]);
    CountedStep(s3, OPENING[3]);
    OpeningRun();
  }

  lemma OpeningRun()
    ensures CanRun(START, OPENING)
    ensures Run(START, OPENING) ==
            Apply(Apply(Apply(Apply(START, OPENING[0]), OPENING[1]), OPENING[2]), OPENING[3])
  {
    assert OPENING == ((([] + [OPENING[0]]) + [OPENING[1]]) + [OPENING[2]]) + [OPENING[3]];
    assert CanRun(START, []) && Run(START, []) == START;
    hide Run, CanRun;
    var first := [] + [OPENING[0]];
    RunExtend(START, [], OPENING[0]);
    RunExtend(START, first, OPENING[1]);
    RunExtend(START, first + [OPENING[1]], OPENING[2]);
    RunExtend(START, first + [OPENING[1]] + [OPENING[2]], OPENING[3]);
  }

  /** Exactly 2^32 events between a snapshot and its clear lose a flag: the second event's flag is
      neither latched nor in any frame built after it. */
  lemma WrapLosesAFlag() returns (steps: seq<Step>)
    ensures CanRun(START, steps) && !NeverWraps(START, steps)
    ensures var s := Run(START, steps);
            && |s.accepted| > 1 && Any(s.accepted[1], 0x0001) && !Any(s.latch.flags, 0x0001)
            && forall i | 0 <= i < |s.sent| :: s.sent[i].seen <= 1
  {
    var s := Opening();
    var quiet := Quiet(2, U32_LIMIT - 1);
    QuietRun(s, 2, U32_LIMIT - 1);
    hide Quiet, Any, Run, CanRun, NeverWraps, Apply, Enabled, NoWrap;
    var t := Run(s, quiet);
    assert t.accepted[1] == t.accepted[..2][1];
    LateClear(t);
    RunConcat(s, quiet, [Clear]);
    RunConcat(START, OPENING, quiet + [Clear]);
    steps := OPENING + (quiet + [Clear]);
  }

  /** The clear takes the flag away although an event raised it again. */
  lemma LateClear(t: State)
    requires Counted(t) && |t.accepted| == U32_LIMIT + 1 && t.latch.flags == 1
    requires t.phase.Acknowledging? && t.phase.frame.seen == 1 && t.phase.frame.events == 1
    ensures CanRun(t, [Clear]) && !NeverWraps(t, [Clear])
    ensures var u := Run(t, [Clear]);
            u.accepted == t.accepted && u.sent == t.sent && !Any(u.latch.flags, 0x0001)
  {
    assert [Clear][1..] == [];
    assert Run(t, [Clear]) == Apply(t, Clear);
    assert Apply(t, Clear).latch.flags == 0;
  }
}
