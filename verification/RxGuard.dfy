/** The receive guard of the LoRa transmitter (wait_for_rx_guard, src/tasks/lora_task_base.rs:224-248)
    against the receiver, which signals activity through a cell that keeps only the latest value
    (src/tasks/lora_task_base.rs:1079-1086). */
module RxGuard {
  import opened Prelude

  const GUARD: nat := 60_000 // LORA_RX_TX_GUARD_MS in microseconds

  datatype Phase =
    | Away                // the guard is not running
    | Checking(last: nat) // about to compare the deadline with the clock
    | Waiting(last: nat)  // in select

  /** `signal` is the cell; `activity` is every receive time signalled so far; `returns` is the
      clock at every return of the guard, with what had been signalled by then. */
  datatype State = State(clock: nat, signal: Option<nat>, phase: Phase, activity: seq<nat>, returned: seq<Return>)

  datatype Return = Return(at: nat, seen: seq<nat>)

  datatype Step =
    | Tick(now: nat)
    | Receive     // bytes arrive: the cell takes the current time, whatever it held
    | Enter       // the guard is called
    | Check       // lines 230-237
    | Woken       // the signal ends the wait
    | TimedOut    // the timer ends the wait

  const START := State(0, None, Away, [], [])

  predicate Enabled(s: State, step: Step) {
    match step
    case Tick(now) => now >= s.clock
    case Receive => true
    case Enter => s.phase.Away?
    case Check => s.phase.Checking?
    case Woken => s.phase.Waiting? && s.signal.Some?
    case TimedOut => s.phase.Waiting? && s.clock >= s.phase.last + GUARD
  }

  function Returned(s: State): State {
    s.(phase := Away, returned := s.returned + [Return(s.clock, s.activity)])
  }

  /** `try_take`, and what the guard does with its result */
  function Taken(s: State): State {
    if s.signal.Some? then s.(signal := None, phase := Checking(s.signal.value)) else Returned(s)
  }

  function Apply(s: State, step: Step): State
    requires Enabled(s, step)
  {
    match step
    case Tick(now) => s.(clock := now)
    case Receive => s.(signal := Some(s.clock), activity := s.activity + [s.clock])
    case Enter => Taken(s)
    case Check => if s.phase.last + GUARD <= s.clock then Taken(s) else s.(phase := Waiting(s.phase.last))
    case Woken => s.(signal := None, phase := Checking(s.signal.value))
    case TimedOut => Taken(s)
  }

  predicate CanRun(s: State, steps: seq<Step>)
    decreases |steps|
  {
    steps == [] || (Enabled(s, steps[0]) && CanRun(Apply(s, steps[0]), steps[1..]))
  }

  function Run(s: State, steps: seq<Step>): State
    requires CanRun(s, steps)
    decreases |steps|
  {
    if steps == [] then s else Run(Apply(s, steps[0]), steps[1..])
  }

  predicate AllBy(activity: seq<nat>, time: int) {
    forall i | 0 <= i < |activity| :: activity[i] <= time
  }

  /** Everything signalled is no later than what the cell or the guard holds; if neither holds
      anything, it is old. */
  predicate Tracked(s: State) {
    && AllBy(s.activity, s.clock)
    && (s.signal.Some? ==> AllBy(s.activity, s.signal.value))
    && (s.signal.None? ==>
          AllBy(s.activity, if s.phase.Away? then s.clock - GUARD else s.phase.last))
    && forall i | 0 <= i < |s.returned| :: AllBy(s.returned[i].seen, s.returned[i].at - GUARD)
  }

  lemma TrackedStep(s: State, step: Step)
    requires Tracked(s) && Enabled(s, step)
    ensures Tracked(Apply(s, step))
  {
  }

  lemma {:induction false} TrackedRun(s: State, steps: seq<Step>)
    requires Tracked(s) && CanRun(s, steps)
    ensures Tracked(Run(s, steps))
    decreases |steps|
  {
    if steps != [] {
      TrackedStep(s, steps[0]);
      TrackedRun(Apply(s, steps[0]), steps[1..]);
    }
  }

  /** And it waits no longer than that: looking at the cell, it returns exactly when nothing new was signalled
      and the last activity it knows of is 60 ms old, or none is known. */
  lemma WaitsNoLonger(steps: seq<Step>, step: Step)
    requires CanRun(START, steps)
    requires Enabled(Run(START, steps), step) && (step.Enter? || step.Check? || step.TimedOut?)
    ensures var s, t := Run(START, steps), Apply(Run(START, steps), step);
            && (t.phase.Away? <==> s.signal.None? && (s.phase.Away? || s.phase.last + GUARD <= s.clock))
            && t.returned == if t.phase.Away? then s.returned + [Return(s.clock, s.activity)] else s.returned
  {
    hide Run, CanRun;
  }

  /** Whenever the guard returns, every activity signalled so far is at least 60 ms old, although
      the cell may have been overwritten during the wait. */
  lemma ActivityIsOldAtReturn(steps: seq<Step>, r: nat, a: nat)
    requires CanRun(START, steps)
    requires var s := Run(START, steps); r < |s.returned| && a < |s.returned[r].seen|
    ensures var s := Run(START, steps); s.returned[r].seen[a] + GUARD <= s.returned[r].at
  {
    TrackedRun(START, steps);
    var s := Run(START, steps);
    assert AllBy(s.returned[r].seen, s.returned[r].at - GUARD);
  }
}
