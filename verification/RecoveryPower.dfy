/** The task that keeps power readings alive in recovery mode (recovery_power_cache_task,
    src/tasks/recovery_power_task.rs:39-96) against frames, mode changes and clears
    (src/can/cache.rs:47-81, 226-228; src/tasks/can_communication.rs:494-533). */
module RecoveryPower {
  import opened Prelude
  import opened CanProtocol
  import opened CanCache

  const FRESHNESS_MS: u64 := 30_000 // RECOVERY_POWER_FRESHNESS_MS

  const UNAVAILABLE := PowerTime(0, 255, 255, 0xfff1, 0xfff1, 0)

  /** stale_snapshot */
  function StaleSnapshot(previous: PowerTime): PowerTime {
    previous.(logicVoltage := 253, motorVoltage := 253, recoveryElapsed := 0xfffa)
  }

  predicate IsMarkedStale(p: PowerTime) {
    p.logicVoltage == 253 && p.motorVoltage == 253 && p.recoveryElapsed == 0xfffa
  }

  // ---- One iteration of the loop

  /** The task's own variables. */
  datatype Task = Task(activePrevious: bool, snapshot: PowerTime, sourceAt: Option<u64>, refreshedAt: Option<u64>)

  const FRESH_TASK := Task(false, UNAVAILABLE, None, None)

  /** Lines 66-81: the snapshot follows a frame received since the last refresh, and goes stale
      30 s after its source. */
  function Followed(t: Task, cached: Latest<PowerTime>, now: u64): Task {
    var external := cached.value.Some? && cached.ReceivedAt() != t.refreshedAt;
    var snapshot := if external then cached.value.value else t.snapshot;
    var source := if external then cached.ReceivedAt() else t.sourceAt;
    if source.Some? && now >= source.value && now - source.value > FRESHNESS_MS
    then t.(snapshot := StaleSnapshot(snapshot), sourceAt := None)
    else t.(snapshot := snapshot, sourceAt := source)
  }

  function Polled(t: Task, cached: Latest<PowerTime>, active: bool, now: u64): (r: (Task, Latest<PowerTime>)) {
    if active && !t.activePrevious then
      (Task(true, UNAVAILABLE, None, Some(now)), Received(UNAVAILABLE, now))
    else if !active && t.activePrevious then
      (t.(activePrevious := false, sourceAt := None, refreshedAt := None), Latest(None, 0))
    else if active then
      var followed := Followed(t, cached, now);
      (followed.(refreshedAt := Some(now)), Received(followed.snapshot, now))
    else (t, cached)
  }

  /** The loop body with the task's variables and the shared cache. */
  class RecoveryPowerTask {
    var activePrevious: bool
    var snapshot: PowerTime
    var snapshotSourceReceivedAtMs: Option<u64>
    var lastRefreshReceivedAtMs: Option<u64>

    function Value(): Task
      reads this
    {
      Task(activePrevious, snapshot, snapshotSourceReceivedAtMs, lastRefreshReceivedAtMs)
    }

    constructor ()
      ensures Value() == FRESH_TASK
    {
      activePrevious, snapshot := false, UNAVAILABLE;
      snapshotSourceReceivedAtMs, lastRefreshReceivedAtMs := None, None;
    }

    method Poll(cache: CanCache, active: bool, now: u64)
      modifies this, cache`powerTime
      ensures (Value(), cache.powerTime) == Polled(old(Value()), old(cache.powerTime), active, now)
    {
      if active && !activePrevious {
        snapshot := UNAVAILABLE;
        snapshotSourceReceivedAtMs := None;
        cache.powerTime := Received(snapshot, now);
        lastRefreshReceivedAtMs := Some(now);
      } else if !active && activePrevious {
        cache.ClearPowerTime();
        snapshotSourceReceivedAtMs := None;
        lastRefreshReceivedAtMs := None;
      } else if active {
        var current := cache.powerTime.value;
        var currentReceivedAtMs := cache.powerTime.ReceivedAt();
        if current.Some? && currentReceivedAtMs.Some? && currentReceivedAtMs != lastRefreshReceivedAtMs {
          snapshot := current.value;
          snapshotSourceReceivedAtMs := currentReceivedAtMs;
        }
        if snapshotSourceReceivedAtMs.Some? && now >= snapshotSourceReceivedAtMs.value
           && now - snapshotSourceReceivedAtMs.value > FRESHNESS_MS
        {
          snapshot := StaleSnapshot(snapshot);
          snapshotSourceReceivedAtMs := None;
        }
        cache.powerTime := Received(snapshot, now);
        lastRefreshReceivedAtMs := Some(now);
      }
      activePrevious := active;
    }
  }

  // ---- Every interleaving

  datatype Frame = Frame(value: PowerTime, at: u64)
  datatype Published = Published(value: PowerTime, at: u64)

  /** `polling` is what an iteration has read before it locks the cache. */
  datatype Polling = NotPolling | Polling(active: bool, now: u64)

  datatype State = State(
    clock: u64, active: bool, cached: Latest<PowerTime>, task: Task, polling: Polling, frames: seq<Frame>,
    published: seq<Published>)

  datatype Step =
    | Tick(now: u64)
    | PowerFrame(value: PowerTime, at: u64) // stamped on reception, stored later
    | SetActive(active: bool)
    | ClearSnapshot
    | BeginPoll
    | EndPoll

  const START := State(0, false, Latest(None, 0), FRESH_TASK, NotPolling, [], [])

  predicate Enabled(s: State, step: Step) {
    match step
    case Tick(now) => s.clock <= now
    case PowerFrame(_, at) => at <= s.clock
    case BeginPoll => s.polling.NotPolling?
    case EndPoll => s.polling.Polling?
    case _ => true
  }

  function Apply(s: State, step: Step): State
    requires Enabled(s, step)
  {
    match step
    case Tick(now) => s.(clock := now)
    case PowerFrame(value, at) => s.(cached := Received(value, at), frames := s.frames + [Frame(value, at)])
    case SetActive(active) => s.(active := active)
    case ClearSnapshot => s.(cached := Latest(None, 0))
    case BeginPoll => s.(polling := Polling(s.active, s.clock))
    case EndPoll =>
      var (task, cached) := Polled(s.task, s.cached, s.polling.active, s.polling.now);
      s.(task := task, cached := cached, polling := NotPolling,
         published := if s.polling.active then s.published + [Published(cached.value.value, s.polling.now)]
                      else s.published)
  }

  predicate CanRun(s: State, steps: seq<Step>)
    decreases |steps|
  {
    steps == [] || (Enabled(s, steps[0]) && CanRun(Apply(s, steps[0]), steps[1..]))
  }

  function Run(s: State, steps: seq<Step>): State
    requires CanRun(s, steps)
    decreases |steps|
  {
    if steps == [] then s else Run(Apply(s, steps[0]), steps[1..])
  }

  /** The value of a frame received at most 30 s before. */
  predicate IsRecent(frames: seq<Frame>, p: Published) {
    exists i | 0 <= i < |frames| :: frames[i].value == p.value && p.at <= frames[i].at + FRESHNESS_MS
  }

  predicate IsHonest(frames: seq<Frame>, p: Published) {
    p.value == UNAVAILABLE || IsMarkedStale(p.value) || IsRecent(frames, p)
  }

  predicate Sound(s: State) {
    // what is cached is a frame, unless the task refreshed it
    && (s.cached.value.Some? && s.cached.ReceivedAt() != s.task.refreshedAt ==>
          Frame(s.cached.value.value, s.cached.receivedAtMs) in s.frames)
    // in recovery mode the snapshot is the frame it came from, or says that it is not one
    && (s.task.activePrevious ==>
          match s.task.sourceAt
          case Some(at) => Frame(s.task.snapshot, at) in s.frames
          case None => s.task.snapshot == UNAVAILABLE || IsMarkedStale(s.task.snapshot))
    && (forall i | 0 <= i < |s.published| :: IsHonest(s.frames, s.published[i]))
  }

  lemma HonestMore(frames: seq<Frame>, frame: Frame, p: Published)
    requires IsHonest(frames, p)
    ensures IsHonest(frames + [frame], p)
  {
    if IsRecent(frames, p) {
      var i :| 0 <= i < |frames| && frames[i].value == p.value && p.at <= frames[i].at + FRESHNESS_MS;
      assert (frames + [frame])[i] == frames[i];
    }
  }

  lemma FrameSound(s: State, value: PowerTime, at: u64)
    requires Sound(s) && Enabled(s, PowerFrame(value, at))
    ensures Sound(Apply(s, PowerFrame(value, at)))
  {
    hide IsHonest;
    forall i | 0 <= i < |s.published|
      ensures IsHonest(s.frames + [Frame(value, at)], s.published[i])
    {
      HonestMore(s.frames, Frame(value, at), s.published[i]);
    }
  }

  /** A refresh follows the cache honestly. */
  lemma FollowedHonest(s: State, now: u64)
    requires Sound(s) && s.task.activePrevious
    ensures var t := Followed(s.task, s.cached, now);
            && (match t.sourceAt
                case Some(at) => Frame(t.snapshot, at) in s.frames && now <= at + FRESHNESS_MS
                case None => t.snapshot == UNAVAILABLE || IsMarkedStale(t.snapshot))
            && IsHonest(s.frames, Published(t.snapshot, now))
  {
    hide IsHonest;
    var t := Followed(s.task, s.cached, now);
    if t.sourceAt.Some? {
      RecentFrame(s.frames, t.snapshot, t.sourceAt.value, now);
    } else {
      Excused(s.frames, t.snapshot, now);
    }
  }

  lemma RecentFrame(frames: seq<Frame>, value: PowerTime, at: u64, now: u64)
    requires Frame(value, at) in frames && now <= at + FRESHNESS_MS
    ensures IsHonest(frames, Published(value, now))
  {
  }

  lemma Excused(frames: seq<Frame>, value: PowerTime, now: u64)
    requires value == UNAVAILABLE || IsMarkedStale(value)
    ensures IsHonest(frames, Published(value, now))
  {
  }

  lemma PollSound(s: State)
    requires Sound(s) && s.polling.Polling?
    ensures Sound(Apply(s, EndPoll))
  {
    hide IsHonest, IsMarkedStale;
    var now := s.polling.now;
    Excused(s.frames, UNAVAILABLE, now);
    if s.polling.active && s.task.activePrevious {
      FollowedHonest(s, now);
      hide Followed;
    }
  }

  lemma StepSound(s: State, step: Step)
    requires Sound(s) && Enabled(s, step)
    ensures Sound(Apply(s, step))
  {
    match step
    case PowerFrame(value, at) => FrameSound(s, value, at);
    case EndPoll => PollSound(s);
    case _ => hide IsHonest, IsMarkedStale;
  }

  lemma {:induction false} RunSound(s: State, steps: seq<Step>)
    requires Sound(s) && CanRun(s, steps)
    ensures Sound(Run(s, steps))
    decreases |steps|
  {
    hide Sound, Apply;
    if steps != [] {
      StepSound(s, steps[0]);
      RunSound(Apply(s, steps[0]), steps[1..]);
    }
  }

  /** However frames, mode changes, clears and polls interleave, a refresh publishes the unavailable
      snapshot, one marked stale, or a frame received at most 30 s before, although every refresh
      renews the cache's own time stamp. */
  lemma RefreshesAreHonest(steps: seq<Step>, i: nat)
    requires CanRun(START, steps)
    requires i < |Run(START, steps).published|
    ensures var s := Run(START, steps); IsHonest(s.frames, s.published[i])
  {
    RunSound(START, steps);
  }

  // ---- A frame that is never published

  /** What a poll takes over from the cache does not depend on the cached frame exactly when that
      frame bears the time stamp of the last refresh. */
  lemma FrameIsFollowedExactly(t: Task, at: u64, now: u64)
    ensures (forall v, w :: Followed(t, Received(v, at), now).snapshot == Followed(t, Received(w, at), now).snapshot)
            <==> t.refreshedAt == Some(at)
  {
    if t.refreshedAt != Some(at) {
      var v, w := UNAVAILABLE, UNAVAILABLE.(sequence := 1);
      assert Followed(t, Received(v, at), now).snapshot != Followed(t, Received(w, at), now).snapshot;
    }
  }

  /** In recovery mode the task's last refresh is the last thing it published. */
  predicate RefreshIsLastPublished(s: State) {
    s.task.activePrevious ==>
      s.published != [] && s.task.refreshedAt == Some(s.published[|s.published| - 1].at)
  }

  lemma {:induction false} LastPublishedRun(s: State, steps: seq<Step>)
    requires RefreshIsLastPublished(s) && CanRun(s, steps)
    ensures RefreshIsLastPublished(Run(s, steps))
    decreases |steps|
  {
    if steps != [] {
      LastPublishedRun(Apply(s, steps[0]), steps[1..]);
    }
  }

  /** The iteration that is waiting for the cache, or else the next one. */
  function NextIteration(s: State): Polling {
    if s.polling.Polling? then s.polling else Polling(s.active, s.clock)
  }

  /** What that iteration publishes if a frame is stored just before it locks the cache. */
  function NextRefresh(s: State, value: PowerTime, at: u64): Published
    requires at <= s.clock && NextIteration(s).active
  {
    var stored := Apply(s, PowerFrame(value, at));
    var polled := Apply(if stored.polling.Polling? then stored else Apply(stored, BeginPoll), EndPoll);
    polled.published[|polled.published| - 1]
  }

  /** The task was in recovery mode at its last iteration, and the frame neither bears the time of the
      last refresh nor is older than 30 s. */
  predicate IsTakenOver(s: State, at: u64) {
    s.task.activePrevious && s.task.refreshedAt != Some(at) && NextIteration(s).now - at <= FRESHNESS_MS
  }

  /** The iteration that finds recovery mode newly entered publishes the unavailable snapshot whatever
      is stored. */
  lemma EntryOverwrites(s: State, value: PowerTime, at: u64)
    requires at <= s.clock && NextIteration(s).active && !s.task.activePrevious
    ensures NextRefresh(s, value, at) == Published(UNAVAILABLE, NextIteration(s).now)
  {
  }

  lemma LaterFollows(s: State, value: PowerTime, at: u64)
    requires at <= s.clock && NextIteration(s).active && s.task.activePrevious
    ensures var now := NextIteration(s).now;
            NextRefresh(s, value, at) == Published(Followed(s.task, Received(value, at), now).snapshot, now)
  {
  }

  /** In every run, whatever frame is stored is what the next iteration in recovery mode publishes,
      exactly when the iteration before was in recovery mode too and the frame neither bears the time of
      the refresh it published nor is older than 30 s. */
  lemma FrameIsPublishedExactly(steps: seq<Step>, at: u64)
    requires CanRun(START, steps)
    requires var s := Run(START, steps); at <= s.clock && NextIteration(s).active
    ensures var s := Run(START, steps);
            && RefreshIsLastPublished(s)
            && ((forall value :: NextRefresh(s, value, at) == Published(value, NextIteration(s).now)) <==>
                  IsTakenOver(s, at))
  {
    LastPublishedRun(START, steps);
    var s := Run(START, steps);
    hide Run, CanRun, RefreshIsLastPublished;
    var v, w := UNAVAILABLE.(sequence := 1), UNAVAILABLE.(sequence := 2);
    assert v != w && v != UNAVAILABLE;
    if !s.task.activePrevious {
      EntryOverwrites(s, v, at);
    } else {
      forall value
        ensures NextRefresh(s, value, at) ==
                Published(Followed(s.task, Received(value, at), NextIteration(s).now).snapshot, NextIteration(s).now)
      {
        LaterFollows(s, value, at);
      }
      hide NextRefresh;
      if !IsTakenOver(s, at) {
        assert NextRefresh(s, v, at) != Published(v, NextIteration(s).now)
               || NextRefresh(s, w, at) != Published(w, NextIteration(s).now);
      }
    }
  }

  // ---- What an iteration does to the cached reading

  /** In every run, an iteration in recovery mode leaves what it published, the first one after recovery mode
      leaves no reading, and any other leaves the reading alone; the next iteration knows which it was. */
  lemma IterationWrites(steps: seq<Step>)
    requires CanRun(START, steps) && Run(START, steps).polling.Polling?
    ensures var s, t := Run(START, steps), Apply(Run(START, steps), EndPoll);
            && t.task.activePrevious == s.polling.active
            && (s.polling.active ==>
                  && |t.published| == |s.published| + 1
                  && t.cached == Received(t.published[|s.published|].value, s.polling.now)
                  && t.published[|s.published|].at == s.polling.now)
            && (!s.polling.active ==> t.published == s.published)
            && (!s.polling.active && s.task.activePrevious ==> t.cached.value == None)
            && (!s.polling.active && !s.task.activePrevious ==> t.cached == s.cached)
  {
    hide Run, CanRun;
  }

  // ---- How long a reading lasts

  /** No frame arrives and recovery mode goes on; the cached reading may be cleared. */
  predicate Undisturbed(steps: seq<Step>) {
    forall i | 0 <= i < |steps| ::
      || steps[i].Tick? || steps[i].ClearSnapshot? || steps[i].BeginPoll? || steps[i].EndPoll?
      || steps[i] == SetActive(true)
  }

  /** The reading with the codes of a stale one in place of its voltages and its recovery time. */
  predicate IsStaleOf(p: PowerTime, value: PowerTime) {
    && p.logicVoltage == 253 && p.motorVoltage == 253 && p.recoveryElapsed == 0xfffa
    && p.sequence == value.sequence && p.descentElapsed == value.descentElapsed && p.flags == value.flags
  }

  /** A reading of time `at` is what a refresh at `now` shows. */
  predicate Shows(p: Published, value: PowerTime, at: u64) {
    if p.at <= at + FRESHNESS_MS then p.value == value else IsStaleOf(p.value, value)
  }

  /** Recovery mode goes on with this reading, or with what is left of it after 30 s. */
  predicate Lasting(s: State, value: PowerTime, at: u64) {
    && s.active && s.task.activePrevious && (s.polling.Polling? ==> s.polling.active && s.polling.now <= s.clock)
    && (s.cached.value.Some? ==> s.cached.ReceivedAt() == s.task.refreshedAt)
    && ((s.task.snapshot == value && s.task.sourceAt == Some(at))
        || (s.task.snapshot == StaleSnapshot(value) && s.task.sourceAt == None && s.clock > at + FRESHNESS_MS
            && (s.polling.Polling? ==> s.polling.now > at + FRESHNESS_MS)))
  }

  lemma LastingStep(s: State, step: Step, value: PowerTime, at: u64)
    requires Lasting(s, value, at) && Enabled(s, step) && Undisturbed([step])
    ensures var t := Apply(s, step);
            && Lasting(t, value, at)
            && s.published <= t.published && |t.published| <= |s.published| + 1
            && (|t.published| > |s.published| ==> Shows(t.published[|s.published|], value, at))
  {
    assert [step][0] == step;
  }

  lemma {:induction false} LastingRun(s: State, steps: seq<Step>, value: PowerTime, at: u64)
    requires Lasting(s, value, at) && CanRun(s, steps) && Undisturbed(steps)
    ensures var t := Run(s, steps);
            && s.published <= t.published
            && forall i | |s.published| <= i < |t.published| :: Shows(t.published[i], value, at)
    decreases |steps|
  {
    hide Apply, Enabled, Lasting, Shows;
    if steps != [] {
      assert Undisturbed([steps[0]]);
      LastingStep(s, steps[0], value, at);
      LastingRun(Apply(s, steps[0]), steps[1..], value, at);
    }
  }

  /** What the task publishes of a frame: stored in recovery mode, taken over by the next iteration, and
      followed by no other frame. */
  function AfterFrame(s: State, value: PowerTime, at: u64): State
    requires at <= s.clock && s.active && s.polling.NotPolling?
  {
    Apply(Apply(Apply(s, PowerFrame(value, at)), BeginPoll), EndPoll)
  }

  /** In every run, a frame that is taken over is what every refresh shows until 30 s after its reception,
      and from then on every refresh shows it as stale, until another frame arrives or recovery mode ends. */
  lemma ReadingLastsExactly(past: seq<Step>, value: PowerTime, at: u64, later: seq<Step>)
    requires CanRun(START, past)
    requires var s := Run(START, past);
             && at <= s.clock && s.active && s.polling.NotPolling? && IsTakenOver(s, at)
             && CanRun(AfterFrame(s, value, at), later)
    requires Undisturbed(later)
    ensures var s := Run(START, past);
            var t := Run(AfterFrame(s, value, at), later);
            && |s.published| < |t.published| && s.published <= t.published
            && t.published[|s.published|] == Published(value, s.clock)
            && forall i | |s.published| <= i < |t.published| :: Shows(t.published[i], value, at)
  {
    var s := Run(START, past);
    var u := AfterFrame(s, value, at);
    assert Lasting(u, value, at) && u.published == s.published + [Published(value, s.clock)];
    LastingRun(u, later, value, at);
  }

  lemma RunExtend(s: State, steps: seq<Step>, step: Step)
    requires CanRun(s, steps) && Enabled(Run(s, steps), step)
    ensures CanRun(s, steps + [step]) && Run(s, steps + [step]) == Apply(Run(s, steps), step)
    decreases |steps|
  {
    hide Apply, Enabled;
    if steps == [] {
      assert [] + [step] == [step] && [step][1..] == [];
      assert CanRun(Apply(s, step), []) && Run(Apply(s, step), []) == Apply(s, step);
    } else {
      assert (steps + [step])[1..] == steps[1..] + [step];
      RunExtend(Apply(s, steps[0]), steps[1..], step);
    }
  }

  lemma Extend(steps: seq<Step>, step: Step) returns (longer: seq<Step>, s: State)
    requires CanRun(START, steps) && Enabled(Run(START, steps), step)
    ensures longer == steps + [step] && CanRun(START, longer)
    ensures s == Run(START, longer) == Apply(Run(START, steps), step)
  {
    longer := steps + [step];
    RunExtend(START, steps, step);
    s := Run(START, longer);
  }

  /** The frame of the millisecond in which recovery mode was entered is overwritten by the next refresh
      and never published. */
  lemma SameMillisecondFrameIsLost(value: PowerTime) returns (steps: seq<Step>)
    requires value != UNAVAILABLE
    ensures CanRun(START, steps)
    ensures var s := Run(START, steps);
            && s.frames == [Frame(value, 0)] && s.cached.value == Some(UNAVAILABLE)
            && s.published == [Published(UNAVAILABLE, 0), Published(UNAVAILABLE, 100)]
  {
    steps := [];
    assert CanRun(START, steps) && Run(START, steps) == START;
    hide Run, CanRun;
    var s: State;
    steps, s := Extend(steps, SetActive(true));
    steps, s := Extend(steps, BeginPoll);
    steps, s := Extend(steps, EndPoll);
    steps, s := Extend(steps, PowerFrame(value, 0));
    steps, s := Extend(steps, Tick(100));
    steps, s := Extend(steps, BeginPoll);
    steps, s := Extend(steps, EndPoll);
  }

  /** So is a frame that arrives after recovery mode was entered and before the task notices, although
      no refresh bears its time. */
  lemma EntryFrameIsLost(value: PowerTime) returns (steps: seq<Step>)
    requires value != UNAVAILABLE
    ensures CanRun(START, steps)
    ensures var s := Run(START, steps);
            && s.frames == [Frame(value, 50)] && s.cached.value == Some(UNAVAILABLE)
            && s.published == [Published(UNAVAILABLE, 100), Published(UNAVAILABLE, 200)]
  {
    steps := [];
    assert CanRun(START, steps) && Run(START, steps) == START;
    hide Run, CanRun;
    var s: State;
    steps, s := Extend(steps, SetActive(true));
    steps, s := Extend(steps, Tick(50));
    steps, s := Extend(steps, PowerFrame(value, 50));
    steps, s := Extend(steps, Tick(100));
    steps, s := Extend(steps, BeginPoll);
    steps, s := Extend(steps, EndPoll);
    steps, s := Extend(steps, Tick(200));
    steps, s := Extend(steps, BeginPoll);
    steps, s := Extend(steps, EndPoll);
  }
}
