/** The pure decision functions of the LoRa transmit scheduler (src/lora_scheduler.rs). */
module LoRaScheduler {
  import opened Prelude

  /** Transmit sources in ascending priority. */
  datatype Source = Periodic | Recovery | GroundTimeRequest | CommandResult | EmergencyResult

  function Rank(source: Source): nat {
    match source
    case Periodic => 0
    case Recovery => 1
    case GroundTimeRequest => 2
    case CommandResult => 3
    case EmergencyResult => 4
  }

  predicate IsHigherPriority(candidate: Source, selected: Source) {
    Rank(candidate) > Rank(selected)
  }

  datatype DeadlineAdvance = DeadlineAdvance(nextDeadline: u64, missedSlots: u32)

  function AdvanceDeadline(deadline: u64, now: u64, interval: u64): Option<DeadlineAdvance> {
    if interval == 0 then
      None
    else if deadline > now then
      Some(DeadlineAdvance(deadline, 0))
    else
      var skipped := (now - deadline) / interval + 1;
      if skipped >= U64_LIMIT || skipped * interval >= U64_LIMIT
         || deadline + skipped * interval >= U64_LIMIT || deadline + skipped * interval <= now
      then None
      else Some(DeadlineAdvance(deadline + skipped * interval, if skipped > U32_MAX then U32_MAX else skipped))
  }

  /** `point` is the first of `deadline`, `deadline + interval`, ... that lies strictly after `now`,
      and `steps` intervals lead to it. */
  ghost predicate FirstSlotAfter(deadline: nat, now: nat, interval: nat, point: nat, steps: nat) {
    && point == deadline + steps * interval
    && point > now
    && (steps > 0 ==> point - interval <= now)
  }

  lemma DivisionBounds(a: nat, b: nat)
    requires b > 0
    ensures a / b * b <= a < (a / b + 1) * b
  {
  }

  /** Exactly one point is the first slot after the clock. */
  lemma FirstSlotUnique(deadline: nat, now: nat, interval: nat, p: nat, i: nat, q: nat, j: nat)
    requires FirstSlotAfter(deadline, now, interval, p, i) && FirstSlotAfter(deadline, now, interval, q, j)
    ensures p == q && i == j
  {
    if i < j {
      MultiplesGrow(i, j - 1, interval);
      MultiplesGrow(j - 1, j, interval);
      assert false;
    } else if j < i {
      MultiplesGrow(j, i - 1, interval);
      MultiplesGrow(i - 1, i, interval);
      assert false;
    }
  }

  lemma SkippedSlots(deadline: nat, now: nat, interval: nat) returns (point: nat, steps: nat)
    requires interval > 0 && deadline <= now
    ensures FirstSlotAfter(deadline, now, interval, point, steps)
    ensures steps == (now - deadline) / interval + 1 && steps <= steps * interval
  {
    steps := (now - deadline) / interval + 1;
    DivisionBounds(now - deadline, interval);
    MultiplesGrow(steps - 1, steps, interval);
    MultiplesGrow(1, interval, steps);
    point := deadline + steps * interval;
  }

  /** A deadline advances to the first slot strictly after the clock and counts every slot it
      passes, saturating at `u32::MAX`; it fails exactly when there is no interval or when
      that slot has no u64 representation. */
  lemma AdvanceDeadlineIsFirstSlot(deadline: u64, now: u64, interval: u64)
    returns (point: nat, steps: nat)
    ensures interval == 0 ==> AdvanceDeadline(deadline, now, interval) == None
    ensures interval > 0 ==>
              && FirstSlotAfter(deadline, now, interval, point, steps)
              && AdvanceDeadline(deadline, now, interval) ==
                 (if point < U64_LIMIT then Some(DeadlineAdvance(point, Min(steps, U32_MAX))) else None)
  {
    point, steps := 0, 0;
    if interval > 0 {
      if deadline > now {
        point, steps := deadline, 0;
        MultiplesGrow(0, 0, interval);
      } else {
        point, steps := SkippedSlots(deadline, now, interval);
      }
    }
  }

  predicate ShouldDeferPreempted(source: Source) {
    source != Periodic
  }

  function PreemptedPeriodicMissedSlots(source: Source): u32 {
    if source == Periodic then 1 else 0
  }

  predicate ShouldClearPeriodicEvents(source: Source, transmitted: bool, noEvents: bool) {
    source == Periodic && transmitted && !noEvents
  }

  predicate RecoveryAllowed(recoverySentSincePeriodic: bool, periodicDue: bool) {
    !recoverySentSincePeriodic || !periodicDue
  }

  predicate PeriodicDueForReselection(selected: Source, deadlineValid: bool, deadlineReached: bool) {
    selected == Periodic || (deadlineValid && deadlineReached)
  }

  predicate DeferredRecoveryBlocked(deferred: Source, recoverySentSincePeriodic: bool, periodicDue: bool) {
    deferred == Recovery && !RecoveryAllowed(recoverySentSincePeriodic, periodicDue)
  }

  function UpdateRecoveryFairness(recoverySentSincePeriodic: bool, attempted: Source): bool {
    match attempted
    case Recovery => true
    case Periodic => false
    case _ => recoverySentSincePeriodic
  }

  datatype DeadlineSelection = DeadlineSelection(deadline: u64, retrySelected: bool)

  function SelectPeriodicDeadline(regular: u64, regularValid: bool, retryAt: Option<u64>): DeadlineSelection {
    match retryAt
    case Some(at) =>
      if !regularValid || at < regular then DeadlineSelection(at, true) else DeadlineSelection(regular, false)
    case None => DeadlineSelection(regular, false)
  }

  function RegularDeadlineAfterSelection(regular: u64, retrySelected: bool, interval: u64): Option<u64> {
    if retrySelected then Some(regular) else CheckedAdd64(regular, interval)
  }

  function RetryAfterNonperiodicAttempt(retryAt: Option<u64>, completedAt: u64, attempted: Source): Option<u64> {
    if attempted == Periodic then retryAt
    else if retryAt.Some? && retryAt.value <= completedAt then None
    else retryAt
  }

  function RetryAfterRecovery(completedAt: u64, minimumGap: u64, displacedRegularSlot: bool): Option<u64> {
    if displacedRegularSlot then CheckedAdd64(completedAt, minimumGap) else None
  }

  predicate RecoveryDisplacedRegularSlot(selected: Source, higher: Source, regularSelected: bool) {
    regularSelected && selected == Periodic && higher == Recovery
  }

  datatype GroundTimeQueueAction = IgnoreDuplicate | Enqueue | ReplaceOldest

  function GroundTimeAction(previous: Option<u8>, requestId: u8, queueIsFull: bool): GroundTimeQueueAction {
    if previous == Some(requestId) then IgnoreDuplicate
    else if queueIsFull then ReplaceOldest
    else Enqueue
  }
}
