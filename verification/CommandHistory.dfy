/** When the tracker forwards a transaction id twice: over every history of requests and results. */
module CommandHistory {
  import opened Prelude
  import opened CanProtocol
  import opened CommandLedger

  datatype Op = Register(request: GenericCommandRequest) | Apply(result: CommandResult)

  function After(l: Ledger, op: Op): Ledger {
    match op
    case Register(request) => Registered(l, request).0
    case Apply(result) => Applied(l, result).0
  }

  /** The tracker after a history. */
  function State(ops: seq<Op>): Ledger {
    if ops == [] then EMPTY else After(State(ops[..|ops| - 1]), ops[|ops| - 1])
  }

  lemma StateStep(ops: seq<Op>, n: nat)
    requires n < |ops|
    ensures State(ops[..n + 1]) == After(State(ops[..n]), ops[n])
  {
    assert ops[..n + 1][..n] == ops[..n];
  }

  lemma {:induction false} StateSound(ops: seq<Op>)
    ensures Sound(State(ops))
  {
    if ops != [] {
      var l := State(ops[..|ops| - 1]);
      StateSound(ops[..|ops| - 1]);
      match ops[|ops| - 1]
      case Register(request) => RegisteredSound(l, request);
      case Apply(result) => AppliedSound(l, result);
    }
  }

  /** Operation i registers this id and is told to forward it. */
  predicate Forwards(ops: seq<Op>, i: nat, id: u8)
    requires i < |ops|
  {
    ops[i].Register? && ops[i].request.transactionId == id && Registered(State(ops[..i]), ops[i].request).1 == Forward
  }

  /** Operation i is a final result for the pending request with this id. */
  predicate Finishes(ops: seq<Op>, i: nat, id: u8)
    requires i < |ops|
  {
    && ops[i].Apply? && ops[i].result.transactionId == id && Matches(State(ops[..i]), ops[i].result)
    && IsFinal(ops[i].result.phase)
  }

  /** Operation i puts a new entry into the result cache. */
  predicate Inserts(ops: seq<Op>, i: nat)
    requires i < |ops|
  {
    && ops[i].Apply? && Matches(State(ops[..i]), ops[i].result)
    && !HasId(State(ops[..i]).results, ops[i].result.transactionId)
  }

  predicate InsertsId(ops: seq<Op>, i: nat, id: u8)
    requires i < |ops|
  {
    Inserts(ops, i) && ops[i].result.transactionId == id
  }

  function Insertions(ops: seq<Op>, from: nat, until: nat): nat
    requires from <= until <= |ops|
  {
    if from == until then 0 else Insertions(ops, from, until - 1) + (if Inserts(ops, until - 1) then 1 else 0)
  }

  // ---- One operation

  lemma ForwardEffect(l: Ledger, request: GenericCommandRequest)
    requires Registered(l, request).1 == Forward
    ensures var id := request.transactionId;
            && id !in l.pending && !HasId(l.results, id)
            && id in Registered(l, request).0.pending && Registered(l, request).0.results == l.results
  {
  }

  /** Only a final result for the id takes its request out of the table. */
  lemma StaysPending(l: Ledger, op: Op, id: u8)
    requires id in l.pending
    requires op.Apply? && op.result.transactionId == id ==> !Matches(l, op.result) || !IsFinal(op.result.phase)
    ensures id in After(l, op).pending
  {
  }

  /** What a result that matches does to the cache. */
  lemma AppliedCache(l: Ledger, result: CommandResult)
    requires Sound(l) && Matches(l, result)
    ensures var id, r := result.transactionId, Applied(l, result).0.results;
            if HasId(l.results, id) then
              |r| == |l.results| && forall i | 0 <= i < |r| :: CachedId(r[i]) == CachedId(l.results[i])
            else
              && r != [] && CachedId(r[|r| - 1]) == id
              && r[..|r| - 1] == if |l.results| < CAPACITY then l.results else l.results[1..]
  {
    hide HasId;
  }

  lemma CachedAfterwards(l: Ledger, result: CommandResult)
    requires Sound(l) && Matches(l, result)
    ensures HasId(Applied(l, result).0.results, result.transactionId)
  {
    hide Sound, Applied, Matches;
    AppliedCache(l, result);
  }

  lemma OnlyInsertionAdds(l: Ledger, op: Op, id: u8)
    requires Sound(l) && !HasId(l.results, id) && HasId(After(l, op).results, id)
    ensures op.Apply? && Matches(l, op.result) && op.result.transactionId == id
    ensures !HasId(l.results, op.result.transactionId)
  {
    if op.Apply? && Matches(l, op.result) {
      AppliedCache(l, op.result);
      hide Sound, Applied, Matches;
      var r := After(l, op).results;
      if HasId(l.results, op.result.transactionId) {
        forall i | 0 <= i < |r|
          ensures CachedId(r[i]) != id
        {
          assert CachedId(l.results[i]) != id;
        }
      } else {
        var kept := r[..|r| - 1];
        forall i | 0 <= i < |kept|
          ensures CachedId(r[i]) != id
        {
          assert r[i] == kept[i] && kept[i] in l.results;
        }
      }
    }
  }

  /** An entry moves one place away from the end of the cache by an insertion and stays put otherwise. */
  lemma EntryMoves(l: Ledger, op: Op, d: nat)
    requires Sound(l) && d < |l.results|
    ensures var inserted := op.Apply? && Matches(l, op.result) && !HasId(l.results, op.result.transactionId);
            var d' := if inserted then d + 1 else d;
            var r := After(l, op).results;
            d' < CAPACITY ==> d' < |r| && CachedId(r[|r| - 1 - d']) == CachedId(l.results[|l.results| - 1 - d])
  {
    assert |l.results| <= CAPACITY;
    if op.Apply? && Matches(l, op.result) {
      AppliedCache(l, op.result);
      hide Sound, Applied, Matches, HasId, CachedId;
      var r := After(l, op).results;
      if !HasId(l.results, op.result.transactionId) {
        var kept := r[..|r| - 1];
        if d + 1 < CAPACITY {
          assert kept[|kept| - 1 - d] == l.results[|l.results| - 1 - d];
        }
      }
    }
  }

  // ---- Histories

  /** A forwarded request stays pending until a final result for it. */
  lemma {:induction false} PendingUntilFinished(ops: seq<Op>, i: nat, n: nat, id: u8)
    requires i < n <= |ops| && Forwards(ops, i, id)
    requires forall k | i < k < n :: !Finishes(ops, k, id)
    ensures id in State(ops[..n]).pending
    decreases n
  {
    hide State, Registered, Applied, Matches;
    StateStep(ops, n - 1);
    if n > i + 1 {
      PendingUntilFinished(ops, i, n - 1, id);
      assert !Finishes(ops, n - 1, id);
      StaysPending(State(ops[..n - 1]), ops[n - 1], id);
    } else {
      ForwardEffect(State(ops[..i]), ops[i].request);
    }
  }

  /** An id enters the cache only by an insertion. */
  lemma {:induction false} GainedByInsertion(ops: seq<Op>, a: nat, b: nat, id: u8) returns (m: nat)
    requires a < b <= |ops| && !HasId(State(ops[..a]).results, id) && HasId(State(ops[..b]).results, id)
    ensures a <= m < b && InsertsId(ops, m, id)
    decreases b
  {
    hide State, After, Matches, HasId, Sound;
    StateStep(ops, b - 1);
    if HasId(State(ops[..b - 1]).results, id) {
      m := GainedByInsertion(ops, a, b - 1, id);
    } else {
      m := b - 1;
      StateSound(ops[..b - 1]);
      OnlyInsertionAdds(State(ops[..b - 1]), ops[b - 1], id);
    }
  }

  lemma {:induction false} LastInsertion(ops: seq<Op>, first: nat, until: nat, id: u8) returns (m: nat)
    requires first < until <= |ops| && InsertsId(ops, first, id)
    ensures first <= m < until && InsertsId(ops, m, id) && forall k | m < k < until :: !InsertsId(ops, k, id)
    decreases until
  {
    hide InsertsId;
    if InsertsId(ops, until - 1, id) {
      m := until - 1;
    } else {
      m := LastInsertion(ops, first, until - 1, id);
    }
  }

  /** An inserted entry keeps its distance from the end of the cache, so it takes sixteen later
      insertions to push it out. */
  lemma {:induction false} EvictionTakesSixteen(ops: seq<Op>, m: nat, n: nat, id: u8)
    requires m < n <= |ops| && InsertsId(ops, m, id) && Insertions(ops, m + 1, n) < CAPACITY
    ensures var r := State(ops[..n]).results;
            var d := Insertions(ops, m + 1, n);
            d < |r| && CachedId(r[|r| - 1 - d]) == id
    decreases n
  {
    hide State, Matches, HasId, Sound, CachedId, Applied, Registered;
    StateStep(ops, n - 1);
    StateSound(ops[..n - 1]);
    var l := State(ops[..n - 1]);
    if n > m + 1 {
      EvictionTakesSixteen(ops, m, n - 1, id);
      EntryMoves(l, ops[n - 1], Insertions(ops, m + 1, n - 1));
    } else {
      AppliedCache(l, ops[m].result);
    }
  }

  lemma FinishedIsCached(ops: seq<Op>, k: nat, id: u8)
    requires k < |ops| && Finishes(ops, k, id)
    ensures HasId(State(ops[..k + 1]).results, id)
  {
    hide State, Matches, HasId, Sound, Applied, Registered;
    StateStep(ops, k);
    StateSound(ops[..k]);
    CachedAfterwards(State(ops[..k]), ops[k].result);
  }

  lemma ForwardNeedsAbsence(ops: seq<Op>, i: nat, id: u8)
    requires i < |ops| && Forwards(ops, i, id)
    ensures id !in State(ops[..i]).pending && !HasId(State(ops[..i]).results, id)
    ensures !HasId(State(ops[..i + 1]).results, id)
  {
    hide State, HasId, Registered, Applied;
    StateStep(ops, i);
    ForwardEffect(State(ops[..i]), ops[i].request);
  }

  /** Two forwards of one id are separated by a final result for it, and its last insertion into
      the cache by at least sixteen further insertions. */
  lemma ForwardsAreSeparated(ops: seq<Op>, i: nat, j: nat, id: u8)
    requires i < j < |ops| && Forwards(ops, i, id) && Forwards(ops, j, id)
    ensures exists k | i < k < j :: Finishes(ops, k, id)
    ensures exists m | i < m < j :: InsertsId(ops, m, id) && (forall k | m < k < j :: !InsertsId(ops, k, id))
                                    && Insertions(ops, m + 1, j) >= CAPACITY
  {
    hide State, Finishes, InsertsId, Forwards, Insertions;
    ForwardNeedsAbsence(ops, i, id);
    ForwardNeedsAbsence(ops, j, id);
    if forall k | i < k < j :: !Finishes(ops, k, id) {
      PendingUntilFinished(ops, i, j, id);
      assert false;
    }
    var k :| i < k < j && Finishes(ops, k, id);
    FinishedIsCached(ops, k, id);
    var first := GainedByInsertion(ops, i + 1, k + 1, id);
    var m := LastInsertion(ops, first, j, id);
    if Insertions(ops, m + 1, j) < CAPACITY {
      EvictionTakesSixteen(ops, m, j, id);
      assert false;
    }
  }
}
