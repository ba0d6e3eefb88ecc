/** What every reply of the transaction tracker is, told from the requests, the results and the earlier
    replies alone (src/can/command.rs:42-105, src/tasks/lora_task.rs:94-130). */
module CommandReplies {
  import opened Prelude
  import opened CanProtocol
  import opened CommandLedger
  import opened CommandHistory
  import CommandTracker
  import Payload

  /** The reply to the request that operation `i` registers. */
  function ReplyTo(ops: seq<Op>, i: nat): Reply
    requires i < |ops| && ops[i].Register?
  {
    Registered(State(ops[..i]), ops[i].request).1
  }

  /** Operation `k` is a result for the request forwarded at `f`. */
  predicate Answers(ops: seq<Op>, f: nat, k: nat)
    requires f < |ops| && ops[f].Register? && k < |ops|
  {
    && ops[k].Apply? && ops[k].result.transactionId == ops[f].request.transactionId
    && ops[k].result.command == ops[f].request.command
  }

  /** A result for it that is more than an acceptance has arrived. */
  predicate Closed(ops: seq<Op>, f: nat, n: nat)
    requires f < |ops| && ops[f].Register? && n <= |ops|
  {
    exists k | f < k < n :: Answers(ops, f, k) && ops[k].result.phase != Accepted
  }

  /** Operation `k` is a result for it that arrives while it is open. */
  predicate Takes(ops: seq<Op>, f: nat, k: nat)
    requires f < |ops| && ops[f].Register? && k < |ops|
  {
    Answers(ops, f, k) && !Closed(ops, f, k)
  }

  predicate LastTaken(ops: seq<Op>, f: nat, n: nat, k: nat)
    requires f < |ops| && ops[f].Register? && n <= |ops|
  {
    f < k < n && Takes(ops, f, k) && forall j | k < j < n :: !Takes(ops, f, j)
  }

  /** The last request with this id that was forwarded. */
  predicate LastForward(ops: seq<Op>, f: nat, n: nat, id: u8)
    requires n <= |ops|
  {
    f < n && Forwards(ops, f, id) && forall j | f < j < n :: !Forwards(ops, j, id)
  }

  /** A request with this id was forwarded and is still open. */
  predicate IsOpen(ops: seq<Op>, n: nat, id: u8)
    requires n <= |ops|
  {
    exists f | 0 <= f < n :: Forwards(ops, f, id) && !Closed(ops, f, n)
  }

  /** Its last insertion into the result cache is less than sixteen insertions old. */
  predicate IsCached(ops: seq<Op>, n: nat, id: u8)
    requires n <= |ops|
  {
    exists m | 0 <= m < n :: InsertsId(ops, m, id) && Insertions(ops, m + 1, n) < CAPACITY
  }

  // ---- The table

  /** Only a final result with the id and the command takes a request out of the table. */
  lemma StepOnPending(l: Ledger, op: Op, id: u8)
    requires id in l.pending
    ensures var l' := After(l, op);
            if op.Apply? && op.result.transactionId == id && op.result.command == l.pending[id].command
               && IsFinal(op.result.phase)
            then id !in l'.pending
            else id in l'.pending && l'.pending[id] == l.pending[id]
  {
    hide HasId, WithResult;
  }

  /** Only a forwarded request enters it. */
  lemma StepAdds(l: Ledger, op: Op, id: u8)
    requires id !in l.pending
    ensures id in After(l, op).pending <==>
              op.Register? && op.request.transactionId == id && Registered(l, op.request).1 == Forward
    ensures id in After(l, op).pending ==> After(l, op).pending[id] == op.request
  {
    hide HasId, WithResult;
  }

  /** A request that was forwarded stays in the table until it is closed. */
  lemma {:induction false} OpenIsPending(ops: seq<Op>, f: nat, n: nat, id: u8)
    requires f < n <= |ops| && Forwards(ops, f, id) && !Closed(ops, f, n)
    ensures var l := State(ops[..n]); id in l.pending && l.pending[id] == ops[f].request
    decreases n
  {
    hide State, Registered, After;
    StateStep(ops, n - 1);
    if n > f + 1 {
      StillOpen(ops, f, n - 1, n, id);
      OpenIsPending(ops, f, n - 1, id);
      assert !(Answers(ops, f, n - 1) && ops[n - 1].result.phase != Accepted);
      StepOnPending(State(ops[..n - 1]), ops[n - 1], id);
    } else {
      ForwardNeedsAbsence(ops, f, id);
      StepAdds(State(ops[..f]), ops[f], id);
    }
  }

  lemma StillOpen(ops: seq<Op>, g: nat, f: nat, n: nat, id: u8)
    requires g < f <= n <= |ops| && Forwards(ops, g, id) && !Closed(ops, g, n)
    ensures !Closed(ops, g, f)
  {
    hide State, Registered;
  }

  /** And only such requests are in the table. */
  lemma {:induction false} PendingIsOpen(ops: seq<Op>, n: nat, id: u8) returns (f: nat)
    requires n <= |ops| && id in State(ops[..n]).pending
    ensures f < n && Forwards(ops, f, id) && !Closed(ops, f, n)
    decreases n
  {
    NothingAtFirst(ops, id);
    hide State, Registered, After;
    StateStep(ops, n - 1);
    var l := State(ops[..n - 1]);
    if id in l.pending {
      f := PendingIsOpen(ops, n - 1, id);
      OpenIsPending(ops, f, n - 1, id);
      StepOnPending(l, ops[n - 1], id);
      assert !(Answers(ops, f, n - 1) && ops[n - 1].result.phase != Accepted);
      OneMore(ops, f, n, id);
    } else {
      f := n - 1;
      StepAdds(l, ops[n - 1], id);
    }
  }

  lemma NothingAtFirst(ops: seq<Op>, id: u8)
    ensures id !in State(ops[..0]).pending && !HasId(State(ops[..0]).results, id)
  {
    assert ops[..0] == [];
  }

  lemma OneMore(ops: seq<Op>, f: nat, n: nat, id: u8)
    requires f + 1 < n <= |ops| && Forwards(ops, f, id) && !Closed(ops, f, n - 1)
    requires !(Answers(ops, f, n - 1) && ops[n - 1].result.phase != Accepted)
    ensures !Closed(ops, f, n)
  {
    hide State, Registered;
  }

  function OpenIds(ops: seq<Op>, n: nat): set<u8>
    requires n <= |ops|
  {
    set id: u8 | 0 <= id < U8_LIMIT && IsOpen(ops, n, id)
  }

  /** The table holds exactly the open ids. */
  lemma TableIsOpenIds(ops: seq<Op>, n: nat)
    requires n <= |ops|
    ensures State(ops[..n]).pending.Keys == OpenIds(ops, n)
  {
    forall id: u8
      ensures id in State(ops[..n]).pending <==> IsOpen(ops, n, id)
    {
      if id in State(ops[..n]).pending {
        var f := PendingIsOpen(ops, n, id);
      } else if IsOpen(ops, n, id) {
        var f :| 0 <= f < n && Forwards(ops, f, id) && !Closed(ops, f, n);
        OpenIsPending(ops, f, n, id);
      }
    }
  }

  // ---- The cache

  /** The sixteenth insertion after its own pushes an entry out. */
  lemma {:induction false} GoneAfterSixteen(ops: seq<Op>, m: nat, n: nat, id: u8)
    requires m < n <= |ops| && InsertsId(ops, m, id) && (forall k | m < k < n :: !InsertsId(ops, k, id))
    requires Insertions(ops, m + 1, n) >= CAPACITY
    ensures !HasId(State(ops[..n]).results, id)
    decreases n
  {
    hide State, Matches, HasId, Sound, CachedId, Applied, Registered;
    StateStep(ops, n - 1);
    StateSound(ops[..n - 1]);
    var l := State(ops[..n - 1]);
    assert !InsertsId(ops, n - 1, id);
    if Insertions(ops, m + 1, n - 1) >= CAPACITY {
      GoneAfterSixteen(ops, m, n - 1, id);
      if HasId(State(ops[..n]).results, id) {
        OnlyInsertionAdds(l, ops[n - 1], id);
      }
    } else {
      EvictionTakesSixteen(ops, m, n - 1, id);
      OldestGoes(l, ops[n - 1].result, id);
    }
  }

  /** An insertion into a full cache takes the oldest entry away. */
  lemma OldestGoes(l: Ledger, result: CommandResult, id: u8)
    requires Sound(l) && |l.results| >= CAPACITY && CachedId(l.results[|l.results| - CAPACITY]) == id
    requires Matches(l, result) && !HasId(l.results, result.transactionId) && result.transactionId != id
    ensures !HasId(Applied(l, result).0.results, id)
  {
    AppliedCache(l, result);
    assert |l.results| == CAPACITY && CachedId(l.results[0]) == id;
    var r := Applied(l, result).0.results;
    assert |r| == CAPACITY;
    forall i | 0 <= i < |r|
      ensures CachedId(r[i]) != id
    {
      if i < |r| - 1 {
        assert r[i] == r[..|r| - 1][i] == l.results[1..][i] == l.results[i + 1];
      }
    }
  }

  /** The cache holds exactly the ids inserted less than sixteen insertions ago. */
  lemma CacheIsRecentInsertions(ops: seq<Op>, n: nat, id: u8)
    requires n <= |ops|
    ensures HasId(State(ops[..n]).results, id) <==> IsCached(ops, n, id)
  {
    hide State, HasId, InsertsId, Insertions;
    if IsCached(ops, n, id) {
      var m :| 0 <= m < n && InsertsId(ops, m, id) && Insertions(ops, m + 1, n) < CAPACITY;
      EvictionTakesSixteen(ops, m, n, id);
      assert HasId(State(ops[..n]).results, id) by {
        IsThere(State(ops[..n]).results, |State(ops[..n]).results| - 1 - Insertions(ops, m + 1, n), id);
      }
    } else if HasId(State(ops[..n]).results, id) {
      NothingAtFirst(ops, id);
      assert n > 0;
      var first := GainedByInsertion(ops, 0, n, id);
      var m := LastInsertion(ops, first, n, id);
      GoneAfterSixteen(ops, m, n, id);
    }
  }

  lemma IsThere(results: seq<Cached>, i: nat, id: u8)
    requires i < |results| && CachedId(results[i]) == id
    ensures HasId(results, id)
  {
  }

  function Entry(l: Ledger, id: u8): Cached
    requires HasId(l.results, id)
  {
    l.results[IndexOf(l.results, id)]
  }

  lemma EntryAt(l: Ledger, i: nat, id: u8)
    requires Sound(l) && i < |l.results| && CachedId(l.results[i]) == id
    ensures HasId(l.results, id) && Entry(l, id) == l.results[i]
  {
    IndexIsUnique(l, i);
  }

  /** A result for another id leaves the entry as it is, or pushes it out. */
  lemma OtherEntryKept(l: Ledger, result: CommandResult, id: u8)
    requires Sound(l) && result.transactionId != id
    requires var l' := Applied(l, result).0; HasId(l'.results, id)
    ensures HasId(l.results, id) && Entry(Applied(l, result).0, id) == Entry(l, id)
  {
    var l' := Applied(l, result).0;
    AppliedSound(l, result);
    if Matches(l, result) {
      var i := IndexOf(l'.results, id);
      EntryAt(l', i, id);
      var other := Cached(l.pending[result.transactionId], result);
      var at := if HasId(l.results, CachedId(other)) then i
                else if |l.results| < CAPACITY then i else i + 1;
      assert at < |l.results| && l.results[at] == l'.results[i];
      EntryAt(l, at, id);
    }
  }

  /** A matching result becomes the entry of its id. */
  lemma OwnEntry(l: Ledger, result: CommandResult)
    requires Sound(l) && Matches(l, result)
    ensures var id, l' := result.transactionId, Applied(l, result).0;
            HasId(l'.results, id) && Entry(l', id) == Cached(l.pending[id], result)
  {
    var id, l' := result.transactionId, Applied(l, result).0;
    AppliedSound(l, result);
    var at := if HasId(l.results, id) then IndexOf(l.results, id) else |l'.results| - 1;
    assert l'.results[at] == Cached(l.pending[id], result);
    EntryAt(l', at, id);
  }

  /** The last forwarded request is the one in the table. */
  lemma PendingIsLast(ops: seq<Op>, f: nat, n: nat, id: u8)
    requires n <= |ops| && LastForward(ops, f, n, id)
    ensures var l := State(ops[..n]);
            (id in l.pending <==> !Closed(ops, f, n)) && (id in l.pending ==> l.pending[id] == ops[f].request)
  {
    hide State, Registered, Closed;
    if !Closed(ops, f, n) {
      OpenIsPending(ops, f, n, id);
    } else if id in State(ops[..n]).pending {
      var g := PendingIsOpen(ops, n, id);
      assert g < f;
      StillOpen(ops, g, f, n, id);
      OpenIsPending(ops, g, f, id);
      ForwardNeedsAbsence(ops, f, id);
      assert false;
    }
  }

  /** A matching result is one the last forwarded request takes. */
  lemma MatchIsTaken(ops: seq<Op>, f: nat, n: nat, id: u8)
    requires n < |ops| && LastForward(ops, f, n, id)
    requires ops[n].Apply? && ops[n].result.transactionId == id
    ensures Matches(State(ops[..n]), ops[n].result) <==> Takes(ops, f, n)
  {
    hide State, Closed;
    PendingIsLast(ops, f, n, id);
  }

  /** A cached entry holds the last forwarded request and the last result applied for it. */
  lemma {:induction false} EntryIsLastTaken(ops: seq<Op>, f: nat, n: nat, id: u8) returns (k: nat)
    requires n <= |ops| && LastForward(ops, f, n, id) && HasId(State(ops[..n]).results, id)
    ensures LastTaken(ops, f, n, k)
    ensures Entry(State(ops[..n]), id) == Cached(ops[f].request, ops[k].result)
    decreases n
  {
    hide State, HasId, Entry, Takes, Matches, Sound, Applied, Registered, Answers, Closed;
    if n == f + 1 {
      ForwardNeedsAbsence(ops, f, id);
      assert false;
    } else {
      StateStep(ops, n - 1);
      StateSound(ops[..n - 1]);
      assert LastForward(ops, f, n - 1, id);
      var l, op := State(ops[..n - 1]), ops[n - 1];
      if op.Apply? && op.result.transactionId == id && Matches(l, op.result) {
        MatchIsTaken(ops, f, n - 1, id);
        PendingOfMatch(l, op.result);
        PendingIsLast(ops, f, n - 1, id);
        OwnEntry(l, op.result);
        k := n - 1;
      } else {
        NotTaken(ops, f, n - 1, id);
        KeptEntry(l, op, id);
        k := EntryIsLastTaken(ops, f, n - 1, id);
      }
    }
  }

  lemma PendingOfMatch(l: Ledger, result: CommandResult)
    requires Matches(l, result)
    ensures result.transactionId in l.pending
  {
  }

  lemma NotTaken(ops: seq<Op>, f: nat, n: nat, id: u8)
    requires n < |ops| && LastForward(ops, f, n, id)
    requires !(ops[n].Apply? && ops[n].result.transactionId == id && Matches(State(ops[..n]), ops[n].result))
    ensures !Takes(ops, f, n)
  {
    if ops[n].Apply? && ops[n].result.transactionId == id {
      MatchIsTaken(ops, f, n, id);
    }
    hide State, Closed;
  }

  lemma KeptEntry(l: Ledger, op: Op, id: u8)
    requires Sound(l) && HasId(After(l, op).results, id)
    requires !(op.Apply? && op.result.transactionId == id && Matches(l, op.result))
    ensures HasId(l.results, id) && Entry(After(l, op), id) == Entry(l, id)
  {
    if op.Apply? && op.result.transactionId != id {
      OtherEntryKept(l, op.result, id);
    }
    hide HasId, Entry, Matches, WithResult, Sound;
  }

  // ---- Main results

  /** In every history, the reply to a request whose id was forwarded before: while that request is open or
      its result cached, a different request is rejected; the same one gets the last result applied for it
      while that is cached, and otherwise hears that it is pending. */
  lemma RetransmissionIsAnswered(ops: seq<Op>, f: nat, i: nat)
    requires i < |ops| && ops[i].Register? && LastForward(ops, f, i, ops[i].request.transactionId)
    ensures var id, reply := ops[i].request.transactionId, ReplyTo(ops, i);
            var open, cached := !Closed(ops, f, i), IsCached(ops, i, id);
            && ((open || cached) && ops[i].request != ops[f].request ==> reply == RejectProtocol)
            && (cached && ops[i].request == ops[f].request ==>
                  exists k | f < k < i :: LastTaken(ops, f, i, k) && reply == Replay(ops[k].result))
            && (open && !cached && ops[i].request == ops[f].request ==> reply == DuplicatePending)
            && (!open && !cached ==> reply == Forward || reply == RejectBusy)
  {
    var id := ops[i].request.transactionId;
    hide State, HasId, LastTaken, Closed, IsCached, LastForward;
    PendingIsLast(ops, f, i, id);
    CacheIsRecentInsertions(ops, i, id);
    if HasId(State(ops[..i]).results, id) {
      var k := EntryIsLastTaken(ops, f, i, id);
    }
  }

  /** A request that no result was applied for yet is not cached, so its retransmission hears that it is
      pending. */
  lemma NoResultMeansPending(ops: seq<Op>, f: nat, i: nat)
    requires i < |ops| && ops[i].Register? && LastForward(ops, f, i, ops[i].request.transactionId)
    requires ops[i].request == ops[f].request && forall k | f < k < i :: !Answers(ops, f, k)
    ensures ReplyTo(ops, i) == DuplicatePending
  {
    hide State, ReplyTo, IsCached;
    RetransmissionIsAnswered(ops, f, i);
    forall k
      ensures !LastTaken(ops, f, i, k)
    {
    }
  }

  /** In every history, a request is forwarded or turned away as busy exactly when its id is neither open nor
      cached: forwarded while fewer than sixteen ids are open, and busy when sixteen are. */
  lemma ForwardOrBusyExactly(ops: seq<Op>, i: nat)
    requires i < |ops| && ops[i].Register?
    ensures var id := ops[i].request.transactionId;
            var unheard := !IsOpen(ops, i, id) && !IsCached(ops, i, id);
            && |OpenIds(ops, i)| <= CAPACITY
            && (ReplyTo(ops, i) == Forward <==> unheard && |OpenIds(ops, i)| < CAPACITY)
            && (ReplyTo(ops, i) == RejectBusy <==> unheard && |OpenIds(ops, i)| == CAPACITY)
  {
    var id := ops[i].request.transactionId;
    TableIsOpenIds(ops, i);
    CacheIsRecentInsertions(ops, i, id);
    StateSound(ops[..i]);
    hide State, HasId, IsOpen, IsCached;
    assert id in State(ops[..i]).pending <==> id in OpenIds(ops, i);
    assert |State(ops[..i]).pending| == |State(ops[..i]).pending.Keys|;
  }

  /** In every history, a result is taken exactly when the last forwarded request with its id is open and
      has its command. */
  lemma ResultTakenExactly(ops: seq<Op>, f: nat, i: nat)
    requires i < |ops| && ops[i].Apply? && LastForward(ops, f, i, ops[i].result.transactionId)
    ensures Applied(State(ops[..i]), ops[i].result).1 <==> Takes(ops, f, i)
  {
    MatchIsTaken(ops, f, i, ops[i].result.transactionId);
    hide State, Takes, Matches;
  }

  // ---- A result can leave the cache while its request is open

  function Request(id: u8): GenericCommandRequest {
    GenericCommandRequest(id, 0, [])
  }

  function ResultOf(id: u8, phase: Phase): CommandResult {
    CommandResult(id, 0, phase, NoReason, 0)
  }

  /** Request 1 is forwarded and accepted; then come `n` more requests, each completed at once. */
  function Rounds(n: nat): seq<Op>
    requires n <= CAPACITY
  {
    if n == 0 then [Register(Request(1)), Apply(ResultOf(1, Accepted))]
    else Rounds(n - 1) + [Register(Request(n + 1)), Apply(ResultOf(n + 1, Completed))]
  }

  function Completions(n: nat): (results: seq<Cached>)
    requires n <= CAPACITY
    ensures |results| == n && forall i | 0 <= i < n :: CachedId(results[i]) == i + 2
  {
    if n == 0 then [] else Completions(n - 1) + [Cached(Request(n + 1), ResultOf(n + 1, Completed))]
  }

  lemma StateAppend(ops: seq<Op>, op: Op)
    ensures State(ops + [op]) == After(State(ops), op)
  {
    assert (ops + [op])[..|ops|] == ops;
  }

  lemma {:induction false} AfterRounds(n: nat)
    requires n <= CAPACITY
    ensures var l := State(Rounds(n));
            && l.pending == map[1 := Request(1)]
            && l.results == (if n < CAPACITY then [Cached(Request(1), ResultOf(1, Accepted))] else []) + Completions(n)
  {
    if n == 0 {
      StateAppend([], Register(Request(1)));
      StateAppend([Register(Request(1))], Apply(ResultOf(1, Accepted)));
      assert [] + [Register(Request(1))] == [Register(Request(1))];
      assert Rounds(0) == [Register(Request(1))] + [Apply(ResultOf(1, Accepted))];
      assert Registered(EMPTY, Request(1)).0 == Ledger(map[1 := Request(1)], []);
    } else {
      AfterRounds(n - 1);
      var before := Rounds(n - 1);
      StateAppend(before, Register(Request(n + 1)));
      StateAppend(before + [Register(Request(n + 1))], Apply(ResultOf(n + 1, Completed)));
      assert Rounds(n) == before + [Register(Request(n + 1))] + [Apply(ResultOf(n + 1, Completed))];
      OneRound(State(before), n);
    }
  }

  lemma OneRound(l: Ledger, n: nat)
    requires 0 < n <= CAPACITY && l.pending == map[1 := Request(1)]
    requires l.results == [Cached(Request(1), ResultOf(1, Accepted))] + Completions(n - 1)
    ensures var l' := After(After(l, Register(Request(n + 1))), Apply(ResultOf(n + 1, Completed)));
            && l'.pending == l.pending
            && l'.results == (if n < CAPACITY then [Cached(Request(1), ResultOf(1, Accepted))] else []) + Completions(n)
  {
    NotYetCached(l.results, n);
    assert |l.pending| == 1;
    var between := After(l, Register(Request(n + 1)));
    assert between == l.(pending := l.pending[n + 1 := Request(n + 1)]);
    hide HasId;
    assert Matches(between, ResultOf(n + 1, Completed));
    assert between.pending - {n + 1} == l.pending;
    assert l.results[1..] == Completions(n - 1);
    assert After(between, Apply(ResultOf(n + 1, Completed))).results ==
           Cache(l.results, Cached(Request(n + 1), ResultOf(n + 1, Completed)));
  }

  lemma NotYetCached(results: seq<Cached>, n: nat)
    requires 0 < n <= CAPACITY && results == [Cached(Request(1), ResultOf(1, Accepted))] + Completions(n - 1)
    ensures !HasId(results, n + 1)
  {
    forall i | 0 <= i < |results|
      ensures CachedId(results[i]) == i + 1
    {
    }
  }

  /** The accepted result of request 1 is pushed out by sixteen others while the request is open, so its
      retransmission hears that it is pending although a result was applied for it. */
  lemma OpenResultIsEvicted() returns (ops: seq<Op>, i: nat)
    ensures i < |ops| && ops[i] == Register(Request(1)) && i > 1
    ensures ops[0] == ops[i] && ReplyTo(ops, 0) == Forward && ops[1] == Apply(ResultOf(1, Accepted))
    ensures ReplyTo(ops, i) == DuplicatePending
  {
    var rounds := Rounds(CAPACITY);
    ops, i := rounds + [Register(Request(1))], |rounds|;
    AfterRounds(CAPACITY);
    assert ops[..i] == rounds;
    RoundsStart(CAPACITY);
    assert ops[..0] == [];
  }

  lemma {:induction false} RoundsStart(n: nat)
    requires n <= CAPACITY
    ensures |Rounds(n)| >= 2 && Rounds(n)[0] == Register(Request(1)) && Rounds(n)[1] == Apply(ResultOf(1, Accepted))
  {
    if n > 0 {
      RoundsStart(n - 1);
    }
  }

  // ---- What the command task does with a reply (process_generic, src/tasks/lora_task.rs:94-130)

  datatype Effect = Silence | ToBus(request: GenericCommandRequest) | ToGround(packet: Payload.Packet)

  function ResultPacket(r: CommandResult): Payload.Packet {
    Payload.CommandResult(r.transactionId, r.command, r.phase, r.reason, r.detail)
  }

  function Processed(reply: Reply, request: GenericCommandRequest): Effect {
    match reply
    case Forward => ToBus(request)
    case DuplicatePending => Silence
    case Replay(result) => ToGround(ResultPacket(result))
    case RejectProtocol =>
      ToGround(ResultPacket(CommandResult(request.transactionId, request.command, Rejected, ProtocolError, 0)))
    case RejectBusy => ToGround(ResultPacket(CommandResult(request.transactionId, request.command, Rejected, Busy, 0)))
  }

  method ProcessGeneric(tracker: CommandTracker.TransactionTracker, request: GenericCommandRequest)
    returns (effect: Effect)
    requires tracker.Valid()
    modifies tracker.pending
    ensures tracker.Valid()
    ensures tracker.Value() == Registered(old(tracker.Value()), request).0
    ensures effect == Processed(Registered(old(tracker.Value()), request).1, request)
  {
    var reply := tracker.Register(request);
    match reply {
      case Forward => effect := ToBus(request);
      case DuplicatePending => effect := Silence;
      case Replay(result) => effect := ToGround(ResultPacket(result));
      case RejectProtocol => effect := QueueResult(request.transactionId, request.command, Rejected, ProtocolError);
      case RejectBusy => effect := QueueResult(request.transactionId, request.command, Rejected, Busy);
    }
  }

  /** queue_result */
  method QueueResult(transactionId: u8, command: u8, phase: Phase, reason: Reason) returns (effect: Effect)
    ensures effect == ToGround(ResultPacket(CommandResult(transactionId, command, phase, reason, 0)))
  {
    effect := ToGround(Payload.CommandResult(transactionId, command, phase, reason, 0));
  }

  /** The ground decodes this result from what the command task sends it. */
  predicate Hears(effect: Effect, r: CommandResult) {
    && effect.ToGround?
    && var frame := Payload.Encode(effect.packet);
       frame.Ok? && Payload.Decode(frame.value) == Some(ResultPacket(r))
  }

  lemma ResultIsHeard(r: CommandResult)
    requires r.transactionId != 0
    ensures Hears(ToGround(ResultPacket(r)), r)
  {
    Payload.EncodesExactly(ResultPacket(r));
    var frame := Payload.Encode(ResultPacket(r));
    hide Payload.Encode, Payload.Decode;
    Payload.EncodingIsLossless(ResultPacket(r), frame.value);
  }

  /** In every history, the ground that repeats a forwarded request reads the last result applied for it while
      that is cached; it reads a protocol error for a different request under the same id while the first is
      open or cached; and it hears nothing while the request is open and no result is cached. */
  lemma GroundHearsTheLastResult(ops: seq<Op>, f: nat, i: nat)
    requires i < |ops| && ops[i].Register? && LastForward(ops, f, i, ops[i].request.transactionId)
    requires ops[i].request.transactionId != 0
    ensures var request := ops[i].request;
            var effect := Processed(ReplyTo(ops, i), request);
            var open, cached := !Closed(ops, f, i), IsCached(ops, i, request.transactionId);
            && (cached && request == ops[f].request ==>
                  exists k | f < k < i :: LastTaken(ops, f, i, k) && Hears(effect, ops[k].result))
            && ((open || cached) && request != ops[f].request ==>
                  Hears(effect, CommandResult(request.transactionId, request.command, Rejected, ProtocolError, 0)))
            && (open && !cached && request == ops[f].request ==> effect == Silence)
  {
    var request := ops[i].request;
    hide State, ReplyTo, Closed, IsCached, Hears;
    RetransmissionIsAnswered(ops, f, i);
    ResultIsHeard(CommandResult(request.transactionId, request.command, Rejected, ProtocolError, 0));
    if IsCached(ops, i, request.transactionId) && request == ops[f].request {
      var k :| f < k < i && LastTaken(ops, f, i, k) && ReplyTo(ops, i) == Replay(ops[k].result);
      ResultIsHeard(ops[k].result);
    }
  }
}
