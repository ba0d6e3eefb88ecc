/** The tracker's own tables (TransactionTracker, src/can/command.rs:27-110): two arrays of sixteen
    slots and a ring index refine the ledger. */
module CommandTracker {
  import opened Prelude
  import opened CanProtocol
  import opened CommandLedger

  // ---- The table of pending requests

  /** The requests in the occupied slots, by transaction id. */
  function Table(slots: seq<Option<GenericCommandRequest>>): map<u8, GenericCommandRequest> {
    if slots == [] then map[]
    else
      var rest, last := Table(slots[..|slots| - 1]), slots[|slots| - 1];
      if last.Some? then rest[last.value.transactionId := last.value] else rest
  }

  predicate Distinct(slots: seq<Option<GenericCommandRequest>>) {
    forall i, j | 0 <= i < j < |slots| && slots[i].Some? && slots[j].Some? ::
      slots[i].value.transactionId != slots[j].value.transactionId
  }

  function Occupied(slots: seq<Option<GenericCommandRequest>>): nat {
    if slots == [] then 0
    else Occupied(slots[..|slots| - 1]) + if slots[|slots| - 1].Some? then 1 else 0
  }

  /** The slot that holds an id of the table. */
  lemma {:induction false} InSomeSlot(slots: seq<Option<GenericCommandRequest>>, id: u8) returns (k: nat)
    requires id in Table(slots)
    ensures k < |slots| && slots[k].Some? && slots[k].value.transactionId == id && Table(slots)[id] == slots[k].value
  {
    var n := |slots| - 1;
    if slots[n].Some? && slots[n].value.transactionId == id {
      k := n;
    } else {
      k := InSomeSlot(slots[..n], id);
    }
  }

  lemma {:induction false} SlotIsInTable(slots: seq<Option<GenericCommandRequest>>, k: nat)
    requires Distinct(slots) && k < |slots| && slots[k].Some?
    ensures var r := slots[k].value; r.transactionId in Table(slots) && Table(slots)[r.transactionId] == r
  {
    var n := |slots| - 1;
    if k < n {
      SlotIsInTable(slots[..n], k);
    }
  }

  /** Distinct ids: the table is as large as the number of occupied slots. */
  lemma {:induction false} TableSize(slots: seq<Option<GenericCommandRequest>>)
    requires Distinct(slots)
    ensures |Table(slots)| == Occupied(slots) <= |slots|
    ensures Occupied(slots) == |slots| <==> forall i | 0 <= i < |slots| :: slots[i].Some?
  {
    if slots != [] {
      var n := |slots| - 1;
      TableSize(slots[..n]);
      if slots[n].Some? {
        var id := slots[n].value.transactionId;
        if id in Table(slots[..n]) {
          var k := InSomeSlot(slots[..n], id);
          assert false;
        }
      }
    }
  }

  lemma TableFill(slots: seq<Option<GenericCommandRequest>>, k: nat, request: GenericCommandRequest)
    requires Distinct(slots) && k < |slots| && slots[k].None? && request.transactionId !in Table(slots)
    ensures var filled := slots[k := Some(request)];
            Distinct(filled) && Table(filled) == Table(slots)[request.transactionId := request]
  {
    var filled := slots[k := Some(request)];
    forall i | 0 <= i < |slots| && slots[i].Some?
      ensures slots[i].value.transactionId != request.transactionId
    {
      SlotIsInTable(slots, i);
    }
    SameTable(filled, Table(slots)[request.transactionId := request]) by {
      forall id | id in Table(slots)
        ensures exists i | 0 <= i < |slots| :: slots[i].Some? && slots[i].value.transactionId == id
      {
        var i := InSomeSlot(slots, id);
      }
      forall i | 0 <= i < |slots| && slots[i].Some?
        ensures var r := slots[i].value; r.transactionId in Table(slots) && Table(slots)[r.transactionId] == r
      {
        SlotIsInTable(slots, i);
      }
      forall id | id in Table(slots)
        ensures exists i | 0 <= i < |filled| :: filled[i].Some? && filled[i].value.transactionId == id
      {
        var i :| 0 <= i < |slots| && slots[i].Some? && slots[i].value.transactionId == id;
        assert filled[i] == slots[i];
      }
      assert filled[k].Some?;
    }
  }

  lemma TableClear(slots: seq<Option<GenericCommandRequest>>, k: nat)
    requires Distinct(slots) && k < |slots| && slots[k].Some?
    ensures var cleared := slots[k := None];
            Distinct(cleared) && Table(cleared) == Table(slots) - {slots[k].value.transactionId}
  {
    var cleared := slots[k := None];
    SameTable(cleared, Table(slots) - {slots[k].value.transactionId}) by {
      forall i | 0 <= i < |slots| && slots[i].Some?
        ensures var r := slots[i].value; r.transactionId in Table(slots) && Table(slots)[r.transactionId] == r
      {
        SlotIsInTable(slots, i);
      }
      forall id | id in Table(slots) && id != slots[k].value.transactionId
        ensures exists i | 0 <= i < |cleared| :: cleared[i].Some? && cleared[i].value.transactionId == id
      {
        var i := InSomeSlot(slots, id);
        assert cleared[i] == slots[i];
      }
    }
  }

  /** A map with the entries of the occupied slots and no others is the table. */
  lemma SameTable(slots: seq<Option<GenericCommandRequest>>, m: map<u8, GenericCommandRequest>)
    requires Distinct(slots)
    requires forall i | 0 <= i < |slots| && slots[i].Some? ::
               slots[i].value.transactionId in m && m[slots[i].value.transactionId] == slots[i].value
    requires forall id <- m :: exists i | 0 <= i < |slots| :: slots[i].Some? && slots[i].value.transactionId == id
    ensures Table(slots) == m
  {
    forall id | id in Table(slots)
      ensures id in m && m[id] == Table(slots)[id]
    {
      var i := InSomeSlot(slots, id);
    }
    forall id | id in m
      ensures id in Table(slots)
    {
      var i :| 0 <= i < |slots| && slots[i].Some? && slots[i].value.transactionId == id;
      SlotIsInTable(slots, i);
    }
  }

  // ---- The ring of results

  /** The age rank of the entry in slot k, oldest 0. */
  function Place(k: nat, next: nat, n: nat): (i: nat)
    requires k < CAPACITY && next < CAPACITY
    ensures i < CAPACITY
  {
    if n < CAPACITY then k else if k >= next then k - next else k + CAPACITY - next
  }

  /** The slots hold the cached results from the oldest on, which is at `next` once the ring is full. */
  predicate IsRing(slots: seq<Option<Cached>>, next: nat, fifo: seq<Cached>) {
    && |slots| == CAPACITY && next < CAPACITY && |fifo| <= CAPACITY && (|fifo| < CAPACITY ==> next == |fifo|)
    && forall k | 0 <= k < CAPACITY ::
         var i := Place(k, next, |fifo|);
         slots[k] == if i < |fifo| then Some(fifo[i]) else None
  }

  lemma RingUpdate(slots: seq<Option<Cached>>, next: nat, fifo: seq<Cached>, k: nat, c: Cached)
    requires IsRing(slots, next, fifo) && k < CAPACITY && slots[k].Some?
    ensures var i := Place(k, next, |fifo|);
            i < |fifo| && fifo[i] == slots[k].value && IsRing(slots[k := Some(c)], next, fifo[i := c])
  {
  }

  lemma RingInsert(slots: seq<Option<Cached>>, next: nat, fifo: seq<Cached>, c: Cached)
    requires IsRing(slots, next, fifo)
    ensures IsRing(slots[next := Some(c)], (next + 1) % CAPACITY, Cache(fifo, c))
  {
  }

  /** Every cached result is in some slot. */
  lemma RingHolds(slots: seq<Option<Cached>>, next: nat, fifo: seq<Cached>, i: nat) returns (k: nat)
    requires IsRing(slots, next, fifo) && i < |fifo|
    ensures k < CAPACITY && slots[k] == Some(fifo[i])
  {
    k := if |fifo| < CAPACITY then i else if next + i < CAPACITY then next + i else next + i - CAPACITY;
    assert Place(k, next, |fifo|) == i;
  }

  // ---- The tracker

  /** `iter().flatten().find(...)`: the first occupied slot whose content satisfies the predicate. */
  method Find<T>(slots: array<Option<T>>, accepts: T -> bool) returns (k: nat)
    ensures k <= slots.Length
    ensures forall i | 0 <= i < k :: slots[i].Some? ==> !accepts(slots[i].value)
    ensures k < slots.Length ==> slots[k].Some? && accepts(slots[k].value)
  {
    k := 0;
    while k < slots.Length
      invariant k <= slots.Length
      invariant forall i | 0 <= i < k :: slots[i].Some? ==> !accepts(slots[i].value)
    {
      if slots[k].Some? && accepts(slots[k].value) {
        return;
      }
      k := k + 1;
    }
  }

  method FindFree(slots: array<Option<GenericCommandRequest>>) returns (k: nat)
    ensures k <= slots.Length && (k < slots.Length ==> slots[k].None?)
    ensures forall i | 0 <= i < k :: slots[i].Some?
  {
    k := 0;
    while k < slots.Length && slots[k].Some?
      invariant k <= slots.Length
      invariant forall i | 0 <= i < k :: slots[i].Some?
    {
      k := k + 1;
    }
  }

  class TransactionTracker {
    const pending: array<Option<GenericCommandRequest>>
    const results: array<Option<Cached>>
    var nextResult: nat
    ghost var cached: seq<Cached> // the results in the ring, oldest first

    ghost predicate Valid()
      reads this, pending, results
    {
      && pending.Length == CAPACITY && Distinct(pending[..])
      && IsRing(results[..], nextResult, cached)
      && Sound(Value())
    }

    ghost function Value(): Ledger
      reads this, pending
    {
      Ledger(Table(pending[..]), cached)
    }

    constructor ()
      ensures Valid() && Value() == EMPTY && fresh(pending) && fresh(results)
    {
      pending := new Option<GenericCommandRequest>[CAPACITY](_ => None);
      results := new Option<Cached>[CAPACITY](_ => None);
      nextResult := 0;
      cached := [];
      new;
      SameTable(pending[..], map[]);
    }

    /** The slot of a pending id, if it has one. */
    method FindPending(id: u8) returns (k: nat)
      requires Valid()
      ensures k <= CAPACITY && (k < CAPACITY <==> id in Value().pending)
      ensures k < CAPACITY ==> pending[k] == Some(Value().pending[id])
    {
      k := Find(pending, (r: GenericCommandRequest) => r.transactionId == id);
      if k < CAPACITY {
        SlotIsInTable(pending[..], k);
      } else if id in Value().pending {
        var i := InSomeSlot(pending[..], id);
        assert false;
      }
    }

    /** The slot of the pending request that a result answers. */
    method FindMatching(result: CommandResult) returns (k: nat)
      requires Valid()
      ensures k <= CAPACITY && (k < CAPACITY <==> Matches(Value(), result))
      ensures k < CAPACITY ==> pending[k] == Some(Value().pending[result.transactionId])
    {
      k := Find(pending, (r: GenericCommandRequest) =>
        r.transactionId == result.transactionId && r.command == result.command);
      if k < CAPACITY {
        SlotIsInTable(pending[..], k);
      } else if Matches(Value(), result) {
        var i := InSomeSlot(pending[..], result.transactionId);
        assert false;
      }
    }

    /** The slot of a cached result that the predicate accepts, when no other id can satisfy it. */
    method FindResult(id: u8, accepts: Cached -> bool) returns (k: nat)
      requires Valid()
      requires forall c :: accepts(c) ==> CachedId(c) == id
      requires HasId(cached, id) ==> accepts(cached[IndexOf(cached, id)])
      ensures k <= CAPACITY && (k < CAPACITY <==> HasId(cached, id))
      ensures k < CAPACITY ==>
                results[k] == Some(cached[IndexOf(cached, id)]) && Place(k, nextResult, |cached|) == IndexOf(cached, id)
    {
      k := Find(results, accepts);
      if k < CAPACITY {
        RingUpdate(results[..], nextResult, cached, k, results[k].value);
        IndexIsUnique(Value(), Place(k, nextResult, |cached|));
      } else if HasId(cached, id) {
        var i := RingHolds(results[..], nextResult, cached, IndexOf(cached, id));
        assert false;
      }
    }

    method Register(request: GenericCommandRequest) returns (reply: Reply)
      requires Valid()
      modifies pending
      ensures Valid() && (Value(), reply) == Registered(old(Value()), request)
    {
      var k := FindPending(request.transactionId);
      if k < CAPACITY {
        if pending[k].value != request {
          return RejectProtocol;
        }
        var c := FindResult(request.transactionId, (c: Cached) => c.request == request);
        return if c < CAPACITY then Replay(results[c].value.result) else DuplicatePending;
      }
      var c := FindResult(request.transactionId, (c: Cached) => CachedId(c) == request.transactionId);
      if c < CAPACITY {
        return if results[c].value.request == request then Replay(results[c].value.result) else RejectProtocol;
      }
      var slot := FindFree(pending);
      TableSize(pending[..]);
      if slot == CAPACITY {
        return RejectBusy;
      }
      assert pending[..][slot].None?;
      TableFill(pending[..], slot, request);
      RegisteredSound(Value(), request);
      pending[slot] := Some(request);
      assert pending[..] == old(pending[..])[slot := Some(request)];
      reply := Forward;
    }

    method ApplyResult(result: CommandResult) returns (applied: bool)
      requires Valid()
      modifies this, pending, results
      ensures Valid() && (Value(), applied) == Applied(old(Value()), result)
    {
      var id := result.transactionId;
      var index := FindMatching(result);
      if index == CAPACITY {
        return false;
      }
      var request := pending[index].value;
      AppliedSound(Value(), result);
      var entry := Cached(request, result);
      StoreResult(entry);
      if IsFinal(result.phase) {
        TableClear(pending[..], index);
        pending[index] := None;
        assert pending[..] == old(pending[..])[index := None];
      }
      applied := true;
    }

    /** Lines 92-100: the cached result of the request is replaced, or a new one is inserted. */
    method StoreResult(entry: Cached)
      requires Valid() && Value().pending.Keys >= {CachedId(entry)}
      requires Value().pending[CachedId(entry)] == entry.request
      modifies this, results
      ensures IsRing(results[..], nextResult, cached)
      ensures cached == if HasId(old(cached), CachedId(entry))
                        then old(cached)[IndexOf(old(cached), CachedId(entry)) := entry] else Cache(old(cached), entry)
    {
      var k := FindResult(CachedId(entry),
        (c: Cached) => CachedId(c) == CachedId(entry) && c.request.command == entry.request.command);
      hide Table, Distinct, IsRing, HasId, Cache;
      if k < CAPACITY {
        RingUpdate(results[..], nextResult, cached, k, Cached(results[k].value.request, entry.result));
        ghost var before := results[..];
        results[k] := Some(Cached(results[k].value.request, entry.result));
        assert results[..] == before[k := results[k]];
        cached := cached[Place(k, nextResult, |cached|) := entry];
      } else {
        RingInsert(results[..], nextResult, cached, entry);
        ghost var before := results[..];
        results[nextResult] := Some(entry);
        assert results[..] == before[nextResult := Some(entry)];
        nextResult := (nextResult + 1) % CAPACITY;
        cached := Cache(cached, entry);
      }
    }

    method PendingCount() returns (n: nat)
      requires Valid()
      ensures n == |Value().pending|
    {
      n := 0;
      for i := 0 to pending.Length
        invariant n == Occupied(pending[..i])
      {
        assert pending[..i + 1][..i] == pending[..i];
        if pending[i].Some? {
          n := n + 1;
        }
      }
      assert pending[..pending.Length] == pending[..];
      TableSize(pending[..]);
    }
  }
}
