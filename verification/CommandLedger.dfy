/** What the transaction tracker promises (src/can/command.rs): a table of at most 16 pending
    requests and a first-in-first-out cache of at most 16 results. */
module CommandLedger {
  import opened Prelude
  import opened CanProtocol

  const CAPACITY: nat := 16

  datatype Cached = Cached(request: GenericCommandRequest, result: CommandResult)

  datatype Reply = Forward | DuplicatePending | Replay(result: CommandResult) | RejectProtocol | RejectBusy

  /** Pending requests by transaction id, and cached results, oldest first. */
  datatype Ledger = Ledger(pending: map<u8, GenericCommandRequest>, results: seq<Cached>)

  const EMPTY := Ledger(map[], [])

  predicate IsFinal(phase: Phase) {
    phase != Accepted
  }

  function CachedId(c: Cached): u8 {
    c.request.transactionId
  }

  predicate HasId(results: seq<Cached>, id: u8) {
    exists i | 0 <= i < |results| :: CachedId(results[i]) == id
  }

  /** Where a cached id sits. */
  function IndexOf(results: seq<Cached>, id: u8): (i: nat)
    requires HasId(results, id)
    ensures i < |results| && CachedId(results[i]) == id
  {
    if CachedId(results[0]) == id then 0 else assert HasId(results[1..], id); 1 + IndexOf(results[1..], id)
  }

  /** Ids are unique in the table and in the cache; an id in both has the same request in both and
      only an Accepted result; neither exceeds its capacity. */
  ghost predicate Sound(l: Ledger) {
    && |l.pending| <= CAPACITY && |l.results| <= CAPACITY
    && (forall id <- l.pending :: l.pending[id].transactionId == id)
    && (forall i, j | 0 <= i < j < |l.results| :: CachedId(l.results[i]) != CachedId(l.results[j]))
    && (forall i | 0 <= i < |l.results| && CachedId(l.results[i]) in l.pending ::
          l.results[i].request == l.pending[CachedId(l.results[i])] && !IsFinal(l.results[i].result.phase))
  }

  lemma IndexIsUnique(l: Ledger, i: nat)
    requires Sound(l) && i < |l.results|
    ensures HasId(l.results, CachedId(l.results[i])) && IndexOf(l.results, CachedId(l.results[i])) == i
  {
  }

  function Registered(l: Ledger, request: GenericCommandRequest): (r: (Ledger, Reply)) {
    var id := request.transactionId;
    if id in l.pending then
      if l.pending[id] != request then (l, RejectProtocol)
      else if HasId(l.results, id) then (l, Replay(l.results[IndexOf(l.results, id)].result))
      else (l, DuplicatePending)
    else if HasId(l.results, id) then
      var cached := l.results[IndexOf(l.results, id)];
      if cached.request == request then (l, Replay(cached.result)) else (l, RejectProtocol)
    else if |l.pending| >= CAPACITY then (l, RejectBusy)
    else (l.(pending := l.pending[id := request]), Forward)
  }

  /** Insert a result, evicting the oldest one from a full cache. */
  function Cache(results: seq<Cached>, c: Cached): seq<Cached> {
    (if |results| < CAPACITY then results else results[1..]) + [c]
  }

  /** A cached result is replaced where it is. */
  function WithResult(results: seq<Cached>, entry: Cached): seq<Cached> {
    if HasId(results, CachedId(entry)) then results[IndexOf(results, CachedId(entry)) := entry]
    else Cache(results, entry)
  }

  predicate Matches(l: Ledger, result: CommandResult) {
    result.transactionId in l.pending && l.pending[result.transactionId].command == result.command
  }

  function Applied(l: Ledger, result: CommandResult): (r: (Ledger, bool)) {
    var id := result.transactionId;
    if !Matches(l, result) then (l, false)
    else
      (Ledger(if IsFinal(result.phase) then l.pending - {id} else l.pending,
              WithResult(l.results, Cached(l.pending[id], result))), true)
  }

  lemma RegisteredSound(l: Ledger, request: GenericCommandRequest)
    requires Sound(l)
    ensures Sound(Registered(l, request).0)
  {
  }

  /** The cache with a result for a pending id: ids stay unique, and the id is cached with its request. */
  lemma ResultsSound(l: Ledger, entry: Cached)
    requires Sound(l) && CachedId(entry) in l.pending && entry.request == l.pending[CachedId(entry)]
    ensures var results := WithResult(l.results, entry);
            && |results| <= CAPACITY
            && (forall i, j | 0 <= i < j < |results| :: CachedId(results[i]) != CachedId(results[j]))
            && (forall i | 0 <= i < |results| && CachedId(results[i]) in l.pending ::
                  && results[i].request == l.pending[CachedId(results[i])]
                  && (IsFinal(results[i].result.phase) ==> results[i] == entry))
            && (forall i | 0 <= i < |results| :: CachedId(results[i]) == CachedId(entry) ==> results[i] == entry)
  {
    var results := WithResult(l.results, entry);
    if HasId(l.results, CachedId(entry)) {
      assert forall i | 0 <= i < |l.results| :: CachedId(results[i]) == CachedId(l.results[i]);
    } else {
      assert forall i | 0 <= i < |l.results| :: CachedId(l.results[i]) != CachedId(entry);
      var kept := if |l.results| < CAPACITY then l.results else l.results[1..];
      assert forall i | 0 <= i < |kept| :: results[i] == kept[i] && kept[i] in l.results;
    }
  }

  lemma AppliedSound(l: Ledger, result: CommandResult)
    requires Sound(l)
    ensures Sound(Applied(l, result).0)
  {
    var id := result.transactionId;
    if Matches(l, result) {
      ResultsSound(l, Cached(l.pending[id], result));
      hide WithResult;
      assert |l.pending - {id}| <= |l.pending| by {
        assert (l.pending - {id}).Keys == l.pending.Keys - {id};
      }
    }
  }

  /** A final result stays as it is until it is evicted. */
  lemma FinalResultIsStable(l: Ledger, i: nat, result: CommandResult)
    requires Sound(l) && i < |l.results| && IsFinal(l.results[i].result.phase)
    ensures var l' := Applied(l, result).0;
            || (i < |l'.results| && l'.results[i] == l.results[i])
            || (|l.results| == CAPACITY && l'.results[..CAPACITY - 1] == l.results[1..])
  {
    var id := result.transactionId;
    if Matches(l, result) && HasId(l.results, id) {
      assert IndexOf(l.results, id) != i;
    }
  }
}
