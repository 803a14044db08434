/**
 The query buffer under concurrency: callers buffer queries at any moment while one task drains the
 buffer, posts the entries chunk by chunk and merges the failed ones back. Each step is one critical
 section or one POST. The same steps are run with saturating and with ideal arithmetic.
 */
module QueryFlushing {
  import opened Basics
  import opened QueryBuffer

  datatype Flush = Idle | Sending(remaining: Entries, requeue: Entries)

  /**
   `accepted` logs the accepted queries and `delivered` the entries of the successful batches;
   `failures` counts the consecutive cycles, up to the last one, in which some batch failed.
   */
  datatype State = State(
    saturating: bool, maxBuffered: nat, maxBatchSize: nat,
    buffer: map<Key, Demand>, flush: Flush, delivered: Entries,
    accepted: Entries, calls: nat, dropped: nat, reported: nat, failures: nat)

  datatype Step =
    | Query(key: Key, cost: nat, failed: bool)
    | ReportDropped
    | BeginFlush(order: seq<Key>)
    | SendChunk(ok: bool)
    | EndFlush

  ghost predicate Init(s: State)
  {
    && s.maxBuffered >= 1 && s.maxBatchSize >= 1
    && s.buffer == map[] && s.flush == Idle && s.delivered == [] && s.accepted == []
    && s.calls == 0 && s.dropped == 0 && s.reported == 0 && s.failures == 0
  }

  /** `order` is an enumeration of the keys: a hash map drains in any order. */
  ghost predicate Enumerates(order: seq<Key>, buffer: map<Key, Demand>)
  {
    && (forall i :: 0 <= i < |order| ==> order[i] in buffer)
    && (forall k :: k in buffer ==> k in order)
    && forall i, j :: 0 <= i < j < |order| ==> order[i] != order[j]
  }

  ghost predicate Enabled(s: State, step: Step)
  {
    match step
    case Query(_, _, _) => true
    case ReportDropped => s.flush.Idle?
    case BeginFlush(order) => s.flush.Idle? && Enumerates(order, s.buffer)
    case SendChunk(_) => s.flush.Sending? && s.flush.remaining != []
    case EndFlush => s.flush.Sending? && s.flush.remaining == []
  }

  function Listing(buffer: map<Key, Demand>, order: seq<Key>): Entries
    requires forall i :: 0 <= i < |order| ==> order[i] in buffer
  {
    seq(|order|, i requires 0 <= i < |order| => Entry(order[i], buffer[order[i]]))
  }

  ghost function Next(s: State, step: Step): State
    requires Enabled(s, step)
  {
    match step
    case Query(key, cost, failed) =>
      if Accepts(s.buffer, key, s.maxBuffered) then
        s.(buffer := Buffered(s.saturating, s.buffer, key, QueryDemand(cost, failed)),
           accepted := s.accepted + [Entry(key, QueryDemand(cost, failed))], calls := s.calls + 1)
      else s.(dropped := s.dropped + 1, calls := s.calls + 1)
    case ReportDropped => s.(reported := s.reported + s.dropped, dropped := 0)
    case BeginFlush(order) =>
      s.(buffer := map[], flush := if order == [] then Idle else Sending(Listing(s.buffer, order), []))
    case SendChunk(ok) =>
      var take := Min(s.maxBatchSize, |s.flush.remaining|);
      var chunk, rest := s.flush.remaining[..take], s.flush.remaining[take..];
      if ok then s.(delivered := s.delivered + chunk, flush := Sending(rest, s.flush.requeue))
      else s.(flush := Sending(rest, s.flush.requeue + chunk))
    case EndFlush =>
      s.(buffer := Requeued(s.saturating, s.buffer, s.flush.requeue), flush := Idle,
         failures := if s.flush.requeue == [] then 0 else s.failures + 1)
  }

  ghost predicate Trace(states: seq<State>, steps: seq<Step>)
  {
    && |states| == |steps| + 1
    && Init(states[0])
    && forall i :: 0 <= i < |steps| ==> Enabled(states[i], steps[i]) && states[i + 1] == Next(states[i], steps[i])
  }

  function InFlight(flush: Flush): Entries
  {
    if flush.Idle? then [] else flush.remaining + flush.requeue
  }

  /******* Demand of one key in a list of entries *******/

  function DemandOfFirst(entries: Entries, n: nat, key: Key): Demand
    requires n <= |entries|
  {
    if n == 0 then NO_DEMAND
    else if entries[n - 1].key == key then Sum(DemandOfFirst(entries, n - 1, key), entries[n - 1].demand)
    else DemandOfFirst(entries, n - 1, key)
  }

  function DemandOf(entries: Entries, key: Key): Demand
  {
    DemandOfFirst(entries, |entries|, key)
  }

  lemma {:induction false} DemandOfPrefix(a: Entries, b: Entries, n: nat, key: Key)
    requires n <= |a| && n <= |b| && forall i :: 0 <= i < n ==> a[i] == b[i]
    ensures DemandOfFirst(a, n, key) == DemandOfFirst(b, n, key)
  {
    if n > 0 {
      DemandOfPrefix(a, b, n - 1, key);
    }
  }

  lemma {:induction false} DemandOfConcatFirst(a: Entries, b: Entries, n: nat, key: Key)
    requires n <= |b|
    ensures DemandOfFirst(a + b, |a| + n, key) == Sum(DemandOf(a, key), DemandOfFirst(b, n, key))
  {
    if n == 0 {
      DemandOfPrefix(a + b, a, |a|, key);
    } else {
      DemandOfConcatFirst(a, b, n - 1, key);
      assert (a + b)[|a| + n - 1] == b[n - 1];
    }
  }

  lemma DemandOfConcat(a: Entries, b: Entries, key: Key)
    ensures DemandOf(a + b, key) == Sum(DemandOf(a, key), DemandOf(b, key))
  {
    DemandOfConcatFirst(a, b, |b|, key);
  }

  lemma DemandOfAppend(entries: Entries, e: Entry, key: Key)
    ensures DemandOf(entries + [e], key) ==
      if e.key == key then Sum(DemandOf(entries, key), e.demand) else DemandOf(entries, key)
  {
    DemandOfPrefix(entries + [e], entries, |entries|, key);
  }

  lemma {:induction false} ListingDemand(buffer: map<Key, Demand>, order: seq<Key>, n: nat, key: Key)
    requires forall i :: 0 <= i < |order| ==> order[i] in buffer
    requires forall i, j :: 0 <= i < j < |order| ==> order[i] != order[j]
    requires n <= |order|
    ensures DemandOfFirst(Listing(buffer, order), n, key) == if key in order[..n] then buffer[key] else NO_DEMAND
  {
    if n > 0 {
      ListingDemand(buffer, order, n - 1, key);
      assert order[..n] == order[..n - 1] + [order[n - 1]];
    }
  }

  lemma MergeDemand(before: map<Key, Demand>, e: Entry, key: Key)
    ensures DemandIn(Merged(false, before, e), key) ==
      if e.key == key then Sum(DemandIn(before, key), e.demand) else DemandIn(before, key)
  {
  }

  lemma MergedSum(base: Demand, sofar: Demand, held: Demand, e: Entry, key: Key)
    requires held == Sum(base, sofar)
    ensures (if e.key == key then Sum(held, e.demand) else held) ==
      Sum(base, if e.key == key then Sum(sofar, e.demand) else sofar)
  {
  }

  lemma RequeuedDemandStep(buffer: map<Key, Demand>, entries: Entries, n: nat, key: Key)
    requires 0 < n <= |entries|
    requires DemandIn(RequeuedFirst(false, buffer, entries, n - 1), key) ==
      Sum(DemandIn(buffer, key), DemandOfFirst(entries, n - 1, key))
    ensures DemandIn(RequeuedFirst(false, buffer, entries, n), key) ==
      Sum(DemandIn(buffer, key), DemandOfFirst(entries, n, key))
  {
    var before := RequeuedFirst(false, buffer, entries, n - 1);
    MergeDemand(before, entries[n - 1], key);
    MergedSum(
      DemandIn(buffer, key), DemandOfFirst(entries, n - 1, key), DemandIn(before, key), entries[n - 1], key);
  }

  /** Merging entries back adds their demand, in ideal arithmetic. */
  lemma {:induction false} RequeuedDemand(buffer: map<Key, Demand>, entries: Entries, n: nat, key: Key)
    requires n <= |entries|
    ensures DemandIn(RequeuedFirst(false, buffer, entries, n), key) ==
      Sum(DemandIn(buffer, key), DemandOfFirst(entries, n, key))
  {
    if n == 0 {
      SumZero(DemandIn(buffer, key));
    } else {
      RequeuedDemand(buffer, entries, n - 1, key);
      RequeuedDemandStep(buffer, entries, n, key);
    }
  }

  /******* Conservation *******/

  /** Everything still held or already delivered for a key. */
  function Held(s: State, key: Key): Demand
  {
    Sum(DemandIn(s.buffer, key), Sum(DemandOf(InFlight(s.flush), key), DemandOf(s.delivered, key)))
  }

  lemma IdealStepConserves(s: State, step: Step, key: Key)
    requires Enabled(s, step) && !s.saturating
    requires Held(s, key) == DemandOf(s.accepted, key)
    ensures Held(Next(s, step), key) == DemandOf(Next(s, step).accepted, key)
  {
    match step {
      case Query(k, cost, failed) => QueryConserves(s, step, key);
      case ReportDropped =>
      case BeginFlush(order) => DrainConserves(s, order, key);
      case SendChunk(ok) => ChunkConserves(s, ok, key);
      case EndFlush => RequeueConserves(s, key);
    }
  }

  lemma QueryConserves(s: State, step: Step, key: Key)
    requires step.Query? && !s.saturating
    requires Held(s, key) == DemandOf(s.accepted, key)
    ensures Held(Next(s, step), key) == DemandOf(Next(s, step).accepted, key)
  {
    if Accepts(s.buffer, step.key, s.maxBuffered) {
      DemandOfAppend(s.accepted, Entry(step.key, QueryDemand(step.cost, step.failed)), key);
    }
  }

  lemma DrainConserves(s: State, order: seq<Key>, key: Key)
    requires Enabled(s, BeginFlush(order))
    ensures Held(Next(s, BeginFlush(order)), key) == Held(s, key)
  {
    var listing := Listing(s.buffer, order);
    ListedDemand(s.buffer, order, key);
    assert InFlight(s.flush) == [] && InFlight(Next(s, BeginFlush(order)).flush) == listing;
    SumMoves(DemandIn(s.buffer, key), DemandOf(s.delivered, key));
  }

  /** The drained list carries the demand the buffer held. */
  lemma ListedDemand(buffer: map<Key, Demand>, order: seq<Key>, key: Key)
    requires forall i :: 0 <= i < |order| ==> order[i] in buffer
    requires forall i, j :: 0 <= i < j < |order| ==> order[i] != order[j]
    requires forall k :: k in buffer ==> k in order
    ensures DemandOf(Listing(buffer, order), key) == DemandIn(buffer, key)
  {
    ListingDemand(buffer, order, |order|, key);
    assert order[..|order|] == order;
    assert key in order <==> key in buffer;
  }

  lemma SumMoves(held: Demand, delivered: Demand)
    ensures Sum(NO_DEMAND, Sum(held, delivered)) == Sum(held, Sum(NO_DEMAND, delivered))
  {
  }

  lemma HeldAtEnd(s: State, key: Key)
    requires Enabled(s, EndFlush)
    ensures Held(s, key) ==
      Sum(DemandIn(s.buffer, key), Sum(DemandOf(s.flush.requeue, key), DemandOf(s.delivered, key)))
  {
    assert InFlight(s.flush) == s.flush.requeue;
  }

  lemma RequeueConserves(s: State, key: Key)
    requires Enabled(s, EndFlush) && !s.saturating
    ensures Held(Next(s, EndFlush), key) == Held(s, key)
  {
    RequeuedDemand(s.buffer, s.flush.requeue, |s.flush.requeue|, key);
    SumAfterRequeue(
      DemandIn(s.buffer, key), DemandOf(s.flush.requeue, key), DemandOf(s.delivered, key),
      DemandIn(Next(s, EndFlush).buffer, key));
    HeldAtEnd(s, key);
  }

  lemma SumAfterRequeue(buffered: Demand, requeued: Demand, delivered: Demand, after: Demand)
    requires after == Sum(buffered, requeued)
    ensures Sum(after, Sum(NO_DEMAND, delivered)) == Sum(buffered, Sum(requeued, delivered))
  {
  }

  lemma ChunkConserves(s: State, ok: bool, key: Key)
    requires Enabled(s, SendChunk(ok))
    ensures Held(Next(s, SendChunk(ok)), key) == Held(s, key)
  {
    var take := Min(s.maxBatchSize, |s.flush.remaining|);
    var chunk, rest := s.flush.remaining[..take], s.flush.remaining[take..];
    assert s.flush.remaining == chunk + rest;
    SplitDemand(chunk, rest, s.flush.requeue, key);
    DemandOfConcat(s.delivered, chunk, key);
  }

  lemma SplitDemand(chunk: Entries, rest: Entries, requeue: Entries, key: Key)
    ensures DemandOf(chunk + rest + requeue, key) == Sum(DemandOf(chunk, key), DemandOf(rest + requeue, key))
    ensures DemandOf(rest + (requeue + chunk), key) == Sum(DemandOf(chunk, key), DemandOf(rest + requeue, key))
  {
    assert chunk + rest + requeue == chunk + (rest + requeue);
    DemandOfConcat(chunk, rest + requeue, key);
    assert rest + (requeue + chunk) == rest + requeue + chunk;
    DemandOfConcat(rest + requeue, chunk, key);
  }
}
