/** What every interleaving of the query buffer guarantees: no demand is lost, and how large the buffer gets. */
module QueryGuarantees {
  import opened Basics
  import opened QueryBuffer
  import opened QueryFlushing

  /******* The saturating run follows the ideal run *******/

  /** The entries of the program are the ideal ones with each counter clipped. */
  ghost predicate Clipped(c: Entries, i: Entries)
  {
    |c| == |i| && forall n :: 0 <= n < |c| ==> c[n] == Entry(i[n].key, Saturated(i[n].demand))
  }

  ghost predicate ClippedMap(c: map<Key, Demand>, i: map<Key, Demand>)
  {
    c.Keys == i.Keys && forall k :: k in c ==> c[k] == Saturated(i[k])
  }

  ghost predicate ClippedFlush(c: Flush, i: Flush)
  {
    if c.Idle? then i.Idle?
    else i.Sending? && Clipped(c.remaining, i.remaining) && Clipped(c.requeue, i.requeue)
  }

  ghost predicate Follows(c: State, i: State)
  {
    && c.saturating && !i.saturating
    && c.maxBuffered == i.maxBuffered && c.maxBatchSize == i.maxBatchSize
    && c.accepted == i.accepted && c.failures == i.failures
    && ClippedMap(c.buffer, i.buffer)
    && ClippedFlush(c.flush, i.flush)
    && Clipped(c.delivered, i.delivered)
  }

  lemma ClippedUpdate(c: map<Key, Demand>, i: map<Key, Demand>, key: Key, query: Demand)
    requires ClippedMap(c, i)
    ensures ClippedMap(Buffered(true, c, key, query), Buffered(false, i, key, query))
  {
    assert DemandIn(c, key) == Saturated(DemandIn(i, key));
    SaturationIsStable(DemandIn(i, key), query);
  }

  lemma ClippedMerge(c: map<Key, Demand>, i: map<Key, Demand>, e: Entry, d: Entry)
    requires ClippedMap(c, i) && e == Entry(d.key, Saturated(d.demand))
    ensures ClippedMap(Merged(true, c, e), Merged(false, i, d))
  {
    if d.key in i {
      SaturationIsStable(i[d.key], d.demand);
    }
  }

  lemma {:induction false} ClippedRequeue(
    c: map<Key, Demand>, i: map<Key, Demand>, es: Entries, ds: Entries, n: nat)
    requires ClippedMap(c, i) && Clipped(es, ds) && n <= |es|
    ensures ClippedMap(RequeuedFirst(true, c, es, n), RequeuedFirst(false, i, ds, n))
  {
    if n > 0 {
      ClippedRequeue(c, i, es, ds, n - 1);
      ClippedMerge(RequeuedFirst(true, c, es, n - 1), RequeuedFirst(false, i, ds, n - 1), es[n - 1], ds[n - 1]);
    }
  }

  lemma SameKeysSameSize(c: map<Key, Demand>, i: map<Key, Demand>)
    requires c.Keys == i.Keys
    ensures |c| == |i|
  {
    assert |c| == |c.Keys| && |i| == |i.Keys|;
  }

  lemma FollowsQuery(c: State, i: State, step: Step)
    requires Follows(c, i) && step.Query?
    ensures Follows(Next(c, step), Next(i, step))
  {
    SameKeysSameSize(c.buffer, i.buffer);
    ClippedUpdate(c.buffer, i.buffer, step.key, QueryDemand(step.cost, step.failed));
  }

  lemma FollowsDrain(c: State, i: State, order: seq<Key>)
    requires Follows(c, i) && Enabled(c, BeginFlush(order))
    ensures Enabled(i, BeginFlush(order)) && Follows(Next(c, BeginFlush(order)), Next(i, BeginFlush(order)))
  {
    assert forall k :: k in i.buffer ==> k in c.buffer;
    assert Enumerates(order, i.buffer);
  }

  lemma ClippedSplit(c: Entries, i: Entries, take: nat)
    requires Clipped(c, i) && take <= |c|
    ensures Clipped(c[..take], i[..take]) && Clipped(c[take..], i[take..])
  {
  }

  lemma ClippedConcat(c: Entries, i: Entries, d: Entries, j: Entries)
    requires Clipped(c, i) && Clipped(d, j)
    ensures Clipped(c + d, i + j)
  {
  }

  lemma FollowsChunk(c: State, i: State, ok: bool)
    requires Follows(c, i) && Enabled(c, SendChunk(ok))
    ensures Enabled(i, SendChunk(ok)) && Follows(Next(c, SendChunk(ok)), Next(i, SendChunk(ok)))
  {
    var take := Min(c.maxBatchSize, |c.flush.remaining|);
    ClippedSplit(c.flush.remaining, i.flush.remaining, take);
    ClippedConcat(c.delivered, i.delivered, c.flush.remaining[..take], i.flush.remaining[..take]);
    ClippedConcat(c.flush.requeue, i.flush.requeue, c.flush.remaining[..take], i.flush.remaining[..take]);
  }

  lemma FollowsStep(c: State, i: State, step: Step)
    requires Follows(c, i) && Enabled(c, step)
    ensures Enabled(i, step) && Follows(Next(c, step), Next(i, step))
  {
    match step {
      case Query(key, cost, failed) =>
        FollowsQuery(c, i, step);
      case ReportDropped =>
      case BeginFlush(order) =>
        FollowsDrain(c, i, order);
      case SendChunk(ok) =>
        FollowsChunk(c, i, ok);
      case EndFlush =>
        ClippedRequeue(c.buffer, i.buffer, c.flush.requeue, i.flush.requeue, |c.flush.requeue|);
    }
  }

  ghost predicate Conserves(s: State)
  {
    forall key :: Held(s, key) == DemandOf(s.accepted, key)
  }

  lemma NothingHeld(s: State, key: Key)
    requires Init(s)
    ensures Held(s, key) == NO_DEMAND == DemandOf(s.accepted, key)
  {
    assert DemandIn(s.buffer, key) == NO_DEMAND;
    assert DemandOf(InFlight(s.flush), key) == NO_DEMAND && DemandOf(s.delivered, key) == NO_DEMAND;
  }

  lemma IdealStart(s: State)
    requires Init(s) && s.saturating
    ensures Follows(s, s.(saturating := false)) && Conserves(s.(saturating := false))
  {
    forall key
      ensures Held(s.(saturating := false), key) == DemandOf(s.accepted, key)
    {
      NothingHeld(s.(saturating := false), key);
    }
  }

  lemma IdealStep(s: State, step: Step)
    requires Enabled(s, step) && !s.saturating && Conserves(s)
    ensures Conserves(Next(s, step))
  {
    forall key
      ensures Held(Next(s, step), key) == DemandOf(Next(s, step).accepted, key)
    {
      IdealStepConserves(s, step, key);
    }
  }

  /** For every run of the program there is an ideal run it follows, and the ideal run conserves demand. */
  lemma {:induction false} IdealRun(states: seq<State>, steps: seq<Step>, n: nat) returns (ideal: State)
    requires Trace(states, steps) && states[0].saturating && n < |states|
    ensures Follows(states[n], ideal) && Conserves(ideal)
  {
    if n == 0 {
      ideal := states[0].(saturating := false);
      IdealStart(states[0]);
    } else {
      var before := IdealRun(states, steps, n - 1);
      FollowsStep(states[n - 1], before, steps[n - 1]);
      IdealStep(before, steps[n - 1]);
      ideal := Next(before, steps[n - 1]);
    }
  }

  /******* Conservation *******/

  predicate AtMost(a: Demand, b: Demand)
  {
    a.count <= b.count && a.cost <= b.cost && a.failed <= b.failed
  }

  lemma {:induction false} ClippedDemand(c: Entries, i: Entries, n: nat, key: Key)
    requires Clipped(c, i) && n <= |c|
    ensures AtMost(Saturated(DemandOfFirst(i, n, key)), DemandOfFirst(c, n, key))
    ensures AtMost(DemandOfFirst(c, n, key), DemandOfFirst(i, n, key))
  {
    if n > 0 {
      ClippedDemand(c, i, n - 1, key);
    }
  }

  lemma ClippedInFlight(c: Flush, i: Flush)
    requires ClippedFlush(c, i)
    ensures Clipped(InFlight(c), InFlight(i))
  {
  }

  /** Clipping the parts of a total leaves at least the clipped total. */
  lemma ClippedSum(a: Demand, b: Demand, c: Demand, a': Demand, b': Demand, c': Demand)
    requires AtMost(Saturated(a), a') && AtMost(a', a)
    requires AtMost(Saturated(b), b') && AtMost(b', b)
    requires AtMost(Saturated(c), c') && AtMost(c', c)
    ensures AtMost(Saturated(Sum(a, Sum(b, c))), Sum(a', Sum(b', c')))
    ensures AtMost(Sum(a', Sum(b', c')), Sum(a, Sum(b, c)))
  {
  }

  lemma ClippedHeld(c: State, i: State, key: Key)
    requires Follows(c, i)
    ensures AtMost(Saturated(Held(i, key)), Held(c, key)) && AtMost(Held(c, key), Held(i, key))
  {
    ClippedInFlight(c.flush, i.flush);
    ClippedDemand(InFlight(c.flush), InFlight(i.flush), |InFlight(c.flush)|, key);
    ClippedDemand(c.delivered, i.delivered, |c.delivered|, key);
    ClippedSum(
      DemandIn(i.buffer, key), DemandOf(InFlight(i.flush), key), DemandOf(i.delivered, key),
      DemandIn(c.buffer, key), DemandOf(InFlight(c.flush), key), DemandOf(c.delivered, key));
  }

  /**
   No demand is lost and none is invented: in every state of every run, what is buffered, in flight and
   delivered for an identity is at most what was accepted for it, and at least that amount clipped to
   the counter widths. Without overflow the two are equal, for the count, the cost and the failures.
   */
  lemma DemandIsConserved(states: seq<State>, steps: seq<Step>, n: nat, key: Key)
    requires Trace(states, steps) && states[0].saturating && n < |states|
    ensures AtMost(Held(states[n], key), DemandOf(states[n].accepted, key))
    ensures AtMost(Saturated(DemandOf(states[n].accepted, key)), Held(states[n], key))
    ensures Fits(DemandOf(states[n].accepted, key)) ==> Held(states[n], key) == DemandOf(states[n].accepted, key)
  {
    var ideal := IdealRun(states, steps, n);
    ClippedHeld(states[n], ideal, key);
  }

  /** Every indexable call was accepted, or dropped and counted. */
  lemma {:induction false} CallsAreAccountedFor(states: seq<State>, steps: seq<Step>, n: nat)
    requires Trace(states, steps) && n < |states|
    ensures |states[n].accepted| + states[n].dropped + states[n].reported == states[n].calls
  {
    if n > 0 {
      CallsAreAccountedFor(states, steps, n - 1);
      assert states[n] == Next(states[n - 1], steps[n - 1]);
    }
  }

  /******* What is accepted *******/

  /** A query is refused only for a new identity and a full buffer; anything else counts it once. */
  lemma QueryIsAcceptedIff(states: seq<State>, steps: seq<Step>, n: nat)
    requires Trace(states, steps) && n < |steps| && steps[n].Query?
    ensures var s, t, key := states[n], states[n + 1], steps[n].key;
      var query := Entry(key, Demand(1, steps[n].cost, if steps[n].failed then 1 else 0));
      if key in s.buffer || |s.buffer| < s.maxBuffered then t.accepted == s.accepted + [query] && t.dropped == s.dropped
      else t.accepted == s.accepted && t.dropped == s.dropped + 1 && t.buffer == s.buffer
  {
    assert states[n + 1] == Next(states[n], steps[n]);
  }

  /** A POST that succeeds delivers its chunk, and one that fails keeps it for the end of the cycle. */
  lemma ChunkIsDeliveredIff(states: seq<State>, steps: seq<Step>, n: nat)
    requires Trace(states, steps) && n < |steps| && steps[n].SendChunk?
    ensures states[n].flush.Sending? && states[n + 1].flush.Sending?
    ensures var s, t := states[n], states[n + 1];
      var chunk := s.flush.remaining[..Min(s.maxBatchSize, |s.flush.remaining|)];
      && chunk + t.flush.remaining == s.flush.remaining
      && t.delivered == s.delivered + (if steps[n].ok then chunk else [])
      && t.flush.requeue == s.flush.requeue + (if steps[n].ok then [] else chunk)
      && t.buffer == s.buffer && t.failures == s.failures
  {
    assert states[n + 1] == Next(states[n], steps[n]);
  }

  /** A cycle that ends counts as failed if and only if something is kept; an empty buffer starts none. */
  lemma CycleFailsIff(states: seq<State>, steps: seq<Step>, n: nat)
    requires Trace(states, steps) && n < |steps|
    ensures steps[n].EndFlush? ==> states[n].flush.Sending?
    ensures steps[n].EndFlush? ==>
      states[n + 1].failures == if states[n].flush.requeue == [] then 0 else states[n].failures + 1
    ensures !steps[n].EndFlush? ==> states[n + 1].failures == states[n].failures
    ensures steps[n] == BeginFlush([]) ==> states[n + 1] == states[n]
  {
    assert states[n + 1] == Next(states[n], steps[n]);
    if steps[n] == BeginFlush([]) {
      assert states[n].buffer == map[];
    }
  }

  /** The calls, cost and failures of the queries of an identity that found it buffered, or found room. */
  ghost function Asked(states: seq<State>, steps: seq<Step>, n: nat, key: Key): Demand
    requires n <= |steps| < |states|
  {
    if n == 0 then Demand(0, 0, 0)
    else
      var before, step, s := Asked(states, steps, n - 1, key), steps[n - 1], states[n - 1];
      if step.Query? && step.key == key && (key in s.buffer || |s.buffer| < s.maxBuffered) then
        Demand(before.count + 1, before.cost + step.cost, before.failed + if step.failed then 1 else 0)
      else before
  }

  lemma {:induction false} AcceptedIsAsked(states: seq<State>, steps: seq<Step>, n: nat, key: Key)
    requires Trace(states, steps) && n <= |steps|
    ensures DemandOf(states[n].accepted, key) == Asked(states, steps, n, key)
  {
    if n > 0 {
      AcceptedIsAsked(states, steps, n - 1, key);
      AcceptedNext(states[n - 1], steps[n - 1], key);
      assert states[n] == Next(states[n - 1], steps[n - 1]);
    }
  }

  lemma AcceptedNext(s: State, step: Step, key: Key)
    requires Enabled(s, step)
    ensures var before, after := DemandOf(s.accepted, key), DemandOf(Next(s, step).accepted, key);
      if step.Query? && step.key == key && (key in s.buffer || |s.buffer| < s.maxBuffered) then
        after == Demand(before.count + 1, before.cost + step.cost, before.failed + if step.failed then 1 else 0)
      else after == before
  {
    if step.Query? {
      DemandOfAppend(s.accepted, Entry(step.key, QueryDemand(step.cost, step.failed)), key);
    }
  }

  /** The demand of the accepted queries is buffered, in flight or delivered, but for what the counters cannot hold. */
  lemma AskedIsKept(states: seq<State>, steps: seq<Step>, n: nat, key: Key)
    requires Trace(states, steps) && states[0].saturating && n <= |steps|
    ensures var asked, held := Asked(states, steps, n, key), Held(states[n], key);
      && Min(asked.count, U32_MAX) <= held.count <= asked.count
      && Min(asked.cost, U64_MAX) <= held.cost <= asked.cost
      && Min(asked.failed, U32_MAX) <= held.failed <= asked.failed
  {
    AcceptedIsAsked(states, steps, n, key);
    DemandIsConserved(states, steps, n, key);
  }

  /******* How large the buffer gets *******/

  /** The most identities the buffer can hold after `failures` failed cycles in a row. */
  function Capacity(failures: nat, maxBuffered: nat): nat
  {
    (failures + 1) * maxBuffered
  }

  lemma CapacityFacts(failures: nat, maxBuffered: nat)
    ensures maxBuffered <= Capacity(failures, maxBuffered)
    ensures Capacity(failures + 1, maxBuffered) == Capacity(failures, maxBuffered) + maxBuffered
    ensures Capacity(0, maxBuffered) == maxBuffered
  {
  }

  ghost predicate Bounded(s: State)
  {
    match s.flush
    case Idle => |s.buffer| <= Capacity(s.failures, s.maxBuffered)
    case Sending(remaining, requeue) =>
      |s.buffer| <= s.maxBuffered && |remaining| + |requeue| <= Capacity(s.failures, s.maxBuffered)
  }

  lemma {:induction false} DistinctKeys(order: seq<Key>, buffer: map<Key, Demand>)
    requires forall i :: 0 <= i < |order| ==> order[i] in buffer
    requires forall i, j :: 0 <= i < j < |order| ==> order[i] != order[j]
    ensures |order| <= |buffer|
  {
    if order != [] {
      var last := order[|order| - 1];
      var smaller := buffer - {last};
      DistinctKeys(order[..|order| - 1], smaller);
      assert smaller.Keys == buffer.Keys - {last};
      assert |buffer.Keys| == |smaller.Keys| + 1;
    }
  }

  lemma UpdateSize(m: map<Key, Demand>, key: Key, d: Demand)
    ensures |m[key := d]| == if key in m then |m| else |m| + 1
  {
    assert m[key := d].Keys == m.Keys + {key};
  }

  lemma {:induction false} RequeueSize(m: map<Key, Demand>, entries: Entries, n: nat, saturating: bool)
    requires n <= |entries|
    ensures |RequeuedFirst(saturating, m, entries, n)| <= |m| + n
  {
    if n > 0 {
      RequeueSize(m, entries, n - 1, saturating);
      var before, e := RequeuedFirst(saturating, m, entries, n - 1), entries[n - 1];
      UpdateSize(before, e.key, if e.key in before then Add(saturating, before[e.key], e.demand) else e.demand);
    }
  }

  lemma BoundedQuery(s: State, step: Step)
    requires Bounded(s) && step.Query?
    ensures Bounded(Next(s, step))
  {
    UpdateSize(s.buffer, step.key, Add(s.saturating, DemandIn(s.buffer, step.key), QueryDemand(step.cost, step.failed)));
    CapacityFacts(s.failures, s.maxBuffered);
  }

  lemma BoundedEnd(s: State)
    requires Bounded(s) && Enabled(s, EndFlush)
    ensures Bounded(Next(s, EndFlush))
  {
    RequeueSize(s.buffer, s.flush.requeue, |s.flush.requeue|, s.saturating);
    CapacityFacts(s.failures, s.maxBuffered);
  }

  lemma BoundedStep(s: State, step: Step)
    requires Bounded(s) && Enabled(s, step)
    ensures Bounded(Next(s, step))
  {
    match step {
      case Query(_, _, _) => BoundedQuery(s, step);
      case ReportDropped =>
      case BeginFlush(order) => DistinctKeys(order, s.buffer);
      case SendChunk(_) =>
      case EndFlush => BoundedEnd(s);
    }
  }

  /**
   After f consecutive cycles with a failed batch the buffer holds at most (f + 1) * max identities; it is
   within the configured maximum when the last cycle had none.
   */
  lemma {:induction false} BufferBound(states: seq<State>, steps: seq<Step>, n: nat)
    requires Trace(states, steps) && n < |states|
    ensures Bounded(states[n])
    ensures |states[n].buffer| <= Capacity(states[n].failures, states[n].maxBuffered)
    ensures states[n].failures == 0 ==> |states[n].buffer| <= states[n].maxBuffered
  {
    if n > 0 {
      BufferBound(states, steps, n - 1);
      BoundedStep(states[n - 1], steps[n - 1]);
    }
    CapacityFacts(states[n].failures, states[n].maxBuffered);
  }

  /******* The documented fixed cap does not hold *******/

  ghost predicate Reachable(s: State)
  {
    exists states, steps :: Trace(states, steps) && states[|steps|] == s
  }

  lemma ReachableStep(s: State, step: Step)
    requires Reachable(s) && Enabled(s, step)
    ensures Reachable(Next(s, step))
  {
    var states, steps :| Trace(states, steps) && states[|steps|] == s;
    var longer, more := states + [Next(s, step)], steps + [step];
    assert Trace(longer, more) by {
      forall i | 0 <= i < |more|
        ensures Enabled(longer[i], more[i]) && longer[i + 1] == Next(longer[i], more[i])
      {
        if i < |steps| {
          assert longer[i] == states[i] && longer[i + 1] == states[i + 1] && more[i] == steps[i];
        }
      }
    }
    assert longer[|more|] == Next(s, step);
  }

  /** The buffer holds exactly the keys from `lo` up to `hi`. */
  ghost predicate HoldsKeys(buffer: map<Key, Demand>, lo: nat, hi: nat)
  {
    && (forall k :: k in buffer <==> lo <= k < hi)
    && |buffer| == hi - lo
  }

  lemma FreshKey(s: State, lo: nat, hi: nat)
    requires lo <= hi < lo + s.maxBuffered && HoldsKeys(s.buffer, lo, hi)
    ensures
      var next := Next(s, Query(hi, 0, false));
      && HoldsKeys(next.buffer, lo, hi + 1)
      && next.flush == s.flush && next.failures == s.failures
      && next.maxBuffered == s.maxBuffered && next.maxBatchSize == s.maxBatchSize && next.saturating == s.saturating
  {
    OneMoreKey(s.buffer, lo, hi, Add(s.saturating, NO_DEMAND, QueryDemand(0, false)));
  }

  lemma OneMoreKey(buffer: map<Key, Demand>, lo: nat, hi: nat, d: Demand)
    requires lo <= hi && HoldsKeys(buffer, lo, hi)
    ensures hi !in buffer && HoldsKeys(buffer[hi := d], lo, hi + 1)
  {
    UpdateSize(buffer, hi, d);
  }

  /** Fresh identities arrive until the buffer is full. */
  lemma {:induction false} FillUp(s: State, lo: nat, hi: nat) returns (full: State)
    requires Reachable(s) && lo <= hi <= lo + s.maxBuffered && HoldsKeys(s.buffer, lo, hi)
    ensures Reachable(full) && HoldsKeys(full.buffer, lo, lo + s.maxBuffered)
    ensures full.flush == s.flush && full.failures == s.failures
    ensures full.maxBuffered == s.maxBuffered && full.maxBatchSize == s.maxBatchSize && full.saturating == s.saturating
    decreases lo + s.maxBuffered - hi
  {
    if hi == lo + s.maxBuffered {
      full := s;
    } else {
      var step := Query(hi, 0, false);
      ReachableStep(s, step);
      FreshKey(s, lo, hi);
      full := FillUp(Next(s, step), lo, hi + 1);
    }
  }

  /** Every batch fails. */
  lemma {:induction false} FailAll(s: State) returns (failed: State)
    requires Reachable(s) && s.flush.Sending? && s.maxBatchSize >= 1
    ensures Reachable(failed) && failed.flush == Sending([], s.flush.requeue + s.flush.remaining)
    ensures failed.buffer == s.buffer && failed.failures == s.failures
    ensures failed.maxBuffered == s.maxBuffered && failed.maxBatchSize == s.maxBatchSize && failed.saturating == s.saturating
    decreases |s.flush.remaining|
  {
    if s.flush.remaining == [] {
      failed := s;
      assert s.flush.requeue + [] == s.flush.requeue;
    } else {
      ReachableStep(s, SendChunk(false));
      var t := Next(s, SendChunk(false));
      ChunkFails(s, t);
      failed := FailAll(t);
      assert t.flush.requeue + t.flush.remaining == s.flush.requeue + s.flush.remaining;
    }
  }

  lemma ChunkFails(s: State, t: State)
    requires s.flush.Sending? && s.flush.remaining != [] && s.maxBatchSize >= 1 && t == Next(s, SendChunk(false))
    ensures t.flush.Sending? && |t.flush.remaining| < |s.flush.remaining|
    ensures t.flush.requeue + t.flush.remaining == s.flush.requeue + s.flush.remaining
    ensures t == s.(flush := t.flush)
  {
    var take := Min(s.maxBatchSize, |s.flush.remaining|);
    assert s.flush.remaining == s.flush.remaining[..take] + s.flush.remaining[take..];
  }

  ghost predicate EntryKeys(entries: Entries, n: nat)
  {
    |entries| == n && forall i :: 0 <= i < n ==> entries[i].key == i
  }

  lemma {:induction false} MergeBelow(buffer: map<Key, Demand>, entries: Entries, lo: nat, hi: nat, n: nat, saturating: bool)
    requires HoldsKeys(buffer, lo, hi) && lo <= hi && EntryKeys(entries, lo) && n <= lo
    ensures
      var merged := RequeuedFirst(saturating, buffer, entries, n);
      && (forall k :: k in merged <==> 0 <= k < n || lo <= k < hi)
      && |merged| == n + hi - lo
  {
    if n > 0 {
      MergeBelow(buffer, entries, lo, hi, n - 1, saturating);
      UpdateSize(RequeuedFirst(saturating, buffer, entries, n - 1), n - 1, entries[n - 1].demand);
    }
  }

  /** One failing cycle, while callers keep bringing new identities. */
  lemma FailingCycle(s: State, n: nat) returns (grown: State)
    requires Reachable(s) && s.flush.Idle? && s.maxBatchSize >= 1 && s.maxBuffered >= 1 && n > 0
    requires HoldsKeys(s.buffer, 0, n)
    ensures Reachable(grown) && grown.flush.Idle? && grown.failures == s.failures + 1
    ensures HoldsKeys(grown.buffer, 0, n + s.maxBuffered)
    ensures grown.maxBuffered == s.maxBuffered && grown.maxBatchSize == s.maxBatchSize && grown.saturating == s.saturating
  {
    var order := seq(n, i => i);
    assert Enumerates(order, s.buffer) by {
      forall k | k in s.buffer
        ensures k in order
      {
        assert order[k] == k;
      }
    }
    ReachableStep(s, BeginFlush(order));
    var drained := Next(s, BeginFlush(order));
    var full := FillUp(drained, n, n);
    var failed := FailAll(full);
    assert EntryKeys(failed.flush.requeue, n);
    ReachableStep(failed, EndFlush);
    grown := Next(failed, EndFlush);
    MergeBelow(failed.buffer, failed.flush.requeue, n, n + s.maxBuffered, n, failed.saturating);
  }

  /** The bound is reached for every number of failed cycles: while the tracker is down the buffer grows without limit. */
  lemma {:induction false} BoundIsReached(maxBuffered: nat, maxBatchSize: nat, failures: nat) returns (s: State)
    requires maxBuffered >= 1 && maxBatchSize >= 1
    ensures Reachable(s) && s.saturating && s.maxBuffered == maxBuffered && s.maxBatchSize == maxBatchSize
    ensures s.flush.Idle? && s.failures == failures
    ensures |s.buffer| == Capacity(failures, maxBuffered)
    ensures HoldsKeys(s.buffer, 0, Capacity(failures, maxBuffered))
    decreases failures
  {
    if failures == 0 {
      var start := State(true, maxBuffered, maxBatchSize, map[], Idle, [], [], 0, 0, 0, 0);
      var steps: seq<Step> := [];
      assert Trace([start], steps) && [start][|steps|] == start;
      s := FillUp(start, 0, 0);
    } else {
      var before := BoundIsReached(maxBuffered, maxBatchSize, failures - 1);
      CapacityFacts(failures - 1, maxBuffered);
      s := FailingCycle(before, Capacity(failures - 1, maxBuffered));
    }
    CapacityFacts(failures, maxBuffered);
  }
}
