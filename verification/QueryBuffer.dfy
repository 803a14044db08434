/** The API side query buffer: demand aggregated per index identity, and the operations that update it. */
module QueryBuffer {
  import opened Basics

  const U32_MAX: nat := 0xFFFF_FFFF
  const U64_MAX: nat := 0xFFFF_FFFF_FFFF_FFFF
  const MAX_FINGERPRINTS: nat := 256

  /** The pattern id of an index identity. */
  type Key = nat

  /** The three counters of an observation. */
  datatype Demand = Demand(count: nat, cost: nat, failed: nat)

  const NO_DEMAND: Demand := Demand(0, 0, 0)

  function Sum(a: Demand, b: Demand): Demand
  {
    Demand(a.count + b.count, a.cost + b.cost, a.failed + b.failed)
  }

  lemma SumZero(d: Demand)
    ensures Sum(d, NO_DEMAND) == d && Sum(NO_DEMAND, d) == d
  {
  }

  /** The counters as stored: `count` and `failed_count` are 32 bits wide, the cost 64. */
  function Saturated(d: Demand): Demand
  {
    Demand(Min(d.count, U32_MAX), Min(d.cost, U64_MAX), Min(d.failed, U32_MAX))
  }

  function SaturatingSum(a: Demand, b: Demand): Demand
  {
    Saturated(Sum(a, b))
  }

  /** The program adds with saturation; `saturating == false` is the ideal arithmetic it is compared with. */
  function Add(saturating: bool, a: Demand, b: Demand): Demand
  {
    if saturating then SaturatingSum(a, b) else Sum(a, b)
  }

  predicate Fits(d: Demand)
  {
    d.count <= U32_MAX && d.cost <= U64_MAX && d.failed <= U32_MAX
  }

  /** One call of `buffer_query`. */
  function QueryDemand(cost: nat, failed: bool): Demand
  {
    Demand(1, cost, if failed then 1 else 0)
  }

  /** Saturation can be applied early or late. */
  lemma SaturationIsStable(a: Demand, b: Demand)
    ensures SaturatingSum(Saturated(a), b) == Saturated(Sum(a, b))
    ensures SaturatingSum(Saturated(a), Saturated(b)) == Saturated(Sum(a, b))
  {
  }

  datatype Observation = Observation(demand: Demand, fingerprints: set<nat>)

  predicate Valid(o: Observation)
  {
    Fits(o.demand) && |o.fingerprints| <= MAX_FINGERPRINTS
  }

  /**
   `TrackObservation::merge`: counters add up, fingerprints are taken over in the order `order` in which
   the other set is iterated, until the cap is reached.
   */
  method Merge(mine: Observation, other: Observation, order: seq<nat>) returns (merged: Observation)
    requires Valid(mine)
    requires forall fp :: fp in order <==> fp in other.fingerprints
    ensures Valid(merged)
    ensures merged.demand == SaturatingSum(mine.demand, other.demand)
    ensures merged.demand.count == Min(mine.demand.count + other.demand.count, U32_MAX)
    ensures merged.demand.cost == Min(mine.demand.cost + other.demand.cost, U64_MAX)
    ensures merged.demand.failed == Min(mine.demand.failed + other.demand.failed, U32_MAX)
    ensures CutUnion(mine.fingerprints, other.fingerprints, merged.fingerprints)
  {
    var fingerprints := mine.fingerprints;
    var i := 0;
    while i < |order| && |fingerprints| < MAX_FINGERPRINTS
      invariant 0 <= i <= |order|
      invariant |fingerprints| <= MAX_FINGERPRINTS
      invariant mine.fingerprints <= fingerprints
      invariant fingerprints <= mine.fingerprints + other.fingerprints
      invariant forall n :: 0 <= n < i ==> order[n] in fingerprints
    {
      fingerprints := fingerprints + {order[i]};
      i := i + 1;
    }
    ghost var union := mine.fingerprints + other.fingerprints;
    SubsetSize(fingerprints, union);
    if i == |order| {
      assert fingerprints == union;
    }
    merged := Observation(SaturatingSum(mine.demand, other.demand), fingerprints);
  }

  /** A fingerprint is recorded while there is room. */
  function Recorded(known: set<nat>, fingerprint: Option<nat>): set<nat>
  {
    if fingerprint.Some? && |known| < MAX_FINGERPRINTS then known + {fingerprint.value} else known
  }

  function Fingerprints(buffer: Buffer, key: Key): (fps: set<nat>)
    ensures key in buffer ==> fps == buffer[key].fingerprints
    ensures key !in buffer ==> fps == {}
  {
    if key in buffer then buffer[key].fingerprints else {}
  }

  /** Counts one query; a fingerprint beyond the cap is not recorded. */
  method Observe(entry: Observation, cost: nat, failed: bool, fingerprint: Option<nat>) returns (observed: Observation)
    requires Valid(entry)
    ensures Valid(observed) && observed.demand == SaturatingSum(entry.demand, QueryDemand(cost, failed))
    ensures CountedOnce(entry.demand, observed.demand, cost, failed)
    ensures observed.fingerprints ==
      if fingerprint.Some? && |entry.fingerprints| < MAX_FINGERPRINTS then entry.fingerprints + {fingerprint.value}
      else entry.fingerprints
    ensures observed.fingerprints == Recorded(entry.fingerprints, fingerprint)
  {
    var demand := entry.demand;
    demand := demand.(count := Min(demand.count + 1, U32_MAX));
    demand := demand.(cost := Min(demand.cost + cost, U64_MAX));
    if failed {
      demand := demand.(failed := Min(demand.failed + 1, U32_MAX));
    }
    var fingerprints := entry.fingerprints;
    if fingerprint.Some? && |fingerprints| < MAX_FINGERPRINTS {
      fingerprints := fingerprints + {fingerprint.value};
    }
    observed := Observation(demand, fingerprints);
  }

  /** One call more, its cost, and a failure exactly when it failed, each counter clipped. */
  predicate CountedOnce(before: Demand, after: Demand, cost: nat, failed: bool)
  {
    && after.count == Min(before.count + 1, U32_MAX)
    && after.cost == Min(before.cost + cost, U64_MAX)
    && (if failed then after.failed == Min(before.failed + 1, U32_MAX) else after.failed == before.failed)
  }

  type Buffer = map<Key, Observation>

  /** The demand side of a buffer; the protocol proofs speak about this part only. */
  function Demands(buffer: Buffer): (demands: map<Key, Demand>)
    ensures demands.Keys == buffer.Keys && forall k :: k in buffer ==> demands[k] == buffer[k].demand
  {
    map k | k in buffer :: buffer[k].demand
  }

  datatype Entry = Entry(key: Key, demand: Demand)

  type Entries = seq<Entry>

  /** The demand of `key` in a buffer; an absent key has none. */
  function DemandIn(demands: map<Key, Demand>, key: Key): Demand
  {
    if key in demands then demands[key] else NO_DEMAND
  }

  predicate Accepts(demands: map<Key, Demand>, key: Key, maxBuffered: nat)
  {
    key in demands || |demands| < maxBuffered
  }

  function Buffered(saturating: bool, demands: map<Key, Demand>, key: Key, query: Demand): map<Key, Demand>
  {
    demands[key := Add(saturating, DemandIn(demands, key), query)]
  }

  function Merged(saturating: bool, demands: map<Key, Demand>, e: Entry): map<Key, Demand>
  {
    demands[e.key := if e.key in demands then Add(saturating, demands[e.key], e.demand) else e.demand]
  }

  /** The buffer after the first `n` entries were merged back into it. */
  function RequeuedFirst(saturating: bool, demands: map<Key, Demand>, entries: Entries, n: nat): map<Key, Demand>
    requires n <= |entries|
  {
    if n == 0 then demands
    else Merged(saturating, RequeuedFirst(saturating, demands, entries, n - 1), entries[n - 1])
  }

  function Requeued(saturating: bool, demands: map<Key, Demand>, entries: Entries): map<Key, Demand>
  {
    RequeuedFirst(saturating, demands, entries, |entries|)
  }

  class QueryTrackerClient {
    var buffer: Buffer
    var dropped: nat
    const maxBuffered: nat

    ghost predicate Invariant()
      reads this
    {
      maxBuffered >= 1 && AllValid(buffer)
    }

    constructor (maxBufferedIdentities: nat)
      ensures Invariant() && buffer == map[] && dropped == 0
      ensures maxBuffered == Max(maxBufferedIdentities, 1)
    {
      buffer, dropped, maxBuffered := map[], 0, Max(maxBufferedIdentities, 1);
    }

    /** Folds one indexable query in; a new identity is dropped, and counted, when the buffer is full. */
    method BufferQuery(key: Key, cost: nat, failed: bool, fingerprint: Option<nat>)
      requires Invariant()
      modifies this
      ensures Invariant()
      ensures Accepts(old(Demands(buffer)), key, maxBuffered) ==>
        && dropped == old(dropped)
        && Demands(buffer) == Buffered(true, old(Demands(buffer)), key, QueryDemand(cost, failed))
        && key in buffer && buffer == old(buffer)[key := buffer[key]]
        && buffer[key].fingerprints == Recorded(old(Fingerprints(buffer, key)), fingerprint)
      ensures !Accepts(old(Demands(buffer)), key, maxBuffered) ==>
        dropped == old(dropped) + 1 && buffer == old(buffer)
      ensures dropped == old(dropped) + 1 <==> key !in old(buffer) && |old(buffer)| >= maxBuffered
      ensures dropped == old(dropped) || (dropped == old(dropped) + 1 && buffer == old(buffer))
      ensures dropped == old(dropped) ==>
        key in buffer && CountedOnce(old(DemandIn(Demands(buffer), key)), buffer[key].demand, cost, failed)
    {
      SameSize(buffer);
      if key !in buffer && |buffer| >= maxBuffered {
        dropped := dropped + 1;
        return;
      }
      var entry := if key in buffer then buffer[key] else Observation(NO_DEMAND, {});
      var observed := Observe(entry, cost, failed, fingerprint);
      DemandsUpdate(buffer, key, observed);
      buffer := buffer[key := observed];
    }

    /** Takes everything out of the buffer, and the drop counter with it. */
    method Drain() returns (taken: Buffer, droppedSince: nat)
      requires Invariant()
      modifies this
      ensures Invariant()
      ensures taken == old(buffer) && buffer == map[]
      ensures droppedSince == old(dropped) && dropped == 0
    {
      droppedSince, dropped := dropped, 0;
      taken, buffer := buffer, map[];
    }

    /** Merges unsent entries back; there is no capacity check here. */
    method RequeueEntries(entries: seq<(Key, Observation)>, orders: seq<seq<nat>>)
      requires Invariant()
      requires |orders| == |entries|
      requires forall i :: 0 <= i < |entries| ==> Valid(entries[i].1)
      requires forall i :: 0 <= i < |entries| ==> forall fp :: fp in orders[i] <==> fp in entries[i].1.fingerprints
      modifies this`buffer
      ensures Invariant()
      ensures Demands(buffer) == Requeued(true, old(Demands(buffer)), EntryDemands(entries))
      ensures MergesFirst(old(KnownIn(buffer)), EntryTags(entries), |entries|, KnownIn(buffer))
    {
      for i := 0 to |entries|
        invariant Invariant()
        invariant Demands(buffer) == RequeuedFirst(true, old(Demands(buffer)), EntryDemands(entries), i)
        invariant MergesFirst(old(KnownIn(buffer)), EntryTags(entries), i, KnownIn(buffer))
      {
        ghost var before := KnownIn(buffer);
        buffer := RequeueEntry(buffer, entries[i].0, entries[i].1, orders[i]);
        assert MergesOne(before, EntryTags(entries)[i], KnownIn(buffer));
      }
    }
  }

  predicate AllValid(buffer: Buffer)
  {
    forall k :: k in buffer ==> Valid(buffer[k])
  }

  /** Folds one entry back in. */
  method RequeueEntry(buffer: Buffer, key: Key, entry: Observation, order: seq<nat>) returns (after: Buffer)
    requires AllValid(buffer) && Valid(entry) && forall fp :: fp in order <==> fp in entry.fingerprints
    ensures AllValid(after) && key in after && after == buffer[key := after[key]]
    ensures Demands(after) == Merged(true, Demands(buffer), Entry(key, entry.demand))
    ensures MergesOne(KnownIn(buffer), Tagged(key, entry.fingerprints), KnownIn(after))
  {
    var merged := entry;
    if key in buffer {
      merged := Merge(buffer[key], entry, order);
    }
    DemandsUpdate(buffer, key, merged);
    after := buffer[key := merged];
    assert KnownIn(after) == KnownIn(buffer)[key := merged.fingerprints];
  }

  /******* The fingerprint side of a buffer *******/

  type Known = map<Key, set<nat>>

  function KnownIn(buffer: Buffer): (known: Known)
    ensures known.Keys == buffer.Keys && forall k :: k in buffer ==> known[k] == buffer[k].fingerprints
  {
    map k | k in buffer :: buffer[k].fingerprints
  }

  datatype Tagged = Tagged(key: Key, fingerprints: set<nat>)

  function EntryTags(entries: seq<(Key, Observation)>): (tags: seq<Tagged>)
    ensures |tags| == |entries|
    ensures forall i :: 0 <= i < |tags| ==> tags[i] == Tagged(entries[i].0, entries[i].1.fingerprints)
  {
    seq(|entries|, i requires 0 <= i < |entries| => Tagged(entries[i].0, entries[i].1.fingerprints))
  }

  /** `merged` is the union of the two sets, cut at the cap; nothing of the first is cut. */
  ghost predicate CutUnion(mine: set<nat>, other: set<nat>, merged: set<nat>)
  {
    && mine <= merged <= mine + other
    && |merged| == Min(MAX_FINGERPRINTS, |mine + other|)
  }

  ghost predicate MergesOne(before: Known, t: Tagged, after: Known)
  {
    && t.key in after && after == before[t.key := after[t.key]]
    && if t.key in before then CutUnion(before[t.key], t.fingerprints, after[t.key]) else after[t.key] == t.fingerprints
  }

  /** What merging the first `n` entries back may lead to: the sets are iterated in any order. */
  ghost predicate MergesFirst(before: Known, tags: seq<Tagged>, n: nat, after: Known)
    requires n <= |tags|
  {
    if n == 0 then after == before
    else
      var last := tags[n - 1];
      exists middle :: MergesFirst(before, tags, n - 1, middle) && MergesOne(middle, last, after)
  }

  /******* The chunk loop of one flush *******/

  /** The entries of the batches whose POST had the given outcome. */
  function WithOutcome(batches: seq<Entries>, ok: seq<bool>, outcome: bool): Entries
    requires |ok| == |batches|
  {
    if batches == [] then []
    else
      WithOutcome(batches[..|batches| - 1], ok[..|ok| - 1], outcome) +
      if ok[|ok| - 1] == outcome then batches[|batches| - 1] else []
  }

  /** Where the entries are after some batches: batched in order, and split by outcome without loss. */
  ghost predicate Progress(
    entries: Entries, remaining: Entries, batches: seq<Entries>, ok: seq<bool>, sent: nat, requeue: Entries)
  {
    && |ok| == |batches|
    && Concat(batches) + remaining == entries
    && requeue == WithOutcome(batches, ok, false)
    && sent == |WithOutcome(batches, ok, true)|
    && sent + |requeue| + |remaining| == |entries|
  }

  lemma ProgressStep(
    entries: Entries, remaining: Entries, batches: seq<Entries>, ok: seq<bool>, sent: nat, requeue: Entries,
    take: nat, accepted: bool)
    requires Progress(entries, remaining, batches, ok, sent, requeue)
    requires take <= |remaining|
    ensures
      var chunk := remaining[..take];
      Progress(
        entries, remaining[take..], batches + [chunk], ok + [accepted],
        if accepted then sent + take else sent, if accepted then requeue else requeue + chunk)
  {
    var chunk := remaining[..take];
    assert remaining == chunk + remaining[take..];
    ConcatAppend(batches, chunk);
    assert (batches + [chunk])[..|batches|] == batches && (ok + [accepted])[..|ok|] == ok;
  }

  ghost predicate Sized(batches: seq<Entries>, maxBatchSize: nat)
  {
    forall i :: 0 <= i < |batches| ==> 1 <= |batches[i]| <= maxBatchSize
  }

  ghost predicate Answered(ok: seq<bool>, accepted: nat -> bool)
  {
    forall i :: 0 <= i < |ok| ==> ok[i] == accepted(i)
  }

  /**
   Sends the entries in batches; `accepted(n)` is the outcome of the n-th POST. Every entry goes into
   exactly one batch of size 1 to `maxBatchSize`, and the entries of the failed batches are kept.
   */
  method SendInBatches(entries: Entries, maxBatchSize: nat, accepted: nat -> bool)
    returns (batches: seq<Entries>, ok: seq<bool>, sent: nat, requeue: Entries)
    requires maxBatchSize >= 1
    ensures Concat(batches) == entries
    ensures forall i :: 0 <= i < |batches| ==> 1 <= |batches[i]| <= maxBatchSize
    ensures |ok| == |batches| && forall i :: 0 <= i < |ok| ==> ok[i] == accepted(i)
    ensures requeue == WithOutcome(batches, ok, false)
    ensures sent == |WithOutcome(batches, ok, true)|
    ensures sent + |requeue| == |entries|
    ensures AllKept(batches, ok, requeue)
  {
    var remaining := entries;
    batches, ok, sent, requeue := [], [], 0, [];
    while remaining != []
      invariant Progress(entries, remaining, batches, ok, sent, requeue)
      invariant Sized(batches, maxBatchSize) && Answered(ok, accepted)
      decreases |remaining|
    {
      var take := Min(maxBatchSize, |remaining|);
      var chunk := remaining[..take];
      var answer := accepted(|batches|);
      ProgressStep(entries, remaining, batches, ok, sent, requeue, take, answer);
      assert Sized(batches + [chunk], maxBatchSize) && Answered(ok + [answer], accepted);
      remaining := remaining[take..];
      if answer {
        sent := sent + |chunk|;
      } else {
        requeue := requeue + chunk;
      }
      batches, ok := batches + [chunk], ok + [answer];
    }
    FailedAreKept(batches, ok);
  }

  /** How many entries the first `n` batches lost to a failed POST. */
  function FailedSize(batches: seq<Entries>, ok: seq<bool>, n: nat): nat
    requires n <= |batches| == |ok|
  {
    if n == 0 then 0 else FailedSize(batches, ok, n - 1) + if ok[n - 1] then 0 else |batches[n - 1]|
  }

  /** The entries of failed batch `i` are kept whole, after those of the failed batches before it. */
  ghost predicate KeptAt(batches: seq<Entries>, ok: seq<bool>, requeue: Entries, i: nat)
    requires i < |batches| == |ok|
  {
    var at := FailedSize(batches, ok, i);
    at + |batches[i]| <= |requeue| && requeue[at..at + |batches[i]|] == batches[i]
  }

  /** What is kept is the failed batches, whole and in order, and nothing else. */
  ghost predicate AllKept(batches: seq<Entries>, ok: seq<bool>, requeue: Entries)
    requires |ok| == |batches|
  {
    && |requeue| == FailedSize(batches, ok, |batches|)
    && forall i :: 0 <= i < |batches| && !ok[i] ==> KeptAt(batches, ok, requeue, i)
  }

  lemma {:induction false} FailedAreKept(batches: seq<Entries>, ok: seq<bool>)
    requires |ok| == |batches|
    ensures AllKept(batches, ok, WithOutcome(batches, ok, false))
  {
    if batches != [] {
      var n := |batches| - 1;
      FailedAreKept(batches[..n], ok[..n]);
      SameFailedSize(batches, ok, n, n);
      var before, after := WithOutcome(batches[..n], ok[..n], false), WithOutcome(batches, ok, false);
      forall i | 0 <= i < |batches| && !ok[i]
        ensures KeptAt(batches, ok, after, i)
      {
        KeptNext(batches, ok, n, before, after, i);
      }
    }
  }

  lemma KeptNext(batches: seq<Entries>, ok: seq<bool>, n: nat, before: Entries, after: Entries, i: nat)
    requires |ok| == |batches| == n + 1 && i <= n && !ok[i]
    requires |before| == FailedSize(batches, ok, n) && after == before + if ok[n] then [] else batches[n]
    requires i < n ==> KeptAt(batches[..n], ok[..n], before, i)
    ensures KeptAt(batches, ok, after, i)
  {
    if i < n {
      SameFailedSize(batches, ok, n, i);
    }
  }

  lemma {:induction false} SameFailedSize(batches: seq<Entries>, ok: seq<bool>, n: nat, i: nat)
    requires i <= n <= |batches| == |ok|
    ensures FailedSize(batches[..n], ok[..n], i) == FailedSize(batches, ok, i)
  {
    if i > 0 {
      SameFailedSize(batches, ok, n, i - 1);
    }
  }

  lemma SameSize(buffer: Buffer)
    ensures |Demands(buffer)| == |buffer|
  {
    assert Demands(buffer).Keys == buffer.Keys;
  }

  lemma DemandsUpdate(buffer: Buffer, key: Key, o: Observation)
    ensures Demands(buffer[key := o]) == Demands(buffer)[key := o.demand]
  {
  }

  function EntryDemands(entries: seq<(Key, Observation)>): (demands: Entries)
    ensures |demands| == |entries|
    ensures forall i :: 0 <= i < |demands| ==> demands[i] == Entry(entries[i].0, entries[i].1.demand)
  {
    seq(|entries|, i requires 0 <= i < |entries| => Entry(entries[i].0, entries[i].1.demand))
  }
}
