/**
 The fingerprints of the query buffer under concurrency: the steps of the flushing protocol, with the set of value
 fingerprints in the place of the counters. A merge iterates a hash set in any order, so its result is part of the step.
 */
module QueryFingerprints {
  import opened Basics
  import opened QueryBuffer

  datatype Flush = Idle | Sending(remaining: seq<Tagged>, requeue: seq<Tagged>)

  datatype Seen = Seen(key: Key, fingerprint: nat)

  /** `observed` logs the fingerprints of the accepted queries and `delivered` the entries of the successful batches. */
  datatype State = State(
    maxBuffered: nat, maxBatchSize: nat, buffer: Known, flush: Flush, delivered: seq<Tagged>, observed: set<Seen>)

  datatype Step =
    | Query(key: Key, fingerprint: Option<nat>)
    | BeginFlush(order: seq<Key>)
    | SendChunk(ok: bool)
    | EndFlush(merged: Known)

  ghost predicate Init(s: State)
  {
    && s.maxBuffered >= 1 && s.maxBatchSize >= 1
    && s.buffer == map[] && s.flush == Idle && s.delivered == [] && s.observed == {}
  }

  /** The keys are drained in any order. */
  ghost predicate Enumerates(order: seq<Key>, buffer: Known)
  {
    && (forall i :: 0 <= i < |order| ==> order[i] in buffer)
    && (forall k :: k in buffer ==> k in order)
  }

  ghost predicate Enabled(s: State, step: Step)
  {
    match step
    case Query(_, _) => true
    case BeginFlush(order) => s.flush.Idle? && Enumerates(order, s.buffer)
    case SendChunk(_) => s.flush.Sending? && s.flush.remaining != []
    case EndFlush(merged) =>
      s.flush.Sending? && s.flush.remaining == [] &&
      MergesFirst(s.buffer, s.flush.requeue, |s.flush.requeue|, merged)
  }

  function KnownOf(buffer: Known, key: Key): set<nat>
  {
    if key in buffer then buffer[key] else {}
  }

  function Listing(buffer: Known, order: seq<Key>): seq<Tagged>
    requires forall i :: 0 <= i < |order| ==> order[i] in buffer
  {
    seq(|order|, i requires 0 <= i < |order| => Tagged(order[i], buffer[order[i]]))
  }

  ghost function Next(s: State, step: Step): State
    requires Enabled(s, step)
  {
    match step
    case Query(key, fingerprint) =>
      if key in s.buffer || |s.buffer| < s.maxBuffered then
        s.(buffer := s.buffer[key := Recorded(KnownOf(s.buffer, key), fingerprint)],
           observed := if fingerprint.Some? then s.observed + {Seen(key, fingerprint.value)} else s.observed)
      else s
    case BeginFlush(order) =>
      s.(buffer := map[], flush := if order == [] then Idle else Sending(Listing(s.buffer, order), []))
    case SendChunk(ok) =>
      var take := Min(s.maxBatchSize, |s.flush.remaining|);
      var chunk, rest := s.flush.remaining[..take], s.flush.remaining[take..];
      if ok then s.(delivered := s.delivered + chunk, flush := Sending(rest, s.flush.requeue))
      else s.(flush := Sending(rest, s.flush.requeue + chunk))
    case EndFlush(merged) => s.(buffer := merged, flush := Idle)
  }

  ghost predicate Trace(states: seq<State>, steps: seq<Step>)
  {
    && |states| == |steps| + 1
    && Init(states[0])
    && forall i :: 0 <= i < |steps| ==> Enabled(states[i], steps[i]) && states[i + 1] == Next(states[i], steps[i])
  }

  /******* What is held of an identity *******/

  function TagsOf(tags: seq<Tagged>, key: Key): set<nat>
  {
    set i, fp | 0 <= i < |tags| && tags[i].key == key && fp in tags[i].fingerprints :: fp
  }

  function InFlight(flush: Flush): seq<Tagged>
  {
    if flush.Idle? then [] else flush.remaining + flush.requeue
  }

  /** The fingerprints of an identity that are buffered, in flight or delivered. */
  function Held(s: State, key: Key): set<nat>
  {
    KnownOf(s.buffer, key) + TagsOf(InFlight(s.flush), key) + TagsOf(s.delivered, key)
  }

  /** The fingerprints an identity was queried with. */
  function Observed(s: State, key: Key): set<nat>
  {
    set o | o in s.observed && o.key == key :: o.fingerprint
  }

  lemma TagsOfConcat(a: seq<Tagged>, b: seq<Tagged>, key: Key)
    ensures TagsOf(a + b, key) == TagsOf(a, key) + TagsOf(b, key)
  {
    forall fp | fp in TagsOf(a, key)
      ensures fp in TagsOf(a + b, key)
    {
      var i :| 0 <= i < |a| && a[i].key == key && fp in a[i].fingerprints;
      assert (a + b)[i] == a[i];
    }
    forall fp | fp in TagsOf(b, key)
      ensures fp in TagsOf(a + b, key)
    {
      var i :| 0 <= i < |b| && b[i].key == key && fp in b[i].fingerprints;
      assert (a + b)[|a| + i] == b[i];
    }
  }

  /** Nothing is invented, and something is missing only if as many as the cap allows are there. */
  ghost predicate Enough(held: set<nat>, observed: set<nat>)
  {
    held <= observed && (held == observed || |held| >= MAX_FINGERPRINTS)
  }

  lemma EnoughAtLeast(held: set<nat>, observed: set<nat>)
    requires Enough(held, observed)
    ensures |held| >= Min(MAX_FINGERPRINTS, |observed|)
    ensures |observed| <= MAX_FINGERPRINTS ==> held == observed
  {
    SubsetSize(held, observed);
  }

  lemma StepKeepsEnough(s: State, step: Step, key: Key)
    requires Enabled(s, step) && Enough(Held(s, key), Observed(s, key))
    ensures Enough(Held(Next(s, step), key), Observed(Next(s, step), key))
  {
    match step {
      case Query(_, _) => QueryKeepsEnough(s, step, key);
      case BeginFlush(order) => DrainHolds(s, order, key);
      case SendChunk(ok) => ChunkHolds(s, ok, key);
      case EndFlush(merged) => RequeueKeepsEnough(s, merged, key);
    }
  }

  lemma QueryKeepsEnough(s: State, step: Step, key: Key)
    requires step.Query? && Enough(Held(s, key), Observed(s, key))
    ensures Enough(Held(Next(s, step), key), Observed(Next(s, step), key))
  {
    if step.key == key && step.fingerprint.Some? && (key in s.buffer || |s.buffer| < s.maxBuffered) {
      var fp := step.fingerprint.value;
      ObservedOneMore(s.observed, key, fp);
      HeldAfterQuery(s, key, fp);
      EnoughOneMore(KnownOf(s.buffer, key), Held(s, key), Observed(s, key), fp);
    } else {
      OthersAreUntouched(s, step, key);
    }
  }

  lemma HeldAfterQuery(s: State, key: Key, fp: nat)
    requires key in s.buffer || |s.buffer| < s.maxBuffered
    ensures Held(Next(s, Query(key, Some(fp))), key) ==
      if |KnownOf(s.buffer, key)| < MAX_FINGERPRINTS then Held(s, key) + {fp} else Held(s, key)
  {
  }

  lemma OthersAreUntouched(s: State, step: Step, key: Key)
    requires step.Query? && Enabled(s, step)
    requires step.key != key || step.fingerprint.None? || !(key in s.buffer || |s.buffer| < s.maxBuffered)
    ensures Held(Next(s, step), key) == Held(s, key) && Observed(Next(s, step), key) == Observed(s, key)
  {
    var after := Next(s, step);
    assert KnownOf(after.buffer, key) == KnownOf(s.buffer, key);
    assert forall o | o in after.observed && o.key == key :: o in s.observed;
  }

  lemma EnoughOneMore(known: set<nat>, held: set<nat>, observed: set<nat>, fp: nat)
    requires known <= held && Enough(held, observed)
    ensures Enough(if |known| < MAX_FINGERPRINTS then held + {fp} else held, observed + {fp})
  {
    SubsetSize(known, held);
    SubsetSize(held, held + {fp});
  }

  lemma ObservedOneMore(observed: set<Seen>, key: Key, fp: nat)
    ensures (set o | o in observed + {Seen(key, fp)} && o.key == key :: o.fingerprint) ==
      (set o | o in observed && o.key == key :: o.fingerprint) + {fp}
  {
    assert Seen(key, fp) in observed + {Seen(key, fp)};
  }

  lemma DrainHolds(s: State, order: seq<Key>, key: Key)
    requires Enabled(s, BeginFlush(order))
    ensures Held(Next(s, BeginFlush(order)), key) == Held(s, key)
  {
    var listing := Listing(s.buffer, order);
    assert TagsOf([], key) == {};
    assert TagsOf(listing, key) == KnownOf(s.buffer, key) by {
      if key in s.buffer {
        var i :| 0 <= i < |order| && order[i] == key;
        assert listing[i] == Tagged(key, s.buffer[key]);
      }
    }
    assert listing + [] == listing;
  }

  lemma ChunkHolds(s: State, ok: bool, key: Key)
    requires Enabled(s, SendChunk(ok))
    ensures Held(Next(s, SendChunk(ok)), key) == Held(s, key)
  {
    var take := Min(s.maxBatchSize, |s.flush.remaining|);
    var chunk, rest := s.flush.remaining[..take], s.flush.remaining[take..];
    assert s.flush.remaining == chunk + rest;
    TagsOfConcat(chunk, rest, key);
    TagsOfConcat(s.flush.remaining, s.flush.requeue, key);
    TagsOfConcat(rest, s.flush.requeue, key);
    TagsOfConcat(rest, s.flush.requeue + chunk, key);
    TagsOfConcat(s.flush.requeue, chunk, key);
    TagsOfConcat(s.delivered, chunk, key);
  }

  /** Merging back adds only what the entries bring, and cuts only at the cap. */
  lemma {:induction false} MergedTags(before: Known, tags: seq<Tagged>, n: nat, after: Known, key: Key)
    requires n <= |tags| && MergesFirst(before, tags, n, after)
    ensures Enough(KnownOf(after, key), KnownOf(before, key) + TagsOf(tags[..n], key))
  {
    if n == 0 {
      assert TagsOf(tags[..0], key) == {};
    } else {
      var last := tags[n - 1];
      var middle :| MergesFirst(before, tags, n - 1, middle) && MergesOne(middle, last, after);
      MergedTags(before, tags, n - 1, middle, key);
      MergedOne(middle, last, after, key, KnownOf(before, key) + TagsOf(tags[..n - 1], key));
      OneMoreTag(tags, n, key, KnownOf(before, key));
    }
  }

  lemma OneMoreTag(tags: seq<Tagged>, n: nat, key: Key, base: set<nat>)
    requires 0 < n <= |tags|
    ensures base + TagsOf(tags[..n], key) == base + TagsOf(tags[..n - 1], key) + TagsOf([tags[n - 1]], key)
  {
    assert tags[..n] == tags[..n - 1] + [tags[n - 1]];
    TagsOfConcat(tags[..n - 1], [tags[n - 1]], key);
  }

  lemma MergedOne(middle: Known, t: Tagged, after: Known, key: Key, all: set<nat>)
    requires MergesOne(middle, t, after) && Enough(KnownOf(middle, key), all)
    ensures Enough(KnownOf(after, key), all + TagsOf([t], key))
  {
    var mine, merged := KnownOf(middle, key), KnownOf(after, key);
    if t.key == key {
      assert [t][0] == t;
      assert TagsOf([t], key) == t.fingerprints;
      CutIsEnough(mine, t.fingerprints, merged, all);
    } else {
      assert TagsOf([t], key) == {};
    }
  }

  lemma CutIsEnough(mine: set<nat>, other: set<nat>, merged: set<nat>, all: set<nat>)
    requires CutUnion(mine, other, merged) || (mine == {} && merged == other)
    requires Enough(mine, all)
    ensures Enough(merged, all + other)
  {
    SubsetSize(mine, merged);
    SubsetSize(merged, mine + other);
  }

  lemma RequeueKeepsEnough(s: State, merged: Known, key: Key)
    requires Enabled(s, EndFlush(merged)) && Enough(Held(s, key), Observed(s, key))
    ensures Enough(Held(Next(s, EndFlush(merged)), key), Observed(s, key))
  {
    var requeue := s.flush.requeue;
    MergedTags(s.buffer, requeue, |requeue|, merged, key);
    assert requeue[..|requeue|] == requeue && InFlight(s.flush) == requeue;
    NothingInFlight(s, merged, key);
    EnoughAfterMerge(
      KnownOf(s.buffer, key), TagsOf(requeue, key), TagsOf(s.delivered, key), KnownOf(merged, key), Observed(s, key));
  }

  lemma NothingInFlight(s: State, merged: Known, key: Key)
    requires Enabled(s, EndFlush(merged))
    ensures Held(Next(s, EndFlush(merged)), key) == KnownOf(merged, key) + TagsOf(s.delivered, key)
  {
    assert TagsOf([], key) == {};
  }

  lemma EnoughAfterMerge(
    buffered: set<nat>, requeued: set<nat>, delivered: set<nat>, merged: set<nat>, observed: set<nat>)
    requires Enough(buffered + requeued + delivered, observed) && Enough(merged, buffered + requeued)
    ensures Enough(merged + delivered, observed)
  {
    SubsetSize(merged, merged + delivered);
  }

  /******* Over all runs *******/

  lemma {:induction false} TraceKeepsEnough(states: seq<State>, steps: seq<Step>, n: nat, key: Key)
    requires Trace(states, steps) && n < |states|
    ensures Enough(Held(states[n], key), Observed(states[n], key))
  {
    if n == 0 {
      assert Held(states[0], key) == {} && Observed(states[0], key) == {};
    } else {
      TraceKeepsEnough(states, steps, n - 1, key);
      StepKeepsEnough(states[n - 1], steps[n - 1], key);
    }
  }

  /**
   In every state of every interleaving: no fingerprint is buffered, in flight or delivered that was not observed; an
   identity keeps as many as were observed, up to the cap; and none is lost of an identity with no more than that.
   */
  lemma FingerprintsAreKept(states: seq<State>, steps: seq<Step>, n: nat, key: Key)
    requires Trace(states, steps) && n < |states|
    ensures Held(states[n], key) <= Observed(states[n], key)
    ensures |Held(states[n], key)| >= Min(MAX_FINGERPRINTS, |Observed(states[n], key)|)
    ensures |Observed(states[n], key)| <= MAX_FINGERPRINTS ==> Held(states[n], key) == Observed(states[n], key)
  {
    TraceKeepsEnough(states, steps, n, key);
    EnoughAtLeast(Held(states[n], key), Observed(states[n], key));
  }

  /** A POST that succeeds delivers its entries, and one that fails keeps them; an empty buffer starts no cycle. */
  lemma ChunkIsDeliveredIff(states: seq<State>, steps: seq<Step>, n: nat)
    requires Trace(states, steps) && n < |steps|
    ensures steps[n].SendChunk? ==> states[n].flush.Sending? && states[n + 1].flush.Sending?
    ensures steps[n].SendChunk? ==> var s, t := states[n], states[n + 1];
      var chunk := s.flush.remaining[..Min(s.maxBatchSize, |s.flush.remaining|)];
      && chunk + t.flush.remaining == s.flush.remaining
      && t.delivered == s.delivered + (if steps[n].ok then chunk else [])
      && t.flush.requeue == s.flush.requeue + (if steps[n].ok then [] else chunk)
    ensures steps[n] == BeginFlush([]) ==> states[n + 1] == states[n]
  {
    assert states[n + 1] == Next(states[n], steps[n]);
    if steps[n] == BeginFlush([]) {
      assert states[n].buffer == map[];
    }
  }

  /******* No entry exceeds the cap *******/

  ghost predicate AllCapped(tags: seq<Tagged>)
  {
    forall i :: 0 <= i < |tags| ==> |tags[i].fingerprints| <= MAX_FINGERPRINTS
  }

  ghost predicate BufferCapped(buffer: Known)
  {
    forall k :: k in buffer ==> |buffer[k]| <= MAX_FINGERPRINTS
  }

  ghost predicate Capped(s: State)
  {
    BufferCapped(s.buffer) && AllCapped(InFlight(s.flush)) && AllCapped(s.delivered)
  }

  lemma {:induction false} MergedIsCapped(before: Known, tags: seq<Tagged>, n: nat, after: Known)
    requires n <= |tags| && MergesFirst(before, tags, n, after) && BufferCapped(before) && AllCapped(tags)
    ensures BufferCapped(after)
  {
    if n > 0 {
      var last := tags[n - 1];
      var middle :| MergesFirst(before, tags, n - 1, middle) && MergesOne(middle, last, after);
      MergedIsCapped(before, tags, n - 1, middle);
    }
  }

  lemma StepKeepsCapped(s: State, step: Step)
    requires Enabled(s, step) && Capped(s)
    ensures Capped(Next(s, step))
  {
    match step {
      case Query(key, fingerprint) =>
      case BeginFlush(order) =>
        assert InFlight(Next(s, step).flush) == Listing(s.buffer, order);
      case SendChunk(ok) => ChunkIsCapped(s, ok);
      case EndFlush(merged) =>
        assert s.flush.remaining + s.flush.requeue == s.flush.requeue;
        MergedIsCapped(s.buffer, s.flush.requeue, |s.flush.requeue|, merged);
    }
  }

  lemma ChunkIsCapped(s: State, ok: bool)
    requires Enabled(s, SendChunk(ok)) && Capped(s)
    ensures Capped(Next(s, SendChunk(ok)))
  {
    var remaining, requeue := s.flush.remaining, s.flush.requeue;
    assert forall i :: 0 <= i < |remaining| ==> (remaining + requeue)[i] == remaining[i];
    assert forall i :: 0 <= i < |requeue| ==> (remaining + requeue)[|remaining| + i] == requeue[i];
    assert AllCapped(remaining) && AllCapped(requeue);
  }

  /** A buffered, in-flight or delivered entry never carries more fingerprints than the cap. */
  lemma {:induction false} EntriesAreCapped(states: seq<State>, steps: seq<Step>, n: nat)
    requires Trace(states, steps) && n < |states|
    ensures Capped(states[n])
  {
    if n > 0 {
      EntriesAreCapped(states, steps, n - 1);
      StepKeepsCapped(states[n - 1], steps[n - 1]);
    }
  }

  /******* Beyond the cap *******/

  predicate IsBelow(fp: nat, n: nat)
  {
    fp < n
  }

  ghost function Below(n: nat): set<nat>
  {
    set fp: nat | fp < n && IsBelow(fp, n)
  }

  lemma {:induction false} BelowSize(n: nat)
    ensures |Below(n)| == n
  {
    if n == 0 {
      assert Below(0) == {};
    } else {
      BelowSize(n - 1);
      assert Below(n) == Below(n - 1) + {n - 1};
    }
  }

  /** One identity was queried with the fingerprints 0, 1, .. below `n`, and nothing was flushed. */
  ghost function QueriedState(n: nat, key: Key): State
  {
    State(
      1, 1, if n == 0 then map[] else map[key := Below(Min(n, MAX_FINGERPRINTS))], Idle, [],
      SeenBelow(n, key))
  }

  ghost function SeenBelow(n: nat, key: Key): set<Seen>
  {
    set fp | fp in Below(n) :: Seen(key, fp)
  }

  lemma SeenNext(n: nat, key: Key)
    ensures SeenBelow(n + 1, key) == SeenBelow(n, key) + {Seen(key, n)}
  {
    forall o | o in SeenBelow(n, key)
      ensures o in SeenBelow(n + 1, key)
    {
      assert o.fingerprint in Below(n + 1);
    }
    assert n in Below(n + 1);
  }

  lemma SeenIsObserved(s: State, n: nat, key: Key)
    requires s.observed == SeenBelow(n, key)
    ensures Observed(s, key) == Below(n)
  {
    forall fp | fp in Below(n)
      ensures fp in Observed(s, key)
    {
      assert Seen(key, fp) in s.observed;
    }
  }

  lemma QueriedNext(n: nat, key: Key)
    ensures Next(QueriedState(n, key), Query(key, Some(n))) == QueriedState(n + 1, key)
  {
    SeenNext(n, key);
    RecordedBelow(n + 1);
    assert n == 0 ==> Below(Min(n, MAX_FINGERPRINTS)) == {};
  }

  lemma QueriedTrace(n: nat, key: Key) returns (states: seq<State>, steps: seq<Step>)
    ensures Trace(states, steps) && |steps| == n && states[n] == QueriedState(n, key)
  {
    states := seq(n + 1, i requires 0 <= i <= n => QueriedState(i, key));
    steps := seq(n, i requires 0 <= i < n => Query(key, Some(i)));
    forall i | 0 <= i < |steps|
      ensures Enabled(states[i], steps[i]) && states[i + 1] == Next(states[i], steps[i])
    {
      QueriedNext(i, key);
    }
    assert states[0].observed == {};
  }

  lemma RecordedBelow(n: nat)
    requires n >= 1
    ensures Recorded(Below(Min(n - 1, MAX_FINGERPRINTS)), Some(n - 1)) == Below(Min(n, MAX_FINGERPRINTS))
  {
    BelowSize(Min(n - 1, MAX_FINGERPRINTS));
  }

  /** The bound is exact: for any number of fingerprints beyond the cap some run keeps only as many as the cap. */
  lemma OnlyTheCapIsKept(n: nat, key: Key) returns (states: seq<State>, steps: seq<Step>)
    requires n >= MAX_FINGERPRINTS
    ensures Trace(states, steps) && |steps| == n
    ensures |Observed(states[n], key)| == n && |Held(states[n], key)| == MAX_FINGERPRINTS
  {
    states, steps := QueriedTrace(n, key);
    BelowSize(n);
    BelowSize(MAX_FINGERPRINTS);
    SeenIsObserved(states[n], n, key);
    assert TagsOf([], key) == {};
    assert Held(states[n], key) == Below(MAX_FINGERPRINTS);
  }
}
