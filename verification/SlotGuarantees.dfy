/** What every run of the slot publication protocol guarantees to a reader of the API. */
module SlotGuarantees {
  import opened Basics
  import opened SlotRows
  import opened SlotPublication

  function CachedFor(data: SyncData, c: int): SlotData
  {
    if c == CONFIRMED then data.confirmed else data.finalized
  }

  predicate IsSlotRow(c: int)
  {
    c == CONFIRMED || c == FINALIZED
  }

  /******* Cached slots follow the deliveries *******/

  /** No reachable state is a panic: neither an unknown commitment nor a missing blockhash can arrive. */
  lemma NeverPanics(s: State)
    requires Reachable(s)
    ensures !s.stage.Panicked?
  {
    ReachableKeepsInv(s);
  }

  /** A cached slot is the largest one delivered, and is never ahead of the table. */
  lemma CachedSlotIsMaxAndInTable(s: State, c: int)
    requires Reachable(s) && IsSlotRow(c)
    ensures IsMaxDelivered(s.applied, c, CachedFor(s.data, c).slot)
    ensures CachedFor(s.data, c).slot > 0 ==> c in s.table && CachedFor(s.data, c).slot <= s.table[c].slot
  {
    ReachableKeepsInv(s);
    CachedIsMax(s.applied, c);
    if CachedFor(s.data, c).slot > 0 {
      var i :| 0 <= i < |s.applied| && s.applied[i].commitment == c && s.applied[i].slot == CachedFor(s.data, c).slot;
      assert s.sent[i] == s.applied[i];
    }
  }

  lemma CachedSlotsNeverDecrease(s: State, step: Step, c: int)
    requires Enabled(s, step) && IsSlotRow(c)
    ensures CachedFor(Next(s, step).data, c).slot >= CachedFor(s.data, c).slot
  {
  }

  /** Over a whole run, whatever happens in between. */
  lemma {:induction false} SlotsGrowAlongTheRun(states: seq<State>, steps: seq<Step>, i: nat, j: nat, c: int)
    requires Trace(states, steps) && i <= j < |states| && IsSlotRow(c)
    ensures CachedFor(states[i].data, c).slot <= CachedFor(states[j].data, c).slot
    decreases j
  {
    if i < j {
      SlotsGrowAlongTheRun(states, steps, i, j - 1, c);
      CachedSlotsNeverDecrease(states[j - 1], steps[j - 1], c);
    }
  }

  /******* Agreement with the table once the queue is drained *******/

  ghost predicate Drained(s: State)
  {
    s.stage.Waiting? && s.queue == []
  }

  /** The row was notified since the listener started. */
  ghost predicate Notified(s: State, c: int)
  {
    exists i :: 0 <= i < |s.sent| && s.sent[i].commitment == c
  }

  lemma {:induction false} LastNotification(rows: seq<SlotRow>, i: nat) returns (k: nat)
    requires i < |rows|
    ensures k < |rows| && rows[k].commitment == rows[i].commitment && IsLast(rows, k)
    decreases |rows| - i
  {
    if IsLast(rows, i) {
      k := i;
    } else {
      var j :| i < j < |rows| && rows[j].commitment == rows[i].commitment;
      k := LastNotification(rows, j);
    }
  }

  ghost predicate IsSource(rows: seq<SlotRow>, c: int, i: int, cached: SlotData)
  {
    0 <= i < |rows| && rows[i].commitment == c && SlotData(rows[i].slot, rows[i].blockTime) == cached
  }

  /** The row a cached slot came from. */
  lemma {:induction false} CachedSource(rows: seq<SlotRow>, c: int)
    ensures Cached(rows, c).slot == 0 ==> Cached(rows, c).blockTime == 0
    ensures Cached(rows, c).slot > 0 ==> exists i :: IsSource(rows, c, i, Cached(rows, c))
  {
    if rows != [] {
      var before, last := rows[..|rows| - 1], rows[|rows| - 1];
      CachedSource(before, c);
      if last.commitment == c && Advances(Cached(before, c), last) {
        assert IsSource(rows, c, |rows| - 1, Cached(rows, c));
      } else if Cached(before, c).slot > 0 {
        var i :| IsSource(before, c, i, Cached(before, c));
        assert IsSource(rows, c, i, Cached(rows, c));
      }
    }
  }

  lemma LastRowIsCached(rows: seq<SlotRow>, k: nat)
    requires Ordered(rows) && k < |rows| && IsLast(rows, k)
    ensures
      var cached := Cached(rows, rows[k].commitment);
      && cached.slot == rows[k].slot
      && cached.blockTime == if rows[k].slot > 0 then rows[k].blockTime else 0
  {
    var c := rows[k].commitment;
    CachedIsMax(rows, c);
    CachedSource(rows, c);
    if Cached(rows, c).slot > 0 {
      var i :| IsSource(rows, c, i, Cached(rows, c));
      assert i <= k;
      assert i < k ==> Precedes(rows[i], rows[k]);
    }
  }

  /**
   Once every notification is applied, slot and block time equal the table for every row notified since
   listening began. The one gap is a row at slot 0: its block time stays unread.
   */
  lemma DrainedSlotsAgree(s: State, c: int)
    requires Reachable(s) && Drained(s) && IsSlotRow(c) && Notified(s, c)
    ensures c in s.table
    ensures CachedFor(s.data, c).slot == s.table[c].slot
    ensures CachedFor(s.data, c).blockTime == s.table[c].blockTime <==> s.table[c].slot > 0 || s.table[c].blockTime == 0
  {
    ReachableKeepsInv(s);
    assert s.applied == s.sent;
    var i :| 0 <= i < |s.sent| && s.sent[i].commitment == c;
    var k := LastNotification(s.sent, i);
    LastRowIsCached(s.sent, k);
  }

  lemma {:induction false} NothingDelivered(rows: seq<SlotRow>, c: int)
    requires forall i :: 0 <= i < |rows| ==> rows[i].commitment != c
    ensures Cached(rows, c) == SlotData(0, 0)
  {
    if rows != [] {
      NothingDelivered(rows[..|rows| - 1], c);
    }
  }

  /** A row not notified since listening began reads as slot 0, whatever the table holds. */
  lemma UnnotifiedRowReadsZero(s: State, c: int)
    requires Reachable(s) && IsSlotRow(c) && !Notified(s, c)
    ensures CachedFor(s.data, c) == SlotData(0, 0)
  {
    ReachableKeepsInv(s);
    assert forall i :: 0 <= i < |s.applied| ==> s.applied[i] == s.sent[i];
    NothingDelivered(s.applied, c);
  }

  /** The health seen by readers is the health of the row that changed last. */
  lemma DrainedHealthAgrees(s: State)
    requires Reachable(s) && Drained(s) && s.sent != []
    ensures
      var c := s.sent[|s.sent| - 1].commitment;
      c in s.table && s.data.healthy == s.table[c].health
  {
    ReachableKeepsInv(s);
    assert s.applied == s.sent;
    assert IsLast(s.sent, |s.sent| - 1);
  }

  ghost predicate UniformHealth(table: Table)
  {
    forall b, c :: b in table && c in table ==> table[b].health == table[c].health
  }

  /** Inserted rows carry the health the table already shows. */
  ghost predicate CarriesHealth(s: State, step: Step)
  {
    step.Insert? ==> forall c :: c in s.table ==> s.table[c].health == step.row.health
  }

  lemma {:induction false} HealthStaysUniform(states: seq<State>, steps: seq<Step>, i: nat)
    requires Trace(states, steps) && i < |states|
    requires UniformHealth(states[0].table)
    requires forall n :: 0 <= n < |steps| ==> CarriesHealth(states[n], steps[n])
    ensures UniformHealth(states[i].table)
  {
    if i > 0 {
      HealthStaysUniform(states, steps, i - 1);
      var before, step := states[i - 1], steps[i - 1];
      assert states[i] == Next(before, step);
      if step.Insert? {
        assert CarriesHealth(before, step);
      }
    }
  }

  /******* The mint cache is fed before the slot is published *******/

  function LastFed(fed: seq<Feed>): nat
  {
    if fed == [] then 0 else fed[|fed| - 1].slot
  }

  /** In every reachable state the confirmed slot a reader can pick has been passed to `on_confirmed`. */
  lemma FedBeforePublished(s: State)
    requires Reachable(s) && s.mintCache
    ensures s.data.confirmed.slot <= LastFed(s.fed)
    ensures s.data.confirmed.slot > 0 ==> exists i :: 0 <= i < |s.fed| && s.fed[i].slot == s.data.confirmed.slot
  {
    ReachableKeepsInv(s);
    AdvancesIncrease(s.applied);
    var advances := AdvanceRows(s.applied);
    if s.data.confirmed.slot > 0 {
      assert s.fed[|advances| - 1].slot == FedRows(s)[|advances| - 1].slot == s.data.confirmed.slot;
    }
  }

  /**
   The slots passed to `on_confirmed` are strictly increasing; they are the confirmed advances, with at
   most one more that is about to be stored.
   */
  lemma FedSequence(s: State)
    requires Reachable(s) && s.mintCache
    ensures forall i, j :: 0 <= i < j < |s.fed| ==> s.fed[i].slot < s.fed[j].slot
    ensures |AdvanceRows(s.applied)| <= |s.fed| <= |AdvanceRows(s.applied)| + 1
    ensures forall i :: 0 <= i < |AdvanceRows(s.applied)| ==> var row := AdvanceRows(s.applied)[i];
      s.fed[i] == Feed(row.slot, row.blockhash, row.health)
  {
    ReachableKeepsInv(s);
    AdvancesIncrease(s.applied);
    if s.stage.Fed? && ConfirmedAdvance(s.data, s.stage.row) {
      IncreaseOneMore(AdvanceRows(s.applied), s.stage.row);
    } else {
      assert FedRows(s) == AdvanceRows(s.applied);
    }
    assert StrictlyIncreasing(FedRows(s));
  }

  /**
   The anchors are the confirmed advances, strictly increasing, with at most the last one still to be
   published, and each carries the blockhash of its own row.
   */
  lemma AnchorSequence(s: State)
    requires Reachable(s) && s.anchoring
    ensures forall i, j :: 0 <= i < j < |s.anchors| ==> s.anchors[i].slot < s.anchors[j].slot
    ensures |s.anchors| <= |AdvanceRows(s.applied)| <= |s.anchors| + 1
    ensures forall i :: 0 <= i < |s.anchors| ==>
      && s.anchors[i].slot == AdvanceRows(s.applied)[i].slot
      && Some(s.anchors[i].blockhash) == AdvanceRows(s.applied)[i].blockhash
  {
    ReachableKeepsInv(s);
    AdvancesIncrease(s.applied);
    assert forall i :: 0 <= i < |AnchoredRows(s)| ==> AnchoredRows(s)[i] == AdvanceRows(s.applied)[i];
  }

  /** An anchor is never published for a slot the mint cache was not fed, and lags it by at most one. */
  lemma AnchorsFollowFeeds(s: State)
    requires Reachable(s) && s.mintCache && s.anchoring
    ensures |s.anchors| <= |s.fed| <= |s.anchors| + 1
    ensures forall i :: 0 <= i < |s.anchors| ==>
      s.anchors[i].slot == s.fed[i].slot && Some(s.anchors[i].blockhash) == s.fed[i].blockhash
  {
    FedSequence(s);
    AnchorSequence(s);
    ReachableKeepsInv(s);
  }

  /******* The two branches of the slot lookup *******/

  datatype CommitmentLevel = Processed | Confirmed | Finalized

  datatype RpcError = NodeUnhealthy | InternalError

  function Code(level: CommitmentLevel): int
  {
    match level
    case Processed => 0
    case Confirmed => CONFIRMED
    case Finalized => FINALIZED
  }

  function LatestInMemory(data: SyncData, level: CommitmentLevel): Result<(nat, int), RpcError>
  {
    if !data.healthy then Failure(NodeUnhealthy)
    else if level.Finalized? then Success((data.finalized.slot, data.finalized.blockTime))
    else Success((data.confirmed.slot, data.confirmed.blockTime))
  }

  function LatestInTable(table: Table, level: CommitmentLevel): Result<(nat, int), RpcError>
  {
    var c := Code(level);
    if c !in table then Failure(InternalError)
    else if !table[c].health then Failure(NodeUnhealthy)
    else Success((table[c].slot, table[c].blockTime))
  }

  /** Both branches refuse when the node is unhealthy, and the table also when it has no row; nothing else fails. */
  lemma LookupFailsIff(data: SyncData, table: Table, level: CommitmentLevel)
    ensures LatestInMemory(data, level).Failure? <==> !data.healthy
    ensures !data.healthy ==> LatestInMemory(data, level) == Failure(NodeUnhealthy)
    ensures LatestInTable(table, level) == Failure(InternalError) <==> Code(level) !in table
    ensures LatestInTable(table, level) == Failure(NodeUnhealthy) <==>
      Code(level) in table && !table[Code(level)].health
  {
  }

  /** After the health write reported the node unhealthy and was delivered, every lookup that has a row is refused. */
  lemma UnhealthyNodeIsRefused(s: State, level: CommitmentLevel)
    requires Reachable(s) && Drained(s) && s.sent != []
    requires forall c :: c in s.table ==> !s.table[c].health
    ensures LatestInMemory(s.data, level) == Failure(NodeUnhealthy)
    ensures Code(level) in s.table ==> LatestInTable(s.table, level) == Failure(NodeUnhealthy)
  {
    DrainedHealthAgrees(s);
  }

  /** The row that changed last. */
  ghost function LastChanged(s: State): int
    requires s.sent != []
  {
    s.sent[|s.sent| - 1].commitment
  }

  /**
   When the two branches agree on a notified row, for every drained state: the row that changed last has the health
   of the row asked for and, when that is healthy, its block time was read.
   */
  lemma BranchesAgreeExactly(s: State, level: CommitmentLevel)
    requires Reachable(s) && Drained(s) && !level.Processed? && Notified(s, Code(level))
    ensures s.sent != [] && LastChanged(s) in s.table && Code(level) in s.table
    ensures LatestInMemory(s.data, level) == LatestInTable(s.table, level) <==>
      var row := s.table[Code(level)];
      && s.table[LastChanged(s)].health == row.health
      && (row.health ==> row.slot > 0 || row.blockTime == 0)
  {
    DrainedSlotsAgree(s, Code(level));
    DrainedHealthAgrees(s);
  }

  /** A finalized row inserted at slot 0 with a block time: once delivered, memory answers with block time 0. */
  lemma SlotZeroIsNotRead(blockTime: int) returns (s: State)
    requires blockTime != 0
    ensures Reachable(s) && Drained(s) && Notified(s, FINALIZED)
    ensures LatestInTable(s.table, Finalized) == Success((0, blockTime))
    ensures LatestInMemory(s.data, Finalized) == Success((0, 0))
  {
    var row := SlotRow(FINALIZED, 0, blockTime, true, None);
    var s0 := State(false, false, map[], [], [], Waiting, UNSYNCED, [], [], []);
    var s1 := Next(s0, Insert(row));
    var s2 := Next(s1, Receive);
    var s3 := Next(s2, FeedCache);
    var s4 := Next(s3, Store);
    s := Next(s4, PublishAnchor);
    var states, steps := [s0, s1, s2, s3, s4, s], [Insert(row), Receive, FeedCache, Store, PublishAnchor];
    assert Trace(states, steps) && states[|steps|] == s;
    assert s.sent == [row] && s.sent[0].commitment == FINALIZED;
  }

  ghost predicate PositiveSlots(table: Table)
  {
    forall c :: c in table ==> table[c].slot > 0
  }

  lemma {:induction false} SlotsStayPositive(states: seq<State>, steps: seq<Step>, i: nat)
    requires Trace(states, steps) && i < |states|
    requires PositiveSlots(states[0].table)
    requires forall n :: 0 <= n < |steps| && steps[n].Insert? ==> steps[n].row.slot > 0
    ensures PositiveSlots(states[i].table)
  {
    if i > 0 {
      SlotsStayPositive(states, steps, i - 1);
      assert states[i] == Next(states[i - 1], steps[i - 1]);
    }
  }

  /**
   The agreement the program relies on, after any run of writes: when inserted rows have a positive slot and
   carry the health the table shows, both branches give the same answer whenever the queue is drained.
   */
  lemma BranchesAgreeAlongTheRun(states: seq<State>, steps: seq<Step>, i: nat, level: CommitmentLevel)
    requires Trace(states, steps) && i < |states|
    requires UniformHealth(states[0].table) && PositiveSlots(states[0].table)
    requires forall n :: 0 <= n < |steps| ==> CarriesHealth(states[n], steps[n])
    requires forall n :: 0 <= n < |steps| && steps[n].Insert? ==> steps[n].row.slot > 0
    requires Drained(states[i]) && !level.Processed? && Notified(states[i], Code(level))
    ensures LatestInMemory(states[i].data, level) == LatestInTable(states[i].table, level)
  {
    PrefixIsReachable(states, steps, i);
    SlotsStayPositive(states, steps, i);
    HealthStaysUniform(states, steps, i);
    BranchesAgreeExactly(states[i], level);
    DrainedHealthAgrees(states[i]);
  }

  lemma PrefixIsReachable(states: seq<State>, steps: seq<Step>, i: nat)
    requires Trace(states, steps) && i < |states|
    ensures Reachable(states[i])
  {
    assert Trace(states[..i + 1], steps[..i]) && states[..i + 1][|steps[..i]|] == states[i];
  }

  /** `Processed` is served from the confirmed slot in memory, while the table never has such a row. */
  lemma ProcessedHasNoRow(s: State)
    requires Reachable(s)
    ensures LatestInTable(s.table, Processed) == Failure(InternalError)
    ensures LatestInMemory(s.data, Processed) == LatestInMemory(s.data, Confirmed)
  {
    ReachableKeepsInv(s);
  }
}
