/**
 The slot publication protocol as a step relation: the indexer writes `slots`, the trigger queues
 notifications, and the API listener takes them one by one. The listener feeds the mint cache, writes
 the in-memory slots and publishes the anchor in three separate steps, and a reader may look between
 any two of them.
 */
module SlotPublication {
  import opened Basics
  import opened SlotRows

  datatype Stage =
    | Waiting
    | Received(row: SlotRow)
    | Fed(row: SlotRow)
    | Stored(row: SlotRow, advanced: bool)
    | Panicked

  /** `sent`, `applied`, `fed` and `anchors` record the whole run since the listener started. */
  datatype State = State(
    mintCache: bool, anchoring: bool,
    table: Table, sent: seq<SlotRow>, queue: seq<SlotRow>,
    stage: Stage, data: SyncData, applied: seq<SlotRow>, fed: seq<Feed>, anchors: seq<Anchor>)

  datatype Step =
    | Insert(row: SlotRow)
    | WriteHealth(health: bool, order: seq<int>)
    | Receive
    | FeedCache
    | Store
    | PublishAnchor

  /** What the two callers of `insert_slot` pass: the confirmed row carries its blockhash. */
  predicate Written(row: SlotRow)
  {
    KnownCommitment(row) && (row.commitment == CONFIRMED ==> row.blockhash.Some?)
  }

  predicate TableWritten(table: Table)
  {
    forall c :: c in table ==> table[c].commitment == c && Written(table[c])
  }

  ghost predicate Init(s: State)
  {
    && TableWritten(s.table)
    && s.sent == [] && s.queue == [] && s.applied == [] && s.fed == [] && s.anchors == []
    && s.stage == Waiting && s.data == UNSYNCED
  }

  ghost predicate Enabled(s: State, step: Step)
  {
    && !s.stage.Panicked?
    && match step
       case Insert(row) => Written(row)
       case WriteHealth(_, order) => RowOrder(s.table, order)
       case Receive => s.stage.Waiting? && s.queue != []
       case FeedCache => s.stage.Received?
       case Store => s.stage.Fed?
       case PublishAnchor => s.stage.Stored?
  }

  ghost function Next(s: State, step: Step): State
    requires Enabled(s, step)
  {
    match step
    case Insert(row) =>
      var notes := UpsertNotes(s.table, row);
      s.(table := Upserted(s.table, row), sent := s.sent + notes, queue := s.queue + notes)
    case WriteHealth(health, order) =>
      var notes := HealthNotes(s.table, health, order, |order|);
      s.(table := WithHealth(s.table, health), sent := s.sent + notes, queue := s.queue + notes)
    case Receive => s.(stage := Received(s.queue[0]), queue := s.queue[1..])
    case FeedCache =>
      var row := s.stage.row;
      s.(stage := Fed(row),
         fed := s.fed + if s.mintCache && ConfirmedAdvance(s.data, row) then [FeedOf(row)] else [])
    case Store =>
      var row := s.stage.row;
      if !KnownCommitment(row) then s.(stage := Panicked)
      else s.(
        stage := Stored(row, ConfirmedAdvance(s.data, row)),
        data := Applied(s.data, row), applied := s.applied + [row])
    case PublishAnchor =>
      var row := s.stage.row;
      if !(s.anchoring && s.stage.advanced) then s.(stage := Waiting)
      else if row.blockhash.None? then s.(stage := Panicked)
      else s.(stage := Waiting, anchors := s.anchors + [Anchor(row.slot, row.blockhash.value)])
  }

  /** The three listener steps, run without interruption, do what one call of `SlotSyncronizer.Handle` does. */
  lemma IterationIsHandle(s: State)
    requires s.stage.Received? && KnownCommitment(s.stage.row)
    requires s.anchoring && ConfirmedAdvance(s.data, s.stage.row) ==> s.stage.row.blockhash.Some?
    ensures
      var row, done := s.stage.row, Next(Next(Next(s, FeedCache), Store), PublishAnchor);
      var advance := ConfirmedAdvance(s.data, row);
      && done.stage.Waiting?
      && done.data == Applied(s.data, row)
      && done.fed == s.fed + (if s.mintCache && advance then [FeedOf(row)] else [])
      && done.anchors == s.anchors + (if s.anchoring && advance then [Anchor(row.slot, row.blockhash.value)] else [])
  {
    var stored := Next(Next(s, FeedCache), Store);
    assert stored.stage == Stored(s.stage.row, ConfirmedAdvance(s.data, s.stage.row));
    assert stored.anchors == s.anchors + [];
  }

  ghost predicate Trace(states: seq<State>, steps: seq<Step>)
  {
    && |states| == |steps| + 1
    && Init(states[0])
    && forall i :: 0 <= i < |steps| ==> Enabled(states[i], steps[i]) && states[i + 1] == Next(states[i], steps[i])
  }

  ghost predicate Reachable(s: State)
  {
    exists states, steps :: Trace(states, steps) && states[|steps|] == s
  }

  /******* What a sequence of delivered rows amounts to *******/

  function Cached(rows: seq<SlotRow>, c: int): SlotData
  {
    if rows == [] then SlotData(0, 0)
    else
      var before, last := Cached(rows[..|rows| - 1], c), rows[|rows| - 1];
      if last.commitment == c then Advanced(before, last) else before
  }

  function View(rows: seq<SlotRow>): SyncData
  {
    SyncData(Cached(rows, CONFIRMED), Cached(rows, FINALIZED), rows != [] && rows[|rows| - 1].health)
  }

  /** The confirmed rows that moved the confirmed slot forward, in order. */
  function AdvanceRows(rows: seq<SlotRow>): (r: seq<SlotRow>)
    ensures forall i :: 0 <= i < |r| ==> r[i] in rows && r[i].commitment == CONFIRMED
  {
    if rows == [] then []
    else
      var before, last := rows[..|rows| - 1], rows[|rows| - 1];
      AdvanceRows(before) + if ConfirmedAdvance(View(before), last) then [last] else []
  }

  /** `slot` is the largest slot delivered for `c`, or 0 when none was. */
  ghost predicate IsMaxDelivered(rows: seq<SlotRow>, c: int, slot: nat)
  {
    && (forall i :: 0 <= i < |rows| && rows[i].commitment == c ==> rows[i].slot <= slot)
    && (slot == 0 || exists i :: 0 <= i < |rows| && rows[i].commitment == c && rows[i].slot == slot)
  }

  lemma {:induction false} CachedIsMax(rows: seq<SlotRow>, c: int)
    ensures IsMaxDelivered(rows, c, Cached(rows, c).slot)
  {
    if rows != [] {
      var before, last := rows[..|rows| - 1], rows[|rows| - 1];
      CachedIsMax(before, c);
      if last.commitment == c && Advances(Cached(before, c), last) {
        assert rows[|rows| - 1].slot == Cached(rows, c).slot;
      } else if Cached(before, c).slot != 0 {
        var i :| 0 <= i < |before| && before[i].commitment == c && before[i].slot == Cached(before, c).slot;
        assert rows[i] == before[i];
      }
    }
  }

  ghost predicate StrictlyIncreasing(rows: seq<SlotRow>)
  {
    forall i, j :: 0 <= i < j < |rows| ==> rows[i].slot < rows[j].slot
  }

  lemma IncreaseOneMore(rows: seq<SlotRow>, row: SlotRow)
    requires StrictlyIncreasing(rows)
    requires LastSlot(rows) < row.slot
    ensures StrictlyIncreasing(rows + [row])
  {
    forall i | 0 <= i < |rows|
      ensures rows[i].slot < row.slot
    {
      assert i == |rows| - 1 || rows[i].slot < rows[|rows| - 1].slot;
    }
  }

  /** The advances have strictly increasing slots and end at the cached confirmed slot. */
  lemma {:induction false} AdvancesIncrease(rows: seq<SlotRow>)
    ensures StrictlyIncreasing(AdvanceRows(rows))
    ensures Cached(rows, CONFIRMED).slot == LastSlot(AdvanceRows(rows))
  {
    if rows != [] {
      var before, last := rows[..|rows| - 1], rows[|rows| - 1];
      AdvancesIncrease(before);
      if ConfirmedAdvance(View(before), last) {
        IncreaseOneMore(AdvanceRows(before), last);
      } else {
        assert AdvanceRows(rows) == AdvanceRows(before);
      }
    }
  }

  function LastSlot(rows: seq<SlotRow>): nat
  {
    if rows == [] then 0 else rows[|rows| - 1].slot
  }

  /******* The order in which a row changes *******/

  /** Between two values of one row the slot grows, or only the health may differ. */
  predicate Precedes(a: SlotRow, b: SlotRow)
  {
    a.slot < b.slot || (a.slot == b.slot && a.blockTime == b.blockTime && a.blockhash == b.blockhash)
  }

  ghost predicate Ordered(rows: seq<SlotRow>)
  {
    forall i, j :: 0 <= i < j < |rows| && rows[i].commitment == rows[j].commitment ==> Precedes(rows[i], rows[j])
  }

  /** Each row the notifications name is at or past every one of them, and is the last one. */
  ghost predicate Mirrors(sent: seq<SlotRow>, table: Table)
  {
    && (forall i :: 0 <= i < |sent| ==>
      && Written(sent[i]) && sent[i].commitment in table && Precedes(sent[i], table[sent[i].commitment]))
    && (forall i :: 0 <= i < |sent| && IsLast(sent, i) ==> table[sent[i].commitment] == sent[i])
  }

  ghost predicate IsLast(rows: seq<SlotRow>, i: int)
    requires 0 <= i < |rows|
  {
    forall j :: i < j < |rows| ==> rows[j].commitment != rows[i].commitment
  }

  ghost predicate WriterInv(table: Table, sent: seq<SlotRow>)
  {
    TableWritten(table) && Ordered(sent) && Mirrors(sent, table)
  }

  /** One real row change, notified. */
  lemma RowChange(table: Table, sent: seq<SlotRow>, row: SlotRow)
    requires WriterInv(table, sent)
    requires Written(row)
    requires row.commitment in table ==> Precedes(table[row.commitment], row)
    ensures WriterInv(table[row.commitment := row], sent + Notify(Lookup(table, row.commitment), row))
  {
    var c := row.commitment;
    if Lookup(table, c) == Some(row) {
      assert table[c := row] == table;
      assert sent + [] == sent;
    } else {
      var sent' := sent + [row];
      forall i | 0 <= i < |sent'| && IsLast(sent', i)
        ensures table[c := row][sent'[i].commitment] == sent'[i]
      {
        if i < |sent| {
          assert sent'[|sent|].commitment != sent'[i].commitment;
          assert forall j :: i < j < |sent| ==> sent[j] == sent'[j];
          assert IsLast(sent, i);
        }
      }
    }
  }

  lemma InsertKeepsWriterInv(table: Table, sent: seq<SlotRow>, row: SlotRow)
    requires WriterInv(table, sent) && Written(row)
    ensures WriterInv(Upserted(table, row), sent + UpsertNotes(table, row))
  {
    RowChange(table, sent, UpsertedRow(table, row));
  }

  lemma {:induction false} HealthKeepsWriterInv(table: Table, sent: seq<SlotRow>, health: bool, order: seq<int>, n: nat)
    requires WriterInv(table, sent) && RowOrder(table, order) && n <= |order|
    ensures WriterInv(Stamped(table, health, order, n), sent + HealthNotes(table, health, order, n))
  {
    if n == 0 {
      assert sent + [] == sent;
    } else {
      HealthKeepsWriterInv(table, sent, health, order, n - 1);
      StampedRow(table, health, order, n - 1, n - 1);
      HealthRowChange(
        table, Stamped(table, health, order, n - 1), sent, HealthNotes(table, health, order, n - 1), order[n - 1], health);
    }
  }

  lemma HealthRowChange(table: Table, mid: Table, sent: seq<SlotRow>, notes: seq<SlotRow>, c: int, health: bool)
    requires WriterInv(mid, sent + notes) && TableWritten(table) && c in table && c in mid && mid[c] == table[c]
    ensures var updated := table[c].(health := health);
      WriterInv(mid[c := updated], sent + (notes + Notify(Some(table[c]), updated)))
  {
    var updated := table[c].(health := health);
    RowChange(mid, sent + notes, updated);
    assert sent + (notes + Notify(Some(table[c]), updated)) == sent + notes + Notify(Some(table[c]), updated);
  }

  /******* The invariant of the protocol *******/

  /** The row the listener has taken and not yet stored. */
  function InFlight(stage: Stage): seq<SlotRow>
  {
    match stage
    case Received(row) => [row]
    case Fed(row) => [row]
    case _ => []
  }

  function Feeds(rows: seq<SlotRow>): (feeds: seq<Feed>)
    ensures |feeds| == |rows|
    ensures forall i :: 0 <= i < |rows| ==> feeds[i] == FeedOf(rows[i])
  {
    if rows == [] then [] else Feeds(rows[..|rows| - 1]) + [FeedOf(rows[|rows| - 1])]
  }

  function Anchors(rows: seq<SlotRow>): (anchors: seq<Anchor>)
    requires forall i :: 0 <= i < |rows| ==> rows[i].blockhash.Some?
    ensures |anchors| == |rows|
    ensures forall i :: 0 <= i < |rows| ==> anchors[i] == Anchor(rows[i].slot, rows[i].blockhash.value)
  {
    if rows == [] then []
    else Anchors(rows[..|rows| - 1]) + [Anchor(rows[|rows| - 1].slot, rows[|rows| - 1].blockhash.value)]
  }

  /** The advances whose slot was given to the mint cache: one ahead of the stored ones while a row is fed. */
  function FedRows(s: State): seq<SlotRow>
  {
    AdvanceRows(s.applied) + if s.stage.Fed? && ConfirmedAdvance(s.data, s.stage.row) then [s.stage.row] else []
  }

  /** The advances whose anchor was published: one behind the stored ones until the publishing step. */
  function AnchoredRows(s: State): seq<SlotRow>
  {
    var advances := AdvanceRows(s.applied);
    if s.stage.Stored? && s.stage.advanced && advances != [] then advances[..|advances| - 1] else advances
  }

  ghost predicate ListenerInv(s: State)
  {
    && LogInv(s)
    && s.data == View(s.applied)
    && !s.stage.Panicked?
    && (s.stage.Stored? && s.stage.advanced ==>
      AdvanceRows(s.applied) != [] && AdvanceRows(s.applied)[|AdvanceRows(s.applied)| - 1] == s.stage.row)
    && s.fed == (if s.mintCache then Feeds(FedRows(s)) else [])
  }

  ghost predicate AnchorInv(s: State)
  {
    && (forall i :: 0 <= i < |AdvanceRows(s.applied)| ==> AdvanceRows(s.applied)[i].blockhash.Some?)
    && s.anchors == (if s.anchoring then Anchors(AnchoredRows(s)) else [])
  }

  ghost predicate Inv(s: State)
  {
    WriterInv(s.table, s.sent) && ListenerInv(s) && AnchorInv(s)
  }

  lemma WriterStep(s: State, step: Step)
    requires WriterInv(s.table, s.sent) && Enabled(s, step)
    ensures WriterInv(Next(s, step).table, Next(s, step).sent)
  {
    match step {
      case Insert(row) => InsertKeepsWriterInv(s.table, s.sent, row);
      case WriteHealth(health, order) =>
        HealthKeepsWriterInv(s.table, s.sent, health, order, |order|);
        StampedAll(s.table, health, order);
      case _ =>
    }
  }

  lemma StoreAdvances(s: State)
    requires s.data == View(s.applied) && Enabled(s, Store) && KnownCommitment(s.stage.row)
    ensures
      var s' := Next(s, Store);
      && s'.data == View(s'.applied)
      && AdvanceRows(s'.applied) ==
         AdvanceRows(s.applied) + if ConfirmedAdvance(s.data, s.stage.row) then [s.stage.row] else []
  {
    var s' := Next(s, Store);
    assert s'.applied[..|s'.applied| - 1] == s.applied;
  }

  ghost predicate LogInv(s: State)
  {
    s.sent == s.applied + InFlight(s.stage) + s.queue
  }

  lemma Appended(s: State, notes: seq<SlotRow>)
    requires LogInv(s)
    ensures s.sent + notes == s.applied + InFlight(s.stage) + (s.queue + notes)
  {
  }

  /** No notification is lost, duplicated or reordered. */
  lemma LogStep(s: State, step: Step)
    requires LogInv(s) && Enabled(s, step)
    requires step.Store? ==> KnownCommitment(s.stage.row)
    ensures LogInv(Next(s, step))
  {
    var s' := Next(s, step);
    match step {
      case Insert(row) =>
        Appended(s, UpsertNotes(s.table, row));
      case WriteHealth(health, order) =>
        Appended(s, HealthNotes(s.table, health, order, |order|));
      case Receive =>
        assert s.queue == [s.queue[0]] + s.queue[1..];
      case _ =>
    }
  }

  lemma ListenerQueueStep(s: State, step: Step)
    requires ListenerInv(s) && Enabled(s, step) && (step.Insert? || step.WriteHealth? || step.Receive?)
    ensures ListenerInv(Next(s, step))
  {
    LogStep(s, step);
    QueueStepIsQuiet(s, step);
  }

  /** Writing and receiving touch neither the in-memory slots nor the mint cache. */
  lemma QueueStepIsQuiet(s: State, step: Step)
    requires Enabled(s, step) && (step.Insert? || step.WriteHealth? || step.Receive?)
    ensures
      var t := Next(s, step);
      && t.mintCache == s.mintCache && t.applied == s.applied && t.data == s.data && t.fed == s.fed
      && !t.stage.Panicked? && (t.stage.Stored? ==> t.stage == s.stage)
      && FedRows(t) == FedRows(s)
  {
  }

  lemma FeedsAppend(rows: seq<SlotRow>, row: SlotRow)
    ensures Feeds(rows + [row]) == Feeds(rows) + [FeedOf(row)]
  {
    assert (rows + [row])[..|rows|] == rows;
  }

  lemma ListenerFeedStep(s: State)
    requires ListenerInv(s) && Enabled(s, FeedCache)
    ensures ListenerInv(Next(s, FeedCache))
  {
    var s' := Next(s, FeedCache);
    LogStep(s, FeedCache);
    FedGrows(s);
    FeedsAppend(FedRows(s), s.stage.row);
  }

  lemma FedGrows(s: State)
    requires s.stage.Received?
    ensures FedRows(Next(s, FeedCache)) ==
      if ConfirmedAdvance(s.data, s.stage.row) then FedRows(s) + [s.stage.row] else FedRows(s)
  {
    assert FedRows(s) == AdvanceRows(s.applied);
  }

  lemma ListenerStoreStep(s: State)
    requires ListenerInv(s) && Enabled(s, Store) && Written(s.stage.row)
    ensures ListenerInv(Next(s, Store))
  {
    var s' := Next(s, Store);
    StoreAdvances(s);
    LogStep(s, Store);
    assert FedRows(s') == FedRows(s);
  }

  lemma ListenerPublishStep(s: State)
    requires ListenerInv(s) && Enabled(s, PublishAnchor)
    requires s.stage.advanced ==> s.stage.row.blockhash.Some?
    ensures ListenerInv(Next(s, PublishAnchor))
  {
  }

  lemma AnchorQuietStep(s: State, step: Step)
    requires AnchorInv(s) && Enabled(s, step) && !step.Store? && !step.PublishAnchor?
    ensures AnchorInv(Next(s, step))
  {
    assert AnchoredRows(Next(s, step)) == AnchoredRows(s);
  }

  lemma AnchorStoreStep(s: State)
    requires AnchorInv(s) && s.data == View(s.applied) && Enabled(s, Store) && Written(s.stage.row)
    ensures AnchorInv(Next(s, Store))
  {
    StoreKeepsAnchored(s);
    StoreKeepsHashes(s);
  }

  /** Storing an advance does not publish its anchor yet. */
  lemma StoreKeepsAnchored(s: State)
    requires s.data == View(s.applied) && Enabled(s, Store) && KnownCommitment(s.stage.row)
    ensures AnchoredRows(Next(s, Store)) == AnchoredRows(s)
  {
    StoreAdvances(s);
    var before, after := AdvanceRows(s.applied), AdvanceRows(Next(s, Store).applied);
    if ConfirmedAdvance(s.data, s.stage.row) {
      assert after[..|after| - 1] == before;
    }
  }

  lemma StoreKeepsHashes(s: State)
    requires s.data == View(s.applied) && Enabled(s, Store) && Written(s.stage.row)
    requires forall i :: 0 <= i < |AdvanceRows(s.applied)| ==> AdvanceRows(s.applied)[i].blockhash.Some?
    ensures var after := AdvanceRows(Next(s, Store).applied);
      forall i :: 0 <= i < |after| ==> after[i].blockhash.Some?
  {
    StoreAdvances(s);
  }

  lemma AnchorPublishStep(s: State)
    requires AnchorInv(s) && Enabled(s, PublishAnchor)
    requires s.stage.advanced ==>
      AdvanceRows(s.applied) != [] && AdvanceRows(s.applied)[|AdvanceRows(s.applied)| - 1] == s.stage.row
    ensures AnchorInv(Next(s, PublishAnchor))
  {
    var advances := AdvanceRows(s.applied);
    if s.stage.advanced {
      AnchorsSplit(advances);
    }
    AnchoredUnlessStored(Next(s, PublishAnchor));
  }

  /** Outside the publishing step no anchor is outstanding. */
  lemma AnchoredUnlessStored(s: State)
    requires !s.stage.Stored?
    ensures AnchoredRows(s) == AdvanceRows(s.applied)
  {
  }

  lemma AnchorsSplit(rows: seq<SlotRow>)
    requires rows != [] && forall i :: 0 <= i < |rows| ==> rows[i].blockhash.Some?
    ensures var last := rows[|rows| - 1];
      Anchors(rows) == Anchors(rows[..|rows| - 1]) + [Anchor(last.slot, last.blockhash.value)]
  {
  }

  /** The row in the listener's hands is one the indexer wrote. */
  lemma HandledRowIsWritten(s: State)
    requires Inv(s)
    ensures s.stage.Received? || s.stage.Fed? ==> Written(s.stage.row)
    ensures s.stage.Stored? && s.stage.advanced ==> s.stage.row.commitment == CONFIRMED && s.stage.row.blockhash.Some?
  {
    if s.stage.Received? || s.stage.Fed? {
      assert s.sent[|s.applied|] == s.stage.row;
    }
  }

  lemma StepKeepsInv(s: State, step: Step)
    requires Inv(s) && Enabled(s, step)
    ensures Inv(Next(s, step))
  {
    HandledRowIsWritten(s);
    WriterStep(s, step);
    match step {
      case FeedCache => ListenerFeedStep(s); AnchorQuietStep(s, step);
      case Store => ListenerStoreStep(s); AnchorStoreStep(s);
      case PublishAnchor => ListenerPublishStep(s); AnchorPublishStep(s);
      case _ => ListenerQueueStep(s, step); AnchorQuietStep(s, step);
    }
  }

  lemma InitHasInv(s: State)
    requires Init(s)
    ensures Inv(s)
  {
    InitForListener(s);
    InitForAnchors(s);
  }

  lemma InitForListener(s: State)
    requires Init(s)
    ensures ListenerInv(s)
  {
    assert AdvanceRows(s.applied) == [] && FedRows(s) == [];
  }

  lemma InitForAnchors(s: State)
    requires Init(s)
    ensures AnchorInv(s)
  {
    assert AdvanceRows(s.applied) == [];
  }

  lemma {:induction false} TraceKeepsInv(states: seq<State>, steps: seq<Step>, i: nat)
    requires Trace(states, steps) && i < |states|
    ensures Inv(states[i])
  {
    if i == 0 {
      InitHasInv(states[0]);
    } else {
      TraceKeepsInv(states, steps, i - 1);
      assert Enabled(states[i - 1], steps[i - 1]) && states[i] == Next(states[i - 1], steps[i - 1]);
      StepKeepsInv(states[i - 1], steps[i - 1]);
    }
  }

  lemma ReachableKeepsInv(s: State)
    requires Reachable(s)
    ensures Inv(s)
  {
    var states, steps :| Trace(states, steps) && states[|steps|] == s;
    TraceKeepsInv(states, steps, |steps|);
  }
}
