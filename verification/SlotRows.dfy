/**
 The `slots` table, its change trigger, and the in-memory slots of the API. Each operation that the
 program performs by updating state is a method of a class, specified by a function of the old state.
 */
module SlotRows {
  import opened Basics

  const CONFIRMED: int := 1
  const FINALIZED: int := 2

  /** One row of `slots`, which is also the payload of a notification. */
  datatype SlotRow = SlotRow(commitment: int, slot: nat, blockTime: int, health: bool, blockhash: Option<string>)

  /** The rows by commitment. */
  type Table = map<int, SlotRow>

  /******* The writer side *******/

  /** The row change trigger: an update that changes nothing sends nothing. */
  function Notify(previous: Option<SlotRow>, current: SlotRow): seq<SlotRow>
  {
    if previous == Some(current) then [] else [current]
  }

  function Lookup(table: Table, commitment: int): Option<SlotRow>
  {
    if commitment in table then Some(table[commitment]) else None
  }

  /** The upsert: a row is replaced only by a higher slot, and keeps its health column. */
  function UpsertedRow(table: Table, row: SlotRow): SlotRow
  {
    if row.commitment !in table then row
    else if row.slot > table[row.commitment].slot then row.(health := table[row.commitment].health)
    else table[row.commitment]
  }

  function Upserted(table: Table, row: SlotRow): Table
  {
    table[row.commitment := UpsertedRow(table, row)]
  }

  function UpsertNotes(table: Table, row: SlotRow): seq<SlotRow>
  {
    Notify(Lookup(table, row.commitment), UpsertedRow(table, row))
  }

  /** The health write stamps every row, in one transaction. */
  function WithHealth(table: Table, health: bool): Table
  {
    map c | c in table :: table[c].(health := health)
  }

  /** The notifications of the first `n` rows of the health write, in the order in which the rows are touched. */
  function HealthNotes(table: Table, health: bool, order: seq<int>, n: nat): seq<SlotRow>
    requires n <= |order| && forall i :: 0 <= i < |order| ==> order[i] in table
  {
    if n == 0 then []
    else
      var last := table[order[n - 1]];
      HealthNotes(table, health, order, n - 1) + Notify(Some(last), last.(health := health))
  }

  /** `order` names every row of the table once. */
  ghost predicate RowOrder(table: Table, order: seq<int>)
  {
    && (forall i :: 0 <= i < |order| ==> order[i] in table)
    && (forall c :: c in table ==> c in order)
    && forall i, j :: 0 <= i < j < |order| ==> order[i] != order[j]
  }

  /** The table after the first `n` rows were stamped. */
  function Stamped(table: Table, health: bool, order: seq<int>, n: nat): Table
    requires n <= |order| && forall i :: 0 <= i < |order| ==> order[i] in table
  {
    if n == 0 then table
    else Stamped(table, health, order, n - 1)[order[n - 1] := table[order[n - 1]].(health := health)]
  }

  /** A row is stamped from its turn on, and untouched before. */
  lemma {:induction false} StampedRow(table: Table, health: bool, order: seq<int>, n: nat, i: nat)
    requires RowOrder(table, order) && n <= |order| && i < |order|
    ensures order[i] in Stamped(table, health, order, n)
    ensures Stamped(table, health, order, n)[order[i]] ==
      if i < n then table[order[i]].(health := health) else table[order[i]]
  {
    if n > 0 {
      StampedRow(table, health, order, n - 1, i);
      assert i < n - 1 ==> order[i] != order[n - 1];
      assert n - 1 < i ==> order[n - 1] != order[i];
    }
  }

  lemma {:induction false} StampedKeys(table: Table, health: bool, order: seq<int>, n: nat)
    requires RowOrder(table, order) && n <= |order|
    ensures Stamped(table, health, order, n).Keys == table.Keys
  {
    if n > 0 {
      StampedKeys(table, health, order, n - 1);
    }
  }

  lemma StampedAll(table: Table, health: bool, order: seq<int>)
    requires RowOrder(table, order)
    ensures Stamped(table, health, order, |order|) == WithHealth(table, health)
  {
    var stamped, expected := Stamped(table, health, order, |order|), WithHealth(table, health);
    StampedKeys(table, health, order, |order|);
    forall c | c in table
      ensures stamped[c] == expected[c]
    {
      var i :| 0 <= i < |order| && order[i] == c;
      StampedRow(table, health, order, |order|, i);
    }
  }

  /** The rows with another health than the one written. */
  ghost function Changed(table: Table, health: bool): set<int>
  {
    set c | c in table && table[c].health != health
  }

  ghost predicate AreNotified(cs: set<int>, table: Table, health: bool, notes: seq<SlotRow>)
    requires cs <= table.Keys
  {
    forall c :: c in cs ==> IsNotified(table[c], health, notes)
  }

  predicate IsNotified(row: SlotRow, health: bool, notes: seq<SlotRow>)
  {
    SlotRow(row.commitment, row.slot, row.blockTime, health, row.blockhash) in notes
  }

  /** The health write notifies the rows whose health changes, each once, and no others. */
  lemma HealthNotesAreChanges(table: Table, health: bool, order: seq<int>)
    requires RowOrder(table, order)
    ensures |HealthNotes(table, health, order, |order|)| == |Changed(table, health)|
    ensures AreNotified(Changed(table, health), table, health, HealthNotes(table, health, order, |order|))
  {
    HealthNotesFirst(table, health, order, |order|);
    var first := ChangedFirst(table, health, order, |order|);
    assert order[..|order|] == order;
    forall c | c in Changed(table, health)
      ensures c in first
    {
      assert c in order;
    }
    assert first == Changed(table, health);
  }

  ghost function ChangedFirst(table: Table, health: bool, order: seq<int>, n: nat): set<int>
    requires n <= |order|
  {
    set c | c in table && table[c].health != health && c in order[..n]
  }

  lemma ChangedNext(table: Table, health: bool, order: seq<int>, n: nat)
    requires RowOrder(table, order) && 0 < n <= |order|
    ensures order[n - 1] in table && order[n - 1] !in ChangedFirst(table, health, order, n - 1)
    ensures ChangedFirst(table, health, order, n) ==
      if table[order[n - 1]].health != health then ChangedFirst(table, health, order, n - 1) + {order[n - 1]}
      else ChangedFirst(table, health, order, n - 1)
  {
    assert order[..n] == order[..n - 1] + [order[n - 1]];
    assert forall i :: 0 <= i < n - 1 ==> order[i] != order[n - 1];
  }

  /** Each row of `cs` is notified once, and nothing else is. */
  ghost predicate NotifiedOnce(cs: set<int>, table: Table, health: bool, notes: seq<SlotRow>)
  {
    cs <= table.Keys && AreNotified(cs, table, health, notes) && |notes| == |cs|
  }

  lemma {:induction false} HealthNotesFirst(table: Table, health: bool, order: seq<int>, n: nat)
    requires RowOrder(table, order) && n <= |order|
    ensures NotifiedOnce(ChangedFirst(table, health, order, n), table, health, HealthNotes(table, health, order, n))
  {
    if n > 0 {
      HealthNotesFirst(table, health, order, n - 1);
      NotesNext(
        table, health, order, n, ChangedFirst(table, health, order, n - 1), HealthNotes(table, health, order, n - 1));
    }
  }

  lemma NotesNext(table: Table, health: bool, order: seq<int>, n: nat, cs: set<int>, notes: seq<SlotRow>)
    requires RowOrder(table, order) && 0 < n <= |order|
    requires cs == ChangedFirst(table, health, order, n - 1) && notes == HealthNotes(table, health, order, n - 1)
    requires NotifiedOnce(cs, table, health, notes)
    ensures NotifiedOnce(ChangedFirst(table, health, order, n), table, health, HealthNotes(table, health, order, n))
  {
    var c := order[n - 1];
    ChangedNext(table, health, order, n);
    MoreNotified(cs, table, health, notes, c);
    assert HealthNotes(table, health, order, n) == notes + Notify(Some(table[c]), table[c].(health := health));
  }

  lemma MoreNotified(cs: set<int>, table: Table, health: bool, notes: seq<SlotRow>, c: int)
    requires NotifiedOnce(cs, table, health, notes) && c in table && c !in cs
    ensures var after := notes + Notify(Some(table[c]), table[c].(health := health));
      NotifiedOnce(if table[c].health != health then cs + {c} else cs, table, health, after)
  {
  }

  class SlotsTable {
    var rows: Table
    var serviceHealth: Option<bool>
    var channel: seq<SlotRow>

    constructor ()
      ensures rows == map[] && serviceHealth == None && channel == []
    {
      rows, serviceHealth, channel := map[], None, [];
    }

    /** A new commitment gets its row; a higher slot replaces all of the row but its health; anything else is ignored. */
    method InsertSlot(row: SlotRow)
      modifies this`rows, this`channel
      ensures rows == Upserted(old(rows), row)
      ensures channel == old(channel) + UpsertNotes(old(rows), row)
      ensures row.commitment !in old(rows) ==>
        rows == old(rows)[row.commitment := row] && channel == old(channel) + [row]
      ensures row.commitment in old(rows) && old(rows)[row.commitment].slot < row.slot ==>
        var updated := SlotRow(
          row.commitment, row.slot, row.blockTime, old(rows)[row.commitment].health, row.blockhash);
        rows == old(rows)[row.commitment := updated] && channel == old(channel) + [updated]
      ensures row.commitment in old(rows) && row.slot <= old(rows)[row.commitment].slot ==>
        rows == old(rows) && channel == old(channel)
    {
      if row.commitment !in rows {
        rows := rows[row.commitment := row];
        channel := channel + [row];
      } else if row.slot > rows[row.commitment].slot {
        var updated := row.(health := rows[row.commitment].health);
        channel := channel + Notify(Some(rows[row.commitment]), updated);
        rows := rows[row.commitment := updated];
      } else {
        assert rows[row.commitment := rows[row.commitment]] == rows;
      }
    }

    method UpdateServiceHealth(health: bool, order: seq<int>)
      requires RowOrder(rows, order)
      modifies this
      ensures serviceHealth == Some(health)
      ensures rows == WithHealth(old(rows), health)
      ensures channel == old(channel) + HealthNotes(old(rows), health, order, |order|)
      ensures rows.Keys == old(rows).Keys
      ensures forall c :: c in old(rows) ==> var row := old(rows)[c];
        rows[c] == SlotRow(row.commitment, row.slot, row.blockTime, health, row.blockhash)
    {
      serviceHealth := Some(health);
      StampRows(health, order);
    }

    method StampRows(health: bool, order: seq<int>)
      requires RowOrder(rows, order)
      modifies this`rows, this`channel
      ensures rows == WithHealth(old(rows), health)
      ensures channel == old(channel) + HealthNotes(old(rows), health, order, |order|)
    {
      for i := 0 to |order|
        invariant rows == Stamped(old(rows), health, order, i)
        invariant channel == old(channel) + HealthNotes(old(rows), health, order, i)
      {
        StampedRow(old(rows), health, order, i, i);
        var row := rows[order[i]];
        channel := channel + Notify(Some(row), row.(health := health));
        rows := rows[order[i] := row.(health := health)];
      }
      StampedAll(old(rows), health, order);
    }
  }

  /******* The reader side *******/

  datatype SlotData = SlotData(slot: nat, blockTime: int)

  datatype SyncData = SyncData(confirmed: SlotData, finalized: SlotData, healthy: bool)

  const UNSYNCED: SyncData := SyncData(SlotData(0, 0), SlotData(0, 0), false)

  /** The arguments of a call of `on_confirmed`. */
  datatype Feed = Feed(slot: nat, blockhash: Option<string>, health: bool)

  function FeedOf(row: SlotRow): Feed
  {
    Feed(row.slot, row.blockhash, row.health)
  }

  /** What the anchor channel was sent. */
  datatype Anchor = Anchor(slot: nat, blockhash: string)

  predicate Advances(current: SlotData, row: SlotRow)
  {
    row.slot > current.slot
  }

  function Advanced(current: SlotData, row: SlotRow): SlotData
  {
    if Advances(current, row) then SlotData(row.slot, row.blockTime) else current
  }

  predicate ConfirmedAdvance(data: SyncData, row: SlotRow)
  {
    row.commitment == CONFIRMED && Advances(data.confirmed, row)
  }

  predicate KnownCommitment(row: SlotRow)
  {
    row.commitment == CONFIRMED || row.commitment == FINALIZED
  }

  function Applied(data: SyncData, row: SlotRow): SyncData
    requires KnownCommitment(row)
  {
    if row.commitment == CONFIRMED then SyncData(Advanced(data.confirmed, row), data.finalized, row.health)
    else SyncData(data.confirmed, Advanced(data.finalized, row), row.health)
  }

  class SlotSyncronizer {
    const mintCacheEnabled: bool
    const anchorEnabled: bool
    var data: SyncData
    var fed: seq<Feed>
    var anchors: seq<Anchor>

    constructor (mintCache: bool, anchor: bool)
      ensures mintCacheEnabled == mintCache && anchorEnabled == anchor
      ensures data == UNSYNCED && fed == [] && anchors == []
    {
      mintCacheEnabled, anchorEnabled := mintCache, anchor;
      data, fed, anchors := UNSYNCED, [], [];
    }

    /** Writes the row under the lock, then publishes the anchor; `panicked` stands for the two panics of the task. */
    method Apply(row: SlotRow) returns (panicked: bool)
      modifies this`data, this`anchors
      ensures panicked <==>
        || !KnownCommitment(row)
        || (anchorEnabled && ConfirmedAdvance(old(data), row) && row.blockhash.None?)
      ensures KnownCommitment(row) ==> data == Applied(old(data), row)
      ensures !KnownCommitment(row) ==> data == SyncData(old(data).confirmed, old(data).finalized, row.health)
      ensures anchors == old(anchors) +
        if !panicked && anchorEnabled && ConfirmedAdvance(old(data), row) then [Anchor(row.slot, row.blockhash.value)]
        else []
    {
      data := data.(healthy := row.health);
      var advanced;
      if row.commitment == CONFIRMED {
        advanced := row.slot > data.confirmed.slot;
        if advanced {
          data := data.(confirmed := SlotData(row.slot, row.blockTime));
        }
      } else if row.commitment == FINALIZED {
        advanced := row.slot > data.finalized.slot;
        if advanced {
          data := data.(finalized := SlotData(row.slot, row.blockTime));
        }
      } else {
        return true;
      }
      if advanced && row.commitment == CONFIRMED && anchorEnabled {
        if row.blockhash.None? {
          return true;
        }
        anchors := anchors + [Anchor(row.slot, row.blockhash.value)];
      }
      panicked := false;
    }

    /** One iteration of the listener: the mint cache is fed before the slot is published. */
    method Handle(row: SlotRow) returns (panicked: bool)
      modifies this`data, this`fed, this`anchors
      ensures fed == old(fed) +
        if mintCacheEnabled && row.commitment == CONFIRMED && row.slot > old(data).confirmed.slot then
          [Feed(row.slot, row.blockhash, row.health)]
        else []
      ensures KnownCommitment(row) ==> data == Applied(old(data), row)
      ensures !KnownCommitment(row) ==> data == SyncData(old(data).confirmed, old(data).finalized, row.health)
      ensures panicked <==>
        || !KnownCommitment(row)
        || (anchorEnabled && ConfirmedAdvance(old(data), row) && row.blockhash.None?)
      ensures anchors == old(anchors) +
        if !panicked && anchorEnabled && ConfirmedAdvance(old(data), row) then [Anchor(row.slot, row.blockhash.value)]
        else []
    {
      if mintCacheEnabled && ConfirmedAdvance(data, row) {
        fed := fed + [FeedOf(row)];
      }
      panicked := Apply(row);
    }
  }
}
