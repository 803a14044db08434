/** What the `slots` table holds after any run, in terms of the rows that were inserted and the health that was written. */
module SlotHistory {
  import opened Basics
  import opened SlotRows
  import opened SlotPublication

  predicate Inserts(step: Step, c: int)
  {
    step.Insert? && step.row.commitment == c
  }

  /** The first `n` steps insert no higher slot for `c`. */
  ghost predicate NoneHigher(steps: seq<Step>, n: nat, c: int, slot: nat)
    requires n <= |steps|
  {
    forall i :: 0 <= i < n && Inserts(steps[i], c) ==> steps[i].row.slot <= slot
  }

  /** The block of a row: its slot, with the time and the hash of that slot. */
  predicate SameBlock(a: SlotRow, b: SlotRow)
  {
    a.slot == b.slot && a.blockTime == b.blockTime && a.blockhash == b.blockhash
  }

  /** Step `i` was the first to insert a row of this slot or a higher one, above what the table had. */
  ghost predicate Raises(initial: Table, steps: seq<Step>, i: nat, c: int, row: SlotRow)
    requires i < |steps|
  {
    && Inserts(steps[i], c) && SameBlock(steps[i].row, row)
    && (c in initial ==> initial[c].slot < row.slot)
    && forall j :: 0 <= j < i && Inserts(steps[j], c) ==> steps[j].row.slot < row.slot
  }

  /** The block of `row` comes from the table at the start, or from the insert that raised the slot to it. */
  ghost predicate HasSource(initial: Table, steps: seq<Step>, n: nat, c: int, row: SlotRow)
    requires n <= |steps|
  {
    || (c in initial && SameBlock(row, initial[c]))
    || exists i :: 0 <= i < n && Raises(initial, steps, i, c, row)
  }

  ghost predicate EverInserted(steps: seq<Step>, n: nat, c: int)
    requires n <= |steps|
  {
    exists i :: 0 <= i < n && Inserts(steps[i], c)
  }

  /**
   A row is in the table if and only if it was at the start or was inserted. Its slot is the largest of those, and its
   block time and blockhash are those of the start or of the first insert of that slot.
   */
  ghost predicate HoldsHighest(initial: Table, steps: seq<Step>, n: nat, c: int, table: Table)
    requires n <= |steps|
  {
    && (c in table <==> c in initial || EverInserted(steps, n, c))
    && (c in table && c in initial ==> initial[c].slot <= table[c].slot)
    && (c in table ==> NoneHigher(steps, n, c, table[c].slot) && HasSource(initial, steps, n, c, table[c]))
  }

  lemma TableHoldsHighestInsert(states: seq<State>, steps: seq<Step>, n: nat, c: int)
    requires Trace(states, steps) && n < |states|
    ensures HoldsHighest(states[0].table, steps, n, c, states[n].table)
  {
    TraceWrites(states, steps);
    WritesHoldHighest(Tables(states), steps, n, c);
  }

  /** What a step does to the table. */
  predicate Writes(before: Table, step: Step, after: Table)
  {
    match step
    case Insert(row) => after == Upserted(before, row)
    case WriteHealth(health, _) => after == WithHealth(before, health)
    case _ => after == before
  }

  ghost predicate AllWrites(tables: seq<Table>, steps: seq<Step>)
  {
    |tables| == |steps| + 1 && forall i :: 0 <= i < |steps| ==> Writes(tables[i], steps[i], tables[i + 1])
  }

  function Tables(states: seq<State>): (tables: seq<Table>)
    ensures |tables| == |states| && forall i :: 0 <= i < |states| ==> tables[i] == states[i].table
  {
    seq(|states|, i requires 0 <= i < |states| => states[i].table)
  }

  lemma TraceWrites(states: seq<State>, steps: seq<Step>)
    requires Trace(states, steps)
    ensures AllWrites(Tables(states), steps)
  {
    forall i | 0 <= i < |steps|
      ensures Writes(states[i].table, steps[i], states[i + 1].table)
    {
      assert Enabled(states[i], steps[i]) && states[i + 1] == Next(states[i], steps[i]);
    }
  }

  lemma {:induction false} WritesHoldHighest(tables: seq<Table>, steps: seq<Step>, n: nat, c: int)
    requires AllWrites(tables, steps) && n < |tables|
    ensures HoldsHighest(tables[0], steps, n, c, tables[n])
  {
    if n > 0 {
      WritesHoldHighest(tables, steps, n - 1, c);
      assert Writes(tables[n - 1], steps[n - 1], tables[n]);
      if Inserts(steps[n - 1], c) {
        InsertedNext(tables[0], tables[n - 1], steps, n - 1, c, tables[n]);
      } else {
        OthersNext(tables[0], tables[n - 1], steps, n - 1, c, tables[n]);
      }
    }
  }

  lemma InsertedNext(initial: Table, before: Table, steps: seq<Step>, n: nat, c: int, after: Table)
    requires n < |steps| && Inserts(steps[n], c) && after == Upserted(before, steps[n].row)
    requires HoldsHighest(initial, steps, n, c, before)
    ensures HoldsHighest(initial, steps, n + 1, c, after)
  {
    if c in before && steps[n].row.slot <= before[c].slot {
      SourceStays(initial, steps, n, c, before[c]);
    } else {
      assert Raises(initial, steps, n, c, after[c]);
    }
  }

  lemma SourceStays(initial: Table, steps: seq<Step>, n: nat, c: int, row: SlotRow)
    requires n < |steps| && HasSource(initial, steps, n, c, row)
    ensures HasSource(initial, steps, n + 1, c, row)
  {
    if i :| 0 <= i < n && Raises(initial, steps, i, c, row) {
      assert i < n + 1;
    }
  }

  lemma OthersNext(initial: Table, before: Table, steps: seq<Step>, n: nat, c: int, after: Table)
    requires n < |steps| && !Inserts(steps[n], c)
    requires c in before <==> c in after
    requires c in before ==> SameBlock(after[c], before[c])
    requires HoldsHighest(initial, steps, n, c, before)
    ensures HoldsHighest(initial, steps, n + 1, c, after)
  {
    assert EverInserted(steps, n, c) <==> EverInserted(steps, n + 1, c);
    if c in before {
      SourceStays(initial, steps, n, c, before[c]);
      SourceOfBlock(initial, steps, n + 1, c, before[c], after[c]);
    }
  }

  lemma SourceOfBlock(initial: Table, steps: seq<Step>, n: nat, c: int, row: SlotRow, same: SlotRow)
    requires n <= |steps| && SameBlock(same, row) && HasSource(initial, steps, n, c, row)
    ensures HasSource(initial, steps, n, c, same)
  {
    if i :| 0 <= i < n && Raises(initial, steps, i, c, row) {
      assert Raises(initial, steps, i, c, same);
    }
  }

  /** What an insert above the slot of a row does to it, and to nothing else: its health stays, and it is notified. */
  lemma HigherInsertReplaces(s: State, row: SlotRow)
    requires Enabled(s, Insert(row)) && row.commitment in s.table && s.table[row.commitment].slot < row.slot
    ensures var t := Next(s, Insert(row));
      var now := SlotRow(row.commitment, row.slot, row.blockTime, s.table[row.commitment].health, row.blockhash);
      t == s.(table := s.table[row.commitment := now], sent := s.sent + [now], queue := s.queue + [now])
  {
  }

  /** Step `i` wrote the health that row `c` still has. */
  ghost predicate WroteHealth(tables: seq<Table>, steps: seq<Step>, n: nat, i: nat, c: int, health: bool)
    requires i < n <= |steps| < |tables|
  {
    && steps[i].WriteHealth? && c in tables[i] && steps[i].health == health
    && forall j :: i < j < n ==> !steps[j].WriteHealth?
  }

  /** The health a row had when it first came into the table. */
  ghost predicate CameWithHealth(tables: seq<Table>, steps: seq<Step>, n: nat, c: int, health: bool)
    requires n <= |steps| < |tables|
  {
    || (c in tables[0] && tables[0][c].health == health)
    || exists i :: 0 <= i < n && c !in tables[i] && Inserts(steps[i], c) && steps[i].row.health == health
  }

  ghost predicate NoHealthWritten(tables: seq<Table>, steps: seq<Step>, n: nat, c: int)
    requires n <= |steps| < |tables|
  {
    forall j :: 0 <= j < n && steps[j].WriteHealth? ==> c !in tables[j]
  }

  ghost predicate HealthHasSource(tables: seq<Table>, steps: seq<Step>, n: nat, c: int, health: bool)
    requires n <= |steps| < |tables|
  {
    || (exists i :: 0 <= i < n && WroteHealth(tables, steps, n, i, c, health))
    || (NoHealthWritten(tables, steps, n, c) && CameWithHealth(tables, steps, n, c, health))
  }

  /**
   In every run the health of a row is the last one written by the health service, or the one it came with: no upsert
   changes it.
   */
  lemma HealthIsLastWritten(states: seq<State>, steps: seq<Step>, n: nat, c: int)
    requires Trace(states, steps) && n <= |steps| && c in states[n].table
    ensures HealthHasSource(Tables(states), steps, n, c, states[n].table[c].health)
  {
    TraceWrites(states, steps);
    WrittenHealth(Tables(states), steps, n, c);
  }

  lemma {:induction false} WrittenHealth(tables: seq<Table>, steps: seq<Step>, n: nat, c: int)
    requires AllWrites(tables, steps) && n <= |steps|
    ensures c in tables[n] ==> HealthHasSource(tables, steps, n, c, tables[n][c].health)
    ensures c !in tables[n] ==> NoHealthWritten(tables, steps, n, c)
  {
    if n > 0 {
      WrittenHealth(tables, steps, n - 1, c);
      var before, step, after := tables[n - 1], steps[n - 1], tables[n];
      assert Writes(before, step, after);
      if step.WriteHealth? && c in after {
        assert WroteHealth(tables, steps, n, n - 1, c, step.health);
      } else if c in after {
        HealthNext(tables, steps, n, c, before, after);
      }
    }
  }

  /** No other step changes the health of a row. */
  lemma HealthNext(tables: seq<Table>, steps: seq<Step>, n: nat, c: int, before: Table, after: Table)
    requires 0 < n <= |steps| < |tables| && before == tables[n - 1] && !steps[n - 1].WriteHealth?
    requires after == if steps[n - 1].Insert? then Upserted(before, steps[n - 1].row) else before
    requires c in before ==> HealthHasSource(tables, steps, n - 1, c, before[c].health)
    requires c !in before ==> NoHealthWritten(tables, steps, n - 1, c)
    ensures c in after ==> HealthHasSource(tables, steps, n, c, after[c].health)
  {
    if c in before {
      assert after[c].health == before[c].health;
      HealthStays(tables, steps, n, c, before[c].health);
    } else if c in after {
      assert Inserts(steps[n - 1], c) && steps[n - 1].row.health == after[c].health;
      assert CameWithHealth(tables, steps, n, c, after[c].health);
    }
  }

  lemma HealthStays(tables: seq<Table>, steps: seq<Step>, n: nat, c: int, health: bool)
    requires 0 < n <= |steps| < |tables| && !steps[n - 1].WriteHealth?
    requires HealthHasSource(tables, steps, n - 1, c, health)
    ensures HealthHasSource(tables, steps, n, c, health)
  {
    var m := n - 1;
    if exists i :: 0 <= i < m && WroteHealth(tables, steps, m, i, c, health) {
      var i :| 0 <= i < m && WroteHealth(tables, steps, m, i, c, health);
      assert WroteHealth(tables, steps, n, i, c, health);
    } else {
      assert CameWithHealth(tables, steps, n, c, health);
    }
  }
}
