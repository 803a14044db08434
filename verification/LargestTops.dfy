/** The reservoir of the largest holders of one mint: its updates and the rows it reports. */
module LargestTops {
  import opened Basics

  const PERSISTED_TOP_N: nat := 20

  /** A public key, as the number its big-endian bytes spell: the order is the same. */
  type Holder = nat

  datatype Entry = Entry(amount: nat, stamp: Version)

  /** The reservoir, and the largest amount that may have been dropped from it. */
  datatype Top = Top(entries: map<Holder, Entry>, floor: nat)

  datatype Row = Row(holder: Holder, amount: nat)

  /** The order of the pairs `(amount, pubkey)`. */
  predicate Below(a: Row, b: Row)
  {
    a.amount < b.amount || (a.amount == b.amount && a.holder < b.holder)
  }

  function RowOf(entries: map<Holder, Entry>, h: Holder): Row
    requires h in entries
  {
    Row(h, entries[h].amount)
  }

  predicate IsMin(entries: map<Holder, Entry>, h: Holder)
  {
    h in entries && forall g :: g in entries && g != h ==> Below(RowOf(entries, h), RowOf(entries, g))
  }

  /******* One change of the reservoir, as a relation *******/

  /** `remove_member`. */
  function Removed(t: Top, h: Holder, stamp: Version): Top
  {
    if h in t.entries && Older(t.entries[h].stamp, stamp) then t.(entries := t.entries - {h}) else t
  }

  /** A full reservoir takes a new holder only above its minimum `m`, which is then dropped. */
  function Displaced(t: Top, m: Holder, h: Holder, e: Entry): Top
    requires m in t.entries
  {
    if e.amount <= t.entries[m].amount then t.(floor := Max(t.floor, e.amount))
    else Top((t.entries - {m})[h := e], Max(t.floor, t.entries[m].amount))
  }

  /** A close that is at least as new as an update, which it hides while the tracker is seeded. */
  predicate Hidden(tombstone: Option<Version>, stamp: Version)
  {
    tombstone.Some? && !Older(tombstone.value, stamp)
  }

  /** `apply_update`: while the tracker is seeded the reservoir takes every holder. */
  ghost predicate Updated(t: Top, after: Top, h: Holder, e: Entry, seeding: bool, oldBlock: bool, k: nat)
  {
    if h in t.entries then
      after == if Older(t.entries[h].stamp, e.stamp) then t.(entries := t.entries[h := e]) else t
    else if oldBlock then after == t.(floor := Max(t.floor, e.amount))
    else if !seeding && |t.entries| >= k then exists m :: IsMin(t.entries, m) && after == Displaced(t, m, h, e)
    else after == t.(entries := t.entries[h := e])
  }

  /**
   A new holder enters a full reservoir if and only if some member has less; then the smallest member goes. The larger of
   the floor and the amount that stayed outside is the new floor, and nobody else changes.
   */
  lemma FullReservoirUpdate(t: Top, after: Top, h: Holder, e: Entry, k: nat)
    requires h !in t.entries && |t.entries| >= k > 0 && Updated(t, after, h, e, false, false, k)
    ensures h in after.entries <==> exists g :: g in t.entries && t.entries[g].amount < e.amount
    ensures h in after.entries ==> after.entries[h] == e
    ensures forall g :: g in after.entries && g != h ==> g in t.entries && after.entries[g] == t.entries[g]
    ensures h !in after.entries ==> after.entries == t.entries && after.floor == Max(t.floor, e.amount)
    ensures h in after.entries ==> exists m ::
      && IsMin(t.entries, m) && after.entries.Keys == t.entries.Keys - {m} + {h}
      && after.floor == Max(t.floor, t.entries[m].amount)
  {
    var m :| IsMin(t.entries, m) && after == Displaced(t, m, h, e);
    if e.amount > t.entries[m].amount {
      assert after.entries.Keys == t.entries.Keys - {m} + {h};
    } else {
      forall g | g in t.entries
        ensures t.entries[g].amount >= e.amount
      {
        assert g == m || Below(RowOf(t.entries, m), RowOf(t.entries, g));
      }
    }
  }

  /** The other cases: a member takes only a newer stamp, an old block adds nobody, and else there is room. */
  lemma RoomyUpdate(t: Top, after: Top, h: Holder, e: Entry, seeding: bool, oldBlock: bool, k: nat)
    requires Updated(t, after, h, e, seeding, oldBlock, k)
    ensures h in t.entries ==> after.floor == t.floor
    ensures h in t.entries && Older(t.entries[h].stamp, e.stamp) ==> after.entries == t.entries[h := e]
    ensures h in t.entries && !Older(t.entries[h].stamp, e.stamp) ==> after.entries == t.entries
    ensures h !in t.entries && oldBlock ==> after.entries == t.entries && after.floor == Max(t.floor, e.amount)
    ensures h !in t.entries && !oldBlock && (seeding || |t.entries| < k) ==>
      after.entries == t.entries[h := e] && after.floor == t.floor
  {
  }

  /** What is left exceeds what was dropped, and the floor is the largest amount dropped, if it was not higher. */
  ghost predicate Trimming(t: Top, after: Top)
  {
    && (forall h :: h in after.entries ==> h in t.entries && after.entries[h] == t.entries[h])
    && (forall h, c :: h in after.entries && c in t.entries && c !in after.entries ==>
      Below(RowOf(t.entries, c), RowOf(t.entries, h)))
    && (forall c :: c in t.entries && c !in after.entries ==> t.entries[c].amount <= after.floor)
    && t.floor <= after.floor
    && (after.floor == t.floor || exists c :: c in t.entries && c !in after.entries && t.entries[c].amount == after.floor)
  }

  /** The `k` largest members stay, or all if there are no more. */
  ghost predicate Trimmed(t: Top, after: Top, k: nat)
  {
    Trimming(t, after) && |after.entries| <= k && (|after.entries| == k || after == t)
  }

  lemma TrimmingNext(t: Top, now: Top, m: Holder)
    requires Trimming(t, now) && IsMin(now.entries, m)
    ensures Trimming(t, Top(now.entries - {m}, Max(now.floor, now.entries[m].amount)))
    ensures |now.entries - {m}| == |now.entries| - 1
  {
    var after := Top(now.entries - {m}, Max(now.floor, now.entries[m].amount));
    assert after.entries.Keys == now.entries.Keys - {m};
    assert |after.entries| == |after.entries.Keys| && |now.entries| == |now.entries.Keys|;
    if after.floor == now.entries[m].amount {
      assert m in t.entries && m !in after.entries && t.entries[m].amount == after.floor;
    } else if after.floor != t.floor {
      var c :| c in t.entries && c !in now.entries && t.entries[c].amount == now.floor;
      assert c !in after.entries;
    }
  }

  /******* The code *******/

  method MinEntry(entries: map<Holder, Entry>) returns (min: Option<Row>)
    ensures min.None? <==> entries.Keys == {}
    ensures min.Some? ==> IsMin(entries, min.value.holder) && min.value == RowOf(entries, min.value.holder)
  {
    min := None;
    var todo := entries.Keys;
    while todo != {}
      invariant todo <= entries.Keys
      invariant min.None? <==> todo == entries.Keys
      invariant min.Some? ==> min.value.holder in entries && min.value == RowOf(entries, min.value.holder)
      invariant min.Some? ==>
        forall g :: g in entries && g !in todo && g != min.value.holder ==> Below(min.value, RowOf(entries, g))
      invariant min.Some? ==> min.value.holder !in todo
      decreases todo
    {
      var h :| h in todo;
      todo := todo - {h};
      var row := RowOf(entries, h);
      if min.None? || Below(row, min.value) {
        min := Some(row);
      }
    }
  }

  class MintTop {
    var entries: map<Holder, Entry>
    var cachedMin: Option<Row>
    var droppedFloor: nat
    var stale: bool
    var lastRecord: seq<Row>

    ghost predicate Valid()
      reads this
    {
      && (cachedMin.None? <==> entries.Keys == {})
      && (cachedMin.Some? ==>
        IsMin(entries, cachedMin.value.holder) && cachedMin.value == RowOf(entries, cachedMin.value.holder))
      && (stale ==> lastRecord == [])
    }

    function Value(): Top
      reads this
    {
      Top(entries, droppedFloor)
    }

    constructor ()
      ensures Valid() && Value() == Top(map[], 0) && !stale && lastRecord == []
    {
      entries, cachedMin, droppedFloor, stale, lastRecord := map[], None, 0, false, [];
    }

    method RefreshCachedMin()
      requires stale ==> lastRecord == []
      modifies this`cachedMin
      ensures Valid()
    {
      cachedMin := MinEntry(entries);
    }

    /** A mint is touched exactly when its reservoir changed. */
    method RemoveMember(h: Holder, stamp: Version) returns (touched: bool)
      requires Valid()
      modifies this`entries, this`cachedMin
      ensures Valid() && Value() == Removed(old(Value()), h, stamp)
      ensures touched <==> Value() != old(Value())
    {
      touched := h in entries && Older(entries[h].stamp, stamp);
      if touched {
        assert h in entries.Keys;
        entries := entries - {h};
        assert h !in entries;
        if cachedMin.Some? && cachedMin.value.holder == h {
          RefreshCachedMin();
        } else {
          assert cachedMin.value.holder in entries.Keys;
        }
      }
    }

    /** Puts an entry in, keeping the cached minimum without a scan where that is possible. */
    method PutMember(h: Holder, e: Entry)
      requires Valid()
      modifies this`entries, this`cachedMin
      ensures Valid() && entries == old(entries)[h := e]
    {
      entries := entries[h := e];
      assert h in entries.Keys;
      if cachedMin.Some? && cachedMin.value.holder == h {
        RefreshCachedMin();
      } else if cachedMin.None? || Below(Row(h, e.amount), cachedMin.value) {
        cachedMin := Some(Row(h, e.amount));
      }
    }

    /** Raises the floor to an amount that is not kept. */
    method Drop(amount: nat) returns (touched: bool)
      requires Valid()
      modifies this`droppedFloor
      ensures Valid() && droppedFloor == Max(old(droppedFloor), amount)
      ensures touched <==> droppedFloor != old(droppedFloor)
    {
      touched := amount > droppedFloor;
      if touched {
        droppedFloor := amount;
      }
    }

    method ApplyUpdate(h: Holder, e: Entry, tombstone: Option<Version>, seeding: bool, oldBlock: bool, k: nat)
      returns (touched: bool)
      requires Valid() && k > 0
      modifies this`entries, this`cachedMin, this`droppedFloor
      ensures Valid()
      ensures seeding && Hidden(tombstone, e.stamp) ==> Value() == old(Value())
      ensures !(seeding && Hidden(tombstone, e.stamp)) ==> Updated(old(Value()), Value(), h, e, seeding, oldBlock, k)
      ensures touched <==> Value() != old(Value())
    {
      touched := false;
      if seeding && Hidden(tombstone, e.stamp) {
        return;
      }
      if h in entries {
        if Older(entries[h].stamp, e.stamp) {
          PutMember(h, e);
          assert entries[h] != old(entries[h]);
          touched := true;
        }
        return;
      }
      if oldBlock {
        touched := Drop(e.amount);
        return;
      }
      if seeding || |entries| < k {
        PutMember(h, e);
        assert h in entries && h !in old(entries);
        return true;
      }
      touched := Displace(h, e);
    }

    /** The branch of a full reservoir. */
    method Displace(h: Holder, e: Entry) returns (touched: bool)
      requires Valid() && entries.Keys != {} && h !in entries
      modifies this`entries, this`cachedMin, this`droppedFloor
      ensures Valid()
      ensures exists m :: IsMin(old(entries), m) && Value() == Displaced(old(Value()), m, h, e)
      ensures touched <==> Value() != old(Value())
    {
      var min := cachedMin.value;
      assert IsMin(entries, min.holder);
      if e.amount <= min.amount {
        touched := Drop(e.amount);
        return;
      }
      entries := (entries - {min.holder})[h := e];
      droppedFloor := Max(droppedFloor, min.amount);
      assert h in entries && h !in old(entries);
      RefreshCachedMin();
      touched := true;
    }

    /** `trim`: the smallest members go until `k` are left, and the floor remembers the largest of them. */
    method Trim(k: nat)
      requires Valid()
      modifies this`entries, this`cachedMin, this`droppedFloor
      ensures Valid() && Trimmed(old(Value()), Value(), k)
    {
      while |entries| > k
        invariant Valid() && Trimming(old(Value()), Value()) && stale == old(stale) && lastRecord == old(lastRecord)
        invariant |entries| >= k || Value() == old(Value())
        decreases |entries|
      {
        var min := cachedMin.value;
        TrimmingNext(old(Value()), Value(), min.holder);
        entries := entries - {min.holder};
        droppedFloor := Max(droppedFloor, min.amount);
        RefreshCachedMin();
      }
    }

    /**
     `emit`: what is served afterwards is the reported rows, or nothing when they cannot be vouched for, and the
     emission says how to get there from what was served before.
     */
    method Emit() returns (emission: Emission)
      requires Valid()
      modifies this`stale, this`lastRecord
      ensures Valid()
      ensures ServedFor(Value(), lastRecord)
      ensures lastRecord == Served(old(lastRecord), emission)
      ensures exists rows ::
        Computed(Value(), rows) && EmittedFor(rows, droppedFloor, old(stale), old(lastRecord), emission, stale, lastRecord)
    {
      ghost var t := Value();
      var rows, sound := ComputeTop(Value(), PERSISTED_TOP_N);
      assert Computed(t, rows) && (Reports(rows, t.floor, PERSISTED_TOP_N) <==> sound);
      if !sound {
        assert ServedFor(t, []);
        if stale {
          return Unchanged;
        }
        stale, lastRecord := true, [];
        return NewlyStale;
      }
      assert ServedFor(t, rows);
      stale := false;
      if rows == lastRecord {
        return Unchanged;
      }
      lastRecord := rows;
      emission := if rows == [] then Cleared else Record(rows);
    }
  }

  /** What a block asks the persistence layer to do for a mint. */
  datatype Emission = Unchanged | NewlyStale | Cleared | Record(rows: seq<Row>)

  /**
   Rows that cannot be vouched for make the mint stale, which is said once. Others end that, and are said if they differ
   from those said last: as cleared when there are none.
   */
  predicate EmittedFor(
    rows: seq<Row>, floor: nat, wasStale: bool, before: seq<Row>, emission: Emission, isStale: bool, after: seq<Row>)
  {
    if !Reports(rows, floor, PERSISTED_TOP_N) then
      isStale && after == [] && emission == if wasStale then Unchanged else NewlyStale
    else
      && !isStale && after == rows
      && emission == if rows == before then Unchanged else if rows == [] then Cleared else Record(rows)
  }

  /** Stale and cleared mints lose their rows. */
  function Served(before: seq<Row>, emission: Emission): seq<Row>
  {
    match emission
    case Unchanged => before
    case NewlyStale => []
    case Cleared => []
    case Record(rows) => rows
  }

  ghost predicate Computed(t: Top, rows: seq<Row>)
  {
    IsTop(rows, Amounts(t.entries), PERSISTED_TOP_N)
  }

  /** The rows served for a reservoir: its first rows, or none when they cannot be vouched for. */
  ghost predicate ServedFor(t: Top, served: seq<Row>)
  {
    exists rows :: Computed(t, rows) && served == if Reports(rows, t.floor, PERSISTED_TOP_N) then rows else []
  }

  /******* The rows that are reported *******/

  ghost predicate Descending(rows: seq<Row>)
  {
    forall i, j :: 0 <= i < j < |rows| ==> Below(rows[j], rows[i])
  }

  ghost function Amounts(entries: map<Holder, Entry>): map<Holder, nat>
  {
    map h | h in entries :: entries[h].amount
  }

  ghost predicate Listed(rows: seq<Row>, h: Holder)
  {
    exists i :: 0 <= i < |rows| && rows[i].holder == h
  }

  /** The first `n` rows in descending order. */
  ghost predicate IsTop(rows: seq<Row>, holders: map<Holder, nat>, n: nat)
  {
    && Descending(rows)
    && |rows| == Min(n, |holders|)
    && (forall i :: 0 <= i < |rows| ==> rows[i].holder in holders && rows[i].amount == holders[rows[i].holder])
    && (forall i, h :: 0 <= i < |rows| && h in holders && !Listed(rows, h) ==> Below(Row(h, holders[h]), rows[i]))
  }

  /** The first `n` rows up to the order of equal amounts; a list shorter than `n` may omit only empty holders. */
  ghost predicate IsTopByAmount(rows: seq<Row>, holders: map<Holder, nat>, n: nat)
  {
    && Descending(rows)
    && |rows| <= n
    && (forall i :: 0 <= i < |rows| ==> rows[i].holder in holders && rows[i].amount == holders[rows[i].holder])
    && (forall h :: h in holders && !Listed(rows, h) ==> Omittable(rows, n, holders[h]))
  }

  predicate Omittable(rows: seq<Row>, n: nat, amount: nat)
  {
    amount == 0 || (|rows| == n > 0 && amount <= rows[n - 1].amount)
  }

  /** When `compute_top` reports its rows. */
  predicate Reports(rows: seq<Row>, floor: nat, n: nat)
  {
    && (|rows| < n ==> floor == 0)
    && (rows != [] ==> rows[|rows| - 1].amount >= floor)
  }

  /** What the unseen holders may be, for all the reservoir knows. */
  ghost predicate Possible(t: Top, holders: map<Holder, nat>)
  {
    && (forall h :: h in t.entries ==> h in holders && holders[h] == t.entries[h].amount)
    && (forall h :: h in holders && h !in t.entries ==> holders[h] <= t.floor)
  }

  /******* Sound and exact answers *******/

  lemma FreshHolder(entries: map<Holder, Entry>) returns (h: Holder)
    ensures forall g :: g in entries ==> g < h
  {
    h := 0;
    var todo := entries.Keys;
    while todo != {}
      invariant forall g :: g in entries && g !in todo ==> g < h
      decreases todo
    {
      var g :| g in todo;
      todo := todo - {g};
      h := Max(h, g + 1);
    }
  }

  lemma PossibleWithFresh(t: Top, h: Holder, amount: nat)
    requires h !in t.entries && amount <= t.floor
    ensures Possible(t, Amounts(t.entries)[h := amount])
    ensures |Amounts(t.entries)[h := amount]| == |t.entries| + 1
  {
    var m := Amounts(t.entries);
    assert m.Keys == t.entries.Keys;
    assert |m| == |m.Keys| && |t.entries| == |t.entries.Keys|;
    assert |m[h := amount]| == |m| + 1;
  }

  lemma RowsKnown(rows: seq<Row>, t: Top, n: nat, holders: map<Holder, nat>)
    requires IsTop(rows, Amounts(t.entries), n) && Possible(t, holders)
    ensures forall i :: 0 <= i < |rows| ==> rows[i].holder in holders && rows[i].amount == holders[rows[i].holder]
  {
    forall i | 0 <= i < |rows|
      ensures rows[i].holder in holders && rows[i].amount == holders[rows[i].holder]
    {
      assert rows[i].holder in Amounts(t.entries);
    }
  }

  /** The answer is reported exactly when it is a top by amount whatever the unseen holders are. */
  lemma ReportsIffProvable(rows: seq<Row>, t: Top, n: nat)
    requires n > 0 && IsTop(rows, Amounts(t.entries), n)
    ensures Reports(rows, t.floor, n) <==> forall holders :: Possible(t, holders) ==> IsTopByAmount(rows, holders, n)
  {
    if Reports(rows, t.floor, n) {
      forall holders | Possible(t, holders)
        ensures IsTopByAmount(rows, holders, n)
      {
        ReportedIsTop(rows, t, n, holders);
      }
    } else {
      var h := FreshHolder(t.entries);
      PossibleWithFresh(t, h, t.floor);
      var holders := Amounts(t.entries)[h := t.floor];
      forall i | 0 <= i < |rows|
        ensures rows[i].holder != h
      {
        assert rows[i].holder in Amounts(t.entries);
      }
      assert !Listed(rows, h);
      assert holders[h] == t.floor && !Omittable(rows, n, t.floor);
      assert !IsTopByAmount(rows, holders, n);
    }
  }

  lemma ReportedIsTop(rows: seq<Row>, t: Top, n: nat, holders: map<Holder, nat>)
    requires n > 0 && IsTop(rows, Amounts(t.entries), n) && Reports(rows, t.floor, n) && Possible(t, holders)
    ensures IsTopByAmount(rows, holders, n)
  {
    RowsKnown(rows, t, n, holders);
    forall h | h in holders && !Listed(rows, h)
      ensures Omittable(rows, n, holders[h])
    {
      if h in t.entries {
        assert h in Amounts(t.entries);
        if |rows| < n {
          AllListed(rows, t, n, h);
        } else {
          assert Below(Row(h, Amounts(t.entries)[h]), rows[n - 1]);
        }
      }
    }
  }

  /** With fewer members than rows every member is listed. */
  lemma AllListed(rows: seq<Row>, t: Top, n: nat, h: Holder)
    requires IsTop(rows, Amounts(t.entries), n) && |rows| < n && h in t.entries
    ensures Listed(rows, h)
  {
    var keys := Amounts(t.entries).Keys;
    assert |keys| == |Amounts(t.entries)|;
    var listed := ListedHolders(rows, |rows|);
    ListedSize(rows, |rows|);
    assert listed <= keys;
    SubsetSize(listed, keys);
    assert h in listed;
  }

  ghost function ListedHolders(rows: seq<Row>, n: nat): set<Holder>
    requires n <= |rows|
  {
    set i | 0 <= i < n :: rows[i].holder
  }

  lemma {:induction false} ListedSize(rows: seq<Row>, n: nat)
    requires n <= |rows|
    requires forall i, j :: 0 <= i < j < |rows| ==> rows[i].holder != rows[j].holder
    ensures |ListedHolders(rows, n)| == n
  {
    if n > 0 {
      ListedSize(rows, n - 1);
      assert ListedHolders(rows, n) == ListedHolders(rows, n - 1) + {rows[n - 1].holder};
    }
  }

  /** The order is right too, whatever the unseen holders are, exactly when the last of all rows is above the floor. */
  lemma ExactIff(rows: seq<Row>, t: Top, n: nat)
    requires n > 0 && IsTop(rows, Amounts(t.entries), n)
    ensures |rows| == n && rows[n - 1].amount > t.floor <==>
      forall holders :: Possible(t, holders) ==> IsTop(rows, holders, n)
  {
    if |rows| == n && rows[n - 1].amount > t.floor {
      forall holders | Possible(t, holders)
        ensures IsTop(rows, holders, n)
      {
        AboveFloorIsTop(rows, t, n, holders);
      }
    } else {
      var h := FreshHolder(t.entries);
      PossibleWithFresh(t, h, t.floor);
      var holders := Amounts(t.entries)[h := t.floor];
      if |rows| == n {
        NotListed(rows, t, n, h);
        assert !Below(Row(h, holders[h]), rows[n - 1]);
      } else {
        assert |Amounts(t.entries)| == |t.entries|;
      }
      assert !IsTop(rows, holders, n);
    }
  }

  lemma NotListed(rows: seq<Row>, t: Top, n: nat, h: Holder)
    requires IsTop(rows, Amounts(t.entries), n) && forall g :: g in t.entries ==> g < h
    ensures !Listed(rows, h)
    ensures forall i :: 0 <= i < |rows| ==> rows[i].holder < h
  {
    forall i | 0 <= i < |rows|
      ensures rows[i].holder < h
    {
      assert rows[i].holder in Amounts(t.entries);
    }
  }

  lemma AboveFloorIsTop(rows: seq<Row>, t: Top, n: nat, holders: map<Holder, nat>)
    requires n > 0 && IsTop(rows, Amounts(t.entries), n) && Possible(t, holders)
    requires |rows| == n && rows[n - 1].amount > t.floor
    ensures IsTop(rows, holders, n)
  {
    RowsKnown(rows, t, n, holders);
    MembersFit(t, holders);
    forall i, h | 0 <= i < |rows| && h in holders && !Listed(rows, h)
      ensures Below(Row(h, holders[h]), rows[i])
    {
      assert i < n - 1 ==> Below(rows[n - 1], rows[i]);
      if h in t.entries {
        assert h in Amounts(t.entries);
        assert Below(Row(h, Amounts(t.entries)[h]), rows[i]);
      }
    }
  }

  lemma MembersFit(t: Top, holders: map<Holder, nat>)
    requires Possible(t, holders)
    ensures |Amounts(t.entries)| <= |holders|
  {
    assert Amounts(t.entries).Keys <= holders.Keys;
    SubsetSize(Amounts(t.entries).Keys, holders.Keys);
    assert |Amounts(t.entries)| == |Amounts(t.entries).Keys| && |holders| == |holders.Keys|;
  }

  /******* Sorting and truncating *******/

  predicate IsLargest(entries: map<Holder, Entry>, left: set<Holder>, h: Holder)
    requires left <= entries.Keys
  {
    h in left && forall g :: g in left && g != h ==> Below(RowOf(entries, g), RowOf(entries, h))
  }

  method LargestOf(entries: map<Holder, Entry>, left: set<Holder>) returns (h: Holder)
    requires left <= entries.Keys && left != {}
    ensures IsLargest(entries, left, h)
  {
    h :| h in left;
    var todo := left - {h};
    while todo != {}
      invariant todo <= left && h in left && h !in todo
      invariant forall g :: g in left && g !in todo && g != h ==> Below(RowOf(entries, g), RowOf(entries, h))
      decreases todo
    {
      var g :| g in todo;
      todo := todo - {g};
      if Below(RowOf(entries, h), RowOf(entries, g)) {
        h := g;
      }
    }
  }

  /** The rows taken so far, in order, above everything that is left. */
  ghost predicate Taken(entries: map<Holder, Entry>, rows: seq<Row>, left: set<Holder>)
  {
    && Descending(rows)
    && left <= entries.Keys
    && (forall i :: 0 <= i < |rows| ==> rows[i].holder in entries && rows[i] == RowOf(entries, rows[i].holder))
    && (forall h :: h in entries ==> (h in left <==> !Listed(rows, h)))
    && (forall i, h :: 0 <= i < |rows| && h in left ==> Below(RowOf(entries, h), rows[i]))
    && |rows| + |left| == |entries|
  }

  lemma TakenNext(entries: map<Holder, Entry>, rows: seq<Row>, left: set<Holder>, h: Holder)
    requires Taken(entries, rows, left) && IsLargest(entries, left, h)
    ensures Taken(entries, rows + [RowOf(entries, h)], left - {h})
  {
    var more := rows + [RowOf(entries, h)];
    forall g | g in entries
      ensures g in left - {h} <==> !Listed(more, g)
    {
      if Listed(rows, g) {
        var i :| 0 <= i < |rows| && rows[i].holder == g;
        assert more[i].holder == g;
      } else if g == h {
        assert more[|rows|].holder == g;
      }
    }
  }

  /** `compute_top`: the rows in descending order, cut to `n`, or nothing when they cannot be vouched for. */
  method ComputeTop(t: Top, n: nat) returns (rows: seq<Row>, sound: bool)
    ensures IsTop(rows, Amounts(t.entries), n)
    ensures sound <==> Reports(rows, t.floor, n)
  {
    rows := [];
    var left := t.entries.Keys;
    while |rows| < n && left != {}
      invariant |rows| <= n && Taken(t.entries, rows, left)
      decreases left
    {
      var h := LargestOf(t.entries, left);
      TakenNext(t.entries, rows, left, h);
      rows, left := rows + [RowOf(t.entries, h)], left - {h};
    }
    TakenIsTop(t.entries, rows, left, n);
    if |rows| < n && t.floor > 0 {
      return rows, false;
    }
    if rows != [] && rows[|rows| - 1].amount < t.floor {
      return rows, false;
    }
    sound := true;
  }

  lemma TakenIsTop(entries: map<Holder, Entry>, rows: seq<Row>, left: set<Holder>, n: nat)
    requires Taken(entries, rows, left) && |rows| <= n && (|rows| == n || left == {})
    ensures IsTop(rows, Amounts(entries), n)
  {
    assert Amounts(entries).Keys == entries.Keys;
    assert |Amounts(entries)| == |Amounts(entries).Keys| && |entries| == |entries.Keys|;
    forall i | 0 <= i < |rows|
      ensures rows[i].holder in Amounts(entries) && rows[i].amount == Amounts(entries)[rows[i].holder]
    {
      assert rows[i].holder in entries;
    }
  }

  lemma {:induction false} SomeMaximum(m: map<Holder, Entry>, left: set<Holder>) returns (x: Holder)
    requires left <= m.Keys && left != {}
    ensures IsLargest(m, left, x)
    decreases left
  {
    x :| x in left;
    if left != {x} {
      var y := SomeMaximum(m, left - {x});
      if Below(RowOf(m, x), RowOf(m, y)) {
        x := y;
      }
    }
  }

  /** Every reservoir has first rows. */
  lemma {:induction false} SomeTaken(entries: map<Holder, Entry>, n: nat) returns (rows: seq<Row>, left: set<Holder>)
    ensures Taken(entries, rows, left) && |rows| <= n && (|rows| == n || left == {})
  {
    if n == 0 {
      rows, left := [], entries.Keys;
    } else {
      rows, left := SomeTaken(entries, n - 1);
      if |rows| == n - 1 && left != {} {
        var h := SomeMaximum(entries, left);
        TakenNext(entries, rows, left, h);
        rows, left := rows + [RowOf(entries, h)], left - {h};
      }
    }
  }

  lemma SomeTop(t: Top) returns (rows: seq<Row>)
    ensures Computed(t, rows)
  {
    var left;
    rows, left := SomeTaken(t.entries, PERSISTED_TOP_N);
    TakenIsTop(t.entries, rows, left, PERSISTED_TOP_N);
  }
}
