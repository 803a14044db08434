/** The counters of the snapshot diff, and the whole run over the prefixes of the key space. */
module DiffTotals {
  import opened Basics
  import opened Programs
  import opened SnapshotRecords
  import opened DiffRecords
  import opened KeySpace
  import opened SnapshotDiff

  datatype Totals = Totals(matched: nat, mismatched: nat, onlySnap: nat, onlyDb: nat)

  function Plus(a: Totals, b: Totals): Totals
  {
    Totals(a.matched + b.matched, a.mismatched + b.mismatched, a.onlySnap + b.onlySnap, a.onlyDb + b.onlyDb)
  }

  type Hashes = map<Pubkey, Hash>

  function Equal<K, V(==)>(a: map<K, V>, b: map<K, V>): set<K>
  {
    set k | k in a && k in b && a[k] == b[k]
  }

  function Different<K, V(==)>(a: map<K, V>, b: map<K, V>): set<K>
  {
    set k | k in a && k in b && a[k] != b[k]
  }

  function Only<K, V>(a: map<K, V>, b: map<K, V>): set<K>
  {
    set k | k in a && k !in b
  }

  /** The four counters, as sizes of sets of keys. */
  function TotalsOf<K, V(==)>(snap: map<K, V>, db: map<K, V>): Totals
  {
    Totals(|Equal(snap, db)|, |Different(snap, db)|, |Only(snap, db)|, |Only(db, snap)|)
  }

  /** Every key of either side is counted once; nothing but matches is counted exactly when the sides agree. */
  lemma DiffAccounting<K, V>(snap: map<K, V>, db: map<K, V>)
    ensures var t := TotalsOf(snap, db);
      && t.matched + t.mismatched + t.onlySnap == |snap|
      && t.matched + t.mismatched + t.onlyDb == |db|
      && (t.mismatched == 0 && t.onlySnap == 0 && t.onlyDb == 0 <==> snap == db)
  {
    KeysOfOneSide(snap, db);
    KeysOfOneSide(db, snap);
    assert Equal(snap, db) == Equal(db, snap) && Different(snap, db) == Different(db, snap);
    AgreeingSides(snap, db);
  }

  lemma KeysOfOneSide<K, V>(a: map<K, V>, b: map<K, V>)
    ensures |Equal(a, b)| + |Different(a, b)| + |Only(a, b)| == |a|
  {
    var both := Equal(a, b) + Different(a, b);
    assert both + Only(a, b) == a.Keys && both !! Only(a, b);
    assert |a| == |a.Keys|;
  }

  lemma AgreeingSides<K, V>(a: map<K, V>, b: map<K, V>)
    ensures Different(a, b) == {} && Only(a, b) == {} && Only(b, a) == {} <==> a == b
  {
    if Different(a, b) == {} && Only(a, b) == {} && Only(b, a) == {} {
      assert forall k :: k in a ==> k !in Only(a, b) && k !in Different(a, b);
      assert forall k :: k in b ==> k !in Only(b, a);
    }
  }

  /** The keys of two parts of the key space. */
  predicate Apart<K, V>(a: map<K, V>, b: map<K, V>, p: map<K, V>, q: map<K, V>)
  {
    a.Keys !! p.Keys && a.Keys !! q.Keys && b.Keys !! p.Keys && b.Keys !! q.Keys
  }

  /** The counters of two parts of the key space add up. */
  lemma TotalsAdd<K, V>(a: map<K, V>, b: map<K, V>, p: map<K, V>, q: map<K, V>)
    requires Apart(a, b, p, q)
    ensures TotalsOf(a + p, b + q) == Plus(TotalsOf(a, b), TotalsOf(p, q))
  {
    EqualAdds(a, b, p, q);
    DifferentAdds(a, b, p, q);
    OnlyAdds(a, b, p, q);
    OnlyAdds(b, a, q, p);
  }

  lemma UnionSize<K>(whole: set<K>, a: set<K>, b: set<K>)
    requires a !! b
    requires forall k :: k in whole <==> k in a || k in b
    ensures |whole| == |a| + |b|
  {
    assert whole == a + b;
  }

  lemma EqualAdds<K, V>(a: map<K, V>, b: map<K, V>, p: map<K, V>, q: map<K, V>)
    requires Apart(a, b, p, q)
    ensures |Equal(a + p, b + q)| == |Equal(a, b)| + |Equal(p, q)|
  {
    UnionSize(Equal(a + p, b + q), Equal(a, b), Equal(p, q));
  }

  lemma DifferentAdds<K, V>(a: map<K, V>, b: map<K, V>, p: map<K, V>, q: map<K, V>)
    requires Apart(a, b, p, q)
    ensures |Different(a + p, b + q)| == |Different(a, b)| + |Different(p, q)|
  {
    UnionSize(Different(a + p, b + q), Different(a, b), Different(p, q));
  }

  lemma OnlyAdds<K, V>(a: map<K, V>, b: map<K, V>, p: map<K, V>, q: map<K, V>)
    requires Apart(a, b, p, q)
    ensures |Only(a + p, b + q)| == |Only(a, b)| + |Only(p, q)|
  {
    UnionSize(Only(a + p, b + q), Only(a, b), Only(p, q));
  }

  /******* The counting loops of one prefix *******/

  /** The loop over the snapshot side visits its keys in any order. */
  method CountSnapshot<K(==), V(==)>(snap: map<K, V>, db: map<K, V>, before: Totals) returns (t: Totals)
    ensures t == Totals(
      before.matched + |Equal(snap, db)|, before.mismatched + |Different(snap, db)|,
      before.onlySnap + |Only(snap, db)|, before.onlyDb)
  {
    t := before;
    var todo := snap.Keys;
    ghost var done: map<K, V> := map[];
    while todo != {}
      invariant todo <= snap.Keys && done == snap - todo
      invariant t == Totals(
        before.matched + |Equal(done, db)|, before.mismatched + |Different(done, db)|,
        before.onlySnap + |Only(done, db)|, before.onlyDb)
      decreases todo
    {
      var k :| k in todo;
      CountOne(done, db, k, snap[k]);
      done := done[k := snap[k]];
      if k !in db {
        t := t.(onlySnap := t.onlySnap + 1);
      } else if db[k] == snap[k] {
        t := t.(matched := t.matched + 1);
      } else {
        t := t.(mismatched := t.mismatched + 1);
      }
      todo := todo - {k};
    }
    assert done == snap;
  }

  /** Counting one more key of the snapshot side. */
  lemma CountOne<K, V>(done: map<K, V>, db: map<K, V>, k: K, v: V)
    requires k !in done
    ensures |Equal(done[k := v], db)| == |Equal(done, db)| + if k in db && db[k] == v then 1 else 0
    ensures |Different(done[k := v], db)| == |Different(done, db)| + if k in db && db[k] != v then 1 else 0
    ensures |Only(done[k := v], db)| == |Only(done, db)| + if k !in db then 1 else 0
  {
    if k in db && db[k] == v {
      UnionSize(Equal(done[k := v], db), Equal(done, db), {k});
    } else {
      SameSet(Equal(done[k := v], db), Equal(done, db));
    }
    if k in db && db[k] != v {
      UnionSize(Different(done[k := v], db), Different(done, db), {k});
    } else {
      SameSet(Different(done[k := v], db), Different(done, db));
    }
    if k !in db {
      UnionSize(Only(done[k := v], db), Only(done, db), {k});
    } else {
      SameSet(Only(done[k := v], db), Only(done, db));
    }
  }

  lemma SameSet<K>(a: set<K>, b: set<K>)
    requires forall k :: k in a <==> k in b
    ensures a == b
  {
  }

  /** The loop over the database side counts only the keys the snapshot lacks. */
  method CountDatabase<K(==), V>(snap: map<K, V>, db: map<K, V>, before: Totals) returns (t: Totals)
    ensures t == before.(onlyDb := before.onlyDb + |Only(db, snap)|)
  {
    t := before;
    var todo := db.Keys;
    ghost var found: set<K> := {};
    while todo != {}
      invariant todo <= db.Keys
      invariant found == Only(db, snap) - todo
      invariant t == before.(onlyDb := before.onlyDb + |found|)
      decreases todo
    {
      var k :| k in todo;
      todo := todo - {k};
      if k !in snap {
        t := t.(onlyDb := t.onlyDb + 1);
        found := found + {k};
      }
    }
    assert found == Only(db, snap);
  }

  /** One round of the comparison adds the counters of its prefix. */
  method CountPrefix<K(==), V(==)>(snap: map<K, V>, db: map<K, V>, before: Totals) returns (t: Totals)
    ensures t == Plus(before, TotalsOf(snap, db))
  {
    t := CountSnapshot(snap, db, before);
    t := CountDatabase(snap, db, t);
  }

  /******* The scan into prefix files *******/

  function FileOf(files: map<nat, Bytes>, prefix: nat): Bytes
  {
    if prefix in files then files[prefix] else []
  }

  lemma {:induction false} EncodeAllAppend(rs: seq<DiskRecord>, r: DiskRecord)
    ensures EncodeAll(rs + [r]) == EncodeAll(rs) + EncodeRecord(r)
  {
    if rs == [] {
      assert [r][1..] == [];
      assert [] + [r] == [r];
    } else {
      EncodeAllAppend(rs[1..], r);
      assert rs + [r] == [rs[0]] + (rs[1..] + [r]);
      assert EncodeAll(rs + [r]) == EncodeRecord(rs[0]) + (EncodeAll(rs[1..]) + EncodeRecord(r));
    }
  }

  predicate Wanted(only: Option<nat>, prefix: nat)
  {
    only.None? || only.value == prefix
  }

  /** After `n` versions, each wanted prefix file holds the encoding of its records. */
  ghost predicate FilesHold(
    hasher: ContentHasher, versions: seq<Record>, n: nat, programs: AccountSelector, only: Option<nat>,
    files: map<nat, Bytes>)
    requires n <= |versions|
  {
    forall p: nat :: Wanted(only, p) ==> FileOf(files, p) == EncodeAll(Records(hasher, versions, n, programs, p))
  }

  /** A writer exists for the prefixes that have a record. */
  ghost predicate WritersExist(
    hasher: ContentHasher, versions: seq<Record>, n: nat, programs: AccountSelector, only: Option<nat>,
    writers: map<nat, Bytes>)
    requires n <= |versions|
  {
    forall p: nat :: Wanted(only, p) ==> (p in writers <==> Records(hasher, versions, n, programs, p) != [])
  }

  /** What the file of a prefix holds after the scan: its records or, when it has none, what was there before. */
  function PrefixFile(
    hasher: ContentHasher, versions: seq<Record>, programs: AccountSelector, dir: map<nat, Bytes>, prefix: nat): Bytes
  {
    var records := Records(hasher, versions, |versions|, programs, prefix);
    if records == [] then FileOf(dir, prefix) else EncodeAll(records)
  }

  /**
   `scan_to_prefix_files` in a directory that may hold files of an earlier run: a writer is made, and truncates its
   file, on the first record of its prefix.
   */
  method ScanToPrefixFiles(
    hasher: ContentHasher, versions: seq<Record>, programs: AccountSelector, only: Option<nat>, dir: map<nat, Bytes>)
    returns (disk: map<nat, Bytes>)
    ensures forall p: nat :: Wanted(only, p) ==>
      FileOf(disk, p) == PrefixFile(hasher, versions, programs, dir, p)
    ensures only.Some? ==> SameElsewhere(disk, dir, only.value)
  {
    var writers := WriteRecords(hasher, versions, programs, only);
    disk := dir + writers;
    WritersReplace(hasher, versions, programs, only, dir, writers);
  }

  /** The scan: what the writers wrote, by prefix. */
  method WriteRecords(hasher: ContentHasher, versions: seq<Record>, programs: AccountSelector, only: Option<nat>)
    returns (writers: map<nat, Bytes>)
    ensures FilesHold(hasher, versions, |versions|, programs, only, writers)
    ensures WritersExist(hasher, versions, |versions|, programs, only, writers)
    ensures only.Some? ==> writers.Keys <= {only.value}
  {
    writers := map[];
    for i := 0 to |versions|
      invariant FilesHold(hasher, versions, i, programs, only, writers)
      invariant WritersExist(hasher, versions, i, programs, only, writers)
      invariant only.Some? ==> writers.Keys <= {only.value}
    {
      var v, p := versions[i], PrefixOf(versions[i].account.pubkey);
      FilesHoldNext(hasher, versions, i, programs, only, writers);
      WritersExistNext(hasher, versions, i, programs, only, writers);
      if Wanted(only, p) && programs.IsSelected(v.account.owner) {
        writers := writers[p := FileOf(writers, p) + EncodeRecord(ToDisk(hasher, v))];
      }
    }
  }

  /** The files of all prefixes but one are untouched. */
  ghost predicate SameElsewhere(disk: map<nat, Bytes>, dir: map<nat, Bytes>, prefix: nat)
  {
    forall p: nat :: p != prefix ==> FileOf(disk, p) == FileOf(dir, p)
  }

  lemma WritersReplace(
    hasher: ContentHasher, versions: seq<Record>, programs: AccountSelector, only: Option<nat>,
    dir: map<nat, Bytes>, writers: map<nat, Bytes>)
    requires FilesHold(hasher, versions, |versions|, programs, only, writers)
    requires WritersExist(hasher, versions, |versions|, programs, only, writers)
    ensures forall p: nat :: Wanted(only, p) ==>
      FileOf(dir + writers, p) == PrefixFile(hasher, versions, programs, dir, p)
  {
  }

  lemma WritersExistNext(
    hasher: ContentHasher, versions: seq<Record>, n: nat, programs: AccountSelector, only: Option<nat>,
    writers: map<nat, Bytes>)
    requires n < |versions| && WritersExist(hasher, versions, n, programs, only, writers)
    ensures var v, p := versions[n], PrefixOf(versions[n].account.pubkey);
      WritersExist(hasher, versions, n + 1, programs, only,
        if Wanted(only, p) && programs.IsSelected(v.account.owner) then
          writers[p := FileOf(writers, p) + EncodeRecord(ToDisk(hasher, v))]
        else writers)
  {
    var v, p := versions[n], PrefixOf(versions[n].account.pubkey);
    forall q: nat
      ensures Records(hasher, versions, n + 1, programs, q) != [] <==>
        Records(hasher, versions, n, programs, q) != [] || (q == p && programs.IsSelected(v.account.owner))
    {
      assert Written(v, programs, q) <==> q == p && programs.IsSelected(v.account.owner);
    }
  }

  lemma FilesHoldNext(
    hasher: ContentHasher, versions: seq<Record>, n: nat, programs: AccountSelector, only: Option<nat>,
    files: map<nat, Bytes>)
    requires n < |versions| && FilesHold(hasher, versions, n, programs, only, files)
    ensures var v, p := versions[n], PrefixOf(versions[n].account.pubkey);
      FilesHold(hasher, versions, n + 1, programs, only,
        if Wanted(only, p) && programs.IsSelected(v.account.owner) then
          files[p := FileOf(files, p) + EncodeRecord(ToDisk(hasher, v))]
        else files)
  {
    var v, p := versions[n], PrefixOf(versions[n].account.pubkey);
    EncodeAllAppend(Records(hasher, versions, n, programs, p), ToDisk(hasher, v));
    forall q: nat | q != p || !programs.IsSelected(v.account.owner)
      ensures Records(hasher, versions, n + 1, programs, q) == Records(hasher, versions, n, programs, q)
    {
      assert !Written(v, programs, q);
    }
  }

  /******* The run *******/

  /** The versions whose prefix is in `[low, high)`. */
  ghost function Between(vs: set<Record>, low: nat, high: nat): set<Record>
  {
    set v | v in vs && low <= PrefixOf(v.account.pubkey) < high
  }

  /** The versions of an account have one prefix, so its newest version can be found among those of the prefix. */
  lemma NewestInPart(vs: set<Record>, low: nat, high: nat, v: Record)
    requires low <= PrefixOf(v.account.pubkey) < high
    ensures IsNewest(Between(vs, low, high), v) <==> IsNewest(WithPrefix(vs, PrefixOf(v.account.pubkey)), v)
  {
    var whole, part := Between(vs, low, high), WithPrefix(vs, PrefixOf(v.account.pubkey));
    assert forall u: Record :: u.account.pubkey == v.account.pubkey ==> (u in whole <==> u in part);
  }

  /** What the database may answer to the query of each prefix. */
  ghost predicate Answers(
    rows: seq<seq<Record>>, table: set<Record>, targetSlot: nat, programs: AccountSelector)
  {
    && |rows| == PREFIXES
    && forall p :: 0 <= p < PREFIXES ==> DistinctOnPubkey(rows[p], Matching(table, targetSlot, p, programs))
  }

  ghost predicate Storable(hasher: ContentHasher, versions: seq<Record>)
  {
    forall i :: 0 <= i < |versions| ==> FitsU64(ToDisk(hasher, versions[i]))
  }

  function First(only: Option<nat>): nat
  {
    if only.Some? then only.value else 0
  }

  function Last(only: Option<nat>): nat
  {
    if only.Some? then only.value + 1 else PREFIXES
  }

  /** The totals are the counters of the comparison of the newest live accounts of the two sides. */
  ghost predicate ComparesNewestLive(hasher: ContentHasher, left: set<Record>, right: set<Record>, t: Totals)
  {
    exists snap: Hashes, db: Hashes ::
      Represents(snap, left, hasher) && Represents(db, right, hasher) && t == TotalsOf(snap, db)
  }

  /** Over the whole key space nothing is left out of the two sides. */
  lemma EveryKeyIsCompared(vs: set<Record>)
    ensures Between(vs, 0, PREFIXES) == vs
  {
  }

  /** The counters of the prefixes in `[low, high)`. */
  ghost function SumOver<K, V>(snap: nat -> map<K, V>, db: nat -> map<K, V>, low: nat, high: nat): Totals
    requires low <= high
  {
    if low == high then Totals(0, 0, 0, 0)
    else Plus(SumOver(snap, db, low, high - 1), TotalsOf(snap(high - 1), db(high - 1)))
  }

  /** What is loaded for each prefix. */
  ghost function SnapshotSides(
    hasher: ContentHasher, versions: seq<Record>, programs: AccountSelector, dir: map<nat, Bytes>): nat -> Hashes
  {
    (p: nat) => Load(PrefixFile(hasher, versions, programs, dir, p))
  }

  /** What the answers of the database give for each prefix. */
  ghost function DatabaseSides(hasher: ContentHasher, rows: seq<seq<Record>>): nat -> Hashes
  {
    (p: nat) => if p < |rows| then RowHashes(hasher, rows[p], |rows[p]|) else map[]
  }

  /** No file of an earlier run is counted: where the scan writes nothing, nothing live is loaded. */
  ghost predicate NoLeftovers(
    hasher: ContentHasher, versions: seq<Record>, programs: AccountSelector, only: Option<nat>, dir: map<nat, Bytes>)
  {
    forall p: nat | First(only) <= p < Last(only) && Records(hasher, versions, |versions|, programs, p) == [] ::
      Load(FileOf(dir, p)) == map[]
  }

  /**
   The whole diff, over the one prefix asked for or over every key, in a directory that may hold files of an earlier
   run. Without left-overs the totals compare the newest live selected accounts of snapshot and database.
   */
  method RunDiff(
    hasher: ContentHasher, versions: seq<Record>, programs: AccountSelector, only: Option<nat>, dir: map<nat, Bytes>,
    rows: seq<seq<Record>>, ghost table: set<Record>, targetSlot: nat)
    returns (t: Totals)
    requires only.Some? ==> only.value < PREFIXES
    requires UniqueVersionsOf(Elements(versions)) && Storable(hasher, versions)
    requires UniqueVersionsOf(table) && Answers(rows, table, targetSlot, programs)
    ensures t == SumOver(
      SnapshotSides(hasher, versions, programs, dir), DatabaseSides(hasher, rows), First(only), Last(only))
    ensures NoLeftovers(hasher, versions, programs, only, dir) ==> ComparesNewestLive(
      hasher,
      Between(Selected(Elements(versions), programs), First(only), Last(only)),
      Between(Selected(UpTo(table, targetSlot), programs), First(only), Last(only)),
      t)
    ensures NoLeftovers(hasher, versions, programs, only, dir) && only.None? ==>
      ComparesNewestLive(hasher, Selected(Elements(versions), programs), Selected(UpTo(table, targetSlot), programs), t)
    ensures NoLeftovers(hasher, versions, programs, only, dir) && only.Some? ==> ComparesNewestLive(
      hasher,
      WithPrefix(Selected(Elements(versions), programs), only.value),
      WithPrefix(Selected(UpTo(table, targetSlot), programs), only.value),
      t)
  {
    t := SumPrefixes(hasher, versions, programs, only, dir, rows);
    if NoLeftovers(hasher, versions, programs, only, dir) {
      CleanSumCompares(hasher, versions, programs, only, dir, rows, table, targetSlot);
    }
    RangeCompared(Selected(Elements(versions), programs), only);
    RangeCompared(Selected(UpTo(table, targetSlot), programs), only);
  }

  lemma RangeCompared(vs: set<Record>, only: Option<nat>)
    requires only.Some? ==> only.value < PREFIXES
    ensures Between(vs, First(only), Last(only)) == if only.Some? then WithPrefix(vs, only.value) else vs
  {
    EveryKeyIsCompared(vs);
  }

  /** One prefix: its file is loaded and compared with the rows of the database. */
  method ComparePrefix(hasher: ContentHasher, data: Bytes, rows: seq<Record>, before: Totals) returns (t: Totals)
    ensures t == Plus(before, TotalsOf(Load(data), RowHashes(hasher, rows, |rows|)))
  {
    var s := LoadDeduped(data);
    var d := CollectRows(hasher, rows);
    t := CountPrefix(s, d, before);
  }

  /** The scan and the loop over the prefixes. */
  method SumPrefixes(
    hasher: ContentHasher, versions: seq<Record>, programs: AccountSelector, only: Option<nat>, dir: map<nat, Bytes>,
    rows: seq<seq<Record>>)
    returns (t: Totals)
    requires (only.Some? ==> only.value < PREFIXES) && |rows| == PREFIXES
    ensures t == SumOver(
      SnapshotSides(hasher, versions, programs, dir), DatabaseSides(hasher, rows), First(only), Last(only))
  {
    var disk := ScanToPrefixFiles(hasher, versions, programs, only, dir);
    SidesAreLoaded(hasher, versions, programs, only, dir, rows, disk);
    t := CompareAll(
      hasher, disk, rows, First(only), Last(only), SnapshotSides(hasher, versions, programs, dir),
      DatabaseSides(hasher, rows));
  }

  /** The sides of a prefix are what its file and its rows give. */
  ghost predicate AreSides(
    hasher: ContentHasher, disk: map<nat, Bytes>, rows: seq<seq<Record>>, snaps: nat -> Hashes, dbs: nat -> Hashes,
    p: nat)
    requires p < |rows|
  {
    snaps(p) == Load(FileOf(disk, p)) && dbs(p) == RowHashes(hasher, rows[p], |rows[p]|)
  }

  lemma SidesAreLoaded(
    hasher: ContentHasher, versions: seq<Record>, programs: AccountSelector, only: Option<nat>, dir: map<nat, Bytes>,
    rows: seq<seq<Record>>, disk: map<nat, Bytes>)
    requires (only.Some? ==> only.value < PREFIXES) && |rows| == PREFIXES
    requires forall p: nat :: Wanted(only, p) ==> FileOf(disk, p) == PrefixFile(hasher, versions, programs, dir, p)
    ensures forall p: nat | First(only) <= p < Last(only) :: AreSides(
      hasher, disk, rows, SnapshotSides(hasher, versions, programs, dir), DatabaseSides(hasher, rows), p)
  {
  }

  /** The loop over the prefixes. */
  method CompareAll(
    hasher: ContentHasher, disk: map<nat, Bytes>, rows: seq<seq<Record>>, low: nat, high: nat,
    ghost snaps: nat -> Hashes, ghost dbs: nat -> Hashes)
    returns (t: Totals)
    requires low <= high <= |rows|
    requires forall p: nat | low <= p < high :: AreSides(hasher, disk, rows, snaps, dbs, p)
    ensures t == SumOver(snaps, dbs, low, high)
  {
    t := Totals(0, 0, 0, 0);
    for p := low to high
      invariant t == SumOver(snaps, dbs, low, p)
    {
      assert AreSides(hasher, disk, rows, snaps, dbs, p);
      SumNext(snaps, dbs, low, p);
      t := ComparePrefix(hasher, FileOf(disk, p), rows[p], t);
    }
  }

  lemma SumNext<K, V>(snaps: nat -> map<K, V>, dbs: nat -> map<K, V>, low: nat, p: nat)
    requires low <= p
    ensures SumOver(snaps, dbs, low, p + 1) == Plus(SumOver(snaps, dbs, low, p), TotalsOf(snaps(p), dbs(p)))
  {
  }

  /******* Without left-overs *******/

  lemma CleanSide(
    hasher: ContentHasher, versions: seq<Record>, programs: AccountSelector, only: Option<nat>, dir: map<nat, Bytes>,
    p: nat)
    requires UniqueVersionsOf(Elements(versions)) && Storable(hasher, versions)
    requires NoLeftovers(hasher, versions, programs, only, dir) && First(only) <= p < Last(only)
    ensures Represents(SnapshotSides(hasher, versions, programs, dir)(p), Chosen(versions, programs, p), hasher)
  {
    var records := Records(hasher, versions, |versions|, programs, p);
    LoadIsNewest(EncodeAll(records));
    PrefixFileRepresents(hasher, versions, programs, p, Load(EncodeAll(records)));
    if records == [] {
      LoadOfNothing();
    }
  }

  lemma LoadOfNothing()
    ensures EncodeAll([]) == [] && Load([]) == map[]
  {
    assert ParseAll([]) == [];
  }

  lemma DatabaseSideRepresents(
    hasher: ContentHasher, rows: seq<seq<Record>>, table: set<Record>, targetSlot: nat, programs: AccountSelector, p: nat)
    requires UniqueVersionsOf(table) && Answers(rows, table, targetSlot, programs) && p < PREFIXES
    ensures Represents(
      DatabaseSides(hasher, rows)(p), WithPrefix(Selected(UpTo(table, targetSlot), programs), p), hasher)
  {
    QuerySeesSelectedPrefix(table, targetSlot, p, programs);
    RowHashesRepresent(hasher, rows[p], Matching(table, targetSlot, p, programs));
  }

  /** The sides of the prefixes in `[low, high)`, put together. */
  ghost function Joined(sides: nat -> Hashes, low: nat, high: nat): Hashes
    requires low <= high
  {
    if low == high then map[] else Joined(sides, low, high - 1) + sides(high - 1)
  }

  /** Every prefix in `[low, high)` holds its newest live accounts. */
  ghost predicate SidesRepresent(hasher: ContentHasher, vs: set<Record>, sides: nat -> Hashes, low: nat, high: nat)
  {
    forall p: nat | low <= p < high :: Represents(sides(p), WithPrefix(vs, p), hasher)
  }

  ghost predicate KeysHavePrefix(sides: nat -> Hashes, low: nat, high: nat)
  {
    forall p: nat | low <= p < high :: AllWithPrefix(sides(p), p)
  }

  ghost predicate AllWithPrefix(m: Hashes, prefix: nat)
  {
    forall k :: k in m ==> PrefixOf(k) == prefix
  }

  lemma SidesHavePrefix(hasher: ContentHasher, vs: set<Record>, sides: nat -> Hashes, low: nat, high: nat)
    requires SidesRepresent(hasher, vs, sides, low, high)
    ensures KeysHavePrefix(sides, low, high)
  {
    forall p: nat | low <= p < high
      ensures AllWithPrefix(sides(p), p)
    {
      assert Represents(sides(p), WithPrefix(vs, p), hasher);
    }
  }

  /** Put together, the sides of the prefixes keep what each of them holds. */
  lemma {:induction false} JoinedAt(sides: nat -> Hashes, low: nat, high: nat, k: Pubkey)
    requires low <= high && KeysHavePrefix(sides, low, high)
    ensures var p := PrefixOf(k);
      (k in Joined(sides, low, high) <==> low <= p < high && k in sides(p)) &&
      (k in Joined(sides, low, high) ==> Joined(sides, low, high)[k] == sides(p)[k])
  {
    if low < high {
      JoinedAt(sides, low, high - 1, k);
    }
  }

  lemma JoinedRepresents(hasher: ContentHasher, vs: set<Record>, sides: nat -> Hashes, low: nat, high: nat)
    requires low <= high && SidesRepresent(hasher, vs, sides, low, high) && KeysHavePrefix(sides, low, high)
    ensures Represents(Joined(sides, low, high), Between(vs, low, high), hasher)
  {
    var joined := Joined(sides, low, high);
    forall v | IsNewest(Between(vs, low, high), v) && v.account.lamports > 0
      ensures v.account.pubkey in joined && joined[v.account.pubkey] == ContentHash(hasher, v)
    {
      var k := v.account.pubkey;
      NewestInPart(vs, low, high, v);
      JoinedAt(sides, low, high, k);
      assert Represents(sides(PrefixOf(k)), WithPrefix(vs, PrefixOf(k)), hasher);
    }
    forall k | k in joined
      ensures IsLive(Between(vs, low, high), k)
    {
      JoinedAt(sides, low, high, k);
      assert Represents(sides(PrefixOf(k)), WithPrefix(vs, PrefixOf(k)), hasher);
      LiveInPart(vs, low, high, k);
    }
  }

  lemma LiveInPart(vs: set<Record>, low: nat, high: nat, k: Pubkey)
    requires low <= PrefixOf(k) < high && IsLive(WithPrefix(vs, PrefixOf(k)), k)
    ensures IsLive(Between(vs, low, high), k)
  {
    var v :| IsNewest(WithPrefix(vs, PrefixOf(k)), v) && v.account.lamports > 0 && v.account.pubkey == k;
    NewestInPart(vs, low, high, v);
  }

  /** What is below a prefix has no key of the prefix. */
  lemma JoinedIsApart(sides: nat -> Hashes, low: nat, prefix: nat, part: Hashes)
    requires low <= prefix && KeysHavePrefix(sides, low, prefix) && AllWithPrefix(part, prefix)
    ensures Joined(sides, low, prefix).Keys !! part.Keys
  {
    forall k | k in part
      ensures k !in Joined(sides, low, prefix)
    {
      JoinedAt(sides, low, prefix, k);
    }
  }

  /** One more prefix adds its own counters. */
  lemma TotalsOfNext(snaps: nat -> Hashes, dbs: nat -> Hashes, low: nat, prefix: nat)
    requires low <= prefix && KeysHavePrefix(snaps, low, prefix + 1) && KeysHavePrefix(dbs, low, prefix + 1)
    ensures TotalsOf(Joined(snaps, low, prefix + 1), Joined(dbs, low, prefix + 1)) ==
      Plus(TotalsOf(Joined(snaps, low, prefix), Joined(dbs, low, prefix)), TotalsOf(snaps(prefix), dbs(prefix)))
  {
    SidesAreApart(snaps, dbs, low, prefix);
    TotalsAdd(Joined(snaps, low, prefix), Joined(dbs, low, prefix), snaps(prefix), dbs(prefix));
  }

  lemma SidesAreApart(snaps: nat -> Hashes, dbs: nat -> Hashes, low: nat, prefix: nat)
    requires low <= prefix && KeysHavePrefix(snaps, low, prefix + 1) && KeysHavePrefix(dbs, low, prefix + 1)
    ensures Apart(Joined(snaps, low, prefix), Joined(dbs, low, prefix), snaps(prefix), dbs(prefix))
  {
    JoinedIsApart(snaps, low, prefix, snaps(prefix));
    JoinedIsApart(snaps, low, prefix, dbs(prefix));
    JoinedIsApart(dbs, low, prefix, snaps(prefix));
    JoinedIsApart(dbs, low, prefix, dbs(prefix));
  }

  /** A sum of counters is any quantity that starts at none and grows by those of each prefix. */
  lemma {:induction false} SumIs<K, V>(
    snaps: nat -> map<K, V>, dbs: nat -> map<K, V>, low: nat, high: nat, total: nat -> Totals)
    requires low <= high && total(low) == Totals(0, 0, 0, 0)
    requires forall p: nat | low <= p < high :: Grows(snaps(p), dbs(p), total, p)
    ensures SumOver(snaps, dbs, low, high) == total(high)
  {
    if low < high {
      SumIs(snaps, dbs, low, high - 1, total);
      assert Grows(snaps(high - 1), dbs(high - 1), total, high - 1);
    }
  }

  ghost predicate Grows<K, V>(snap: map<K, V>, db: map<K, V>, total: nat -> Totals, p: nat)
  {
    total(p + 1) == Plus(total(p), TotalsOf(snap, db))
  }

  ghost function JoinedTotal(snaps: nat -> Hashes, dbs: nat -> Hashes, low: nat, p: nat): Totals
  {
    if p < low then Totals(0, 0, 0, 0) else TotalsOf(Joined(snaps, low, p), Joined(dbs, low, p))
  }

  lemma JoinedTotals(snaps: nat -> Hashes, dbs: nat -> Hashes, low: nat, high: nat)
    requires low <= high && KeysHavePrefix(snaps, low, high) && KeysHavePrefix(dbs, low, high)
    ensures SumOver(snaps, dbs, low, high) == TotalsOf(Joined(snaps, low, high), Joined(dbs, low, high))
  {
    NothingToCount();
    forall p: nat | low <= p < high
      ensures JoinedTotal(snaps, dbs, low, p + 1) ==
        Plus(JoinedTotal(snaps, dbs, low, p), TotalsOf(snaps(p), dbs(p)))
    {
      TotalsOfNext(snaps, dbs, low, p);
    }
    SumIs(snaps, dbs, low, high, (p: nat) => JoinedTotal(snaps, dbs, low, p));
  }

  lemma NothingToCount()
    ensures var none: Hashes := map[];
      TotalsOf(none, none) == Totals(0, 0, 0, 0)
  {
    var none: Hashes := map[];
    assert Equal(none, none) == {} && Different(none, none) == {} && Only(none, none) == {};
  }

  lemma CleanSumCompares(
    hasher: ContentHasher, versions: seq<Record>, programs: AccountSelector, only: Option<nat>, dir: map<nat, Bytes>,
    rows: seq<seq<Record>>, table: set<Record>, targetSlot: nat)
    requires only.Some? ==> only.value < PREFIXES
    requires UniqueVersionsOf(Elements(versions)) && Storable(hasher, versions)
    requires UniqueVersionsOf(table) && Answers(rows, table, targetSlot, programs)
    requires NoLeftovers(hasher, versions, programs, only, dir)
    ensures ComparesNewestLive(
      hasher,
      Between(Selected(Elements(versions), programs), First(only), Last(only)),
      Between(Selected(UpTo(table, targetSlot), programs), First(only), Last(only)),
      SumOver(SnapshotSides(hasher, versions, programs, dir), DatabaseSides(hasher, rows), First(only), Last(only)))
  {
    var left, right := Selected(Elements(versions), programs), Selected(UpTo(table, targetSlot), programs);
    var snaps, dbs := SnapshotSides(hasher, versions, programs, dir), DatabaseSides(hasher, rows);
    forall p: nat | First(only) <= p < Last(only)
      ensures Represents(snaps(p), WithPrefix(left, p), hasher)
    {
      CleanSide(hasher, versions, programs, only, dir, p);
    }
    forall p: nat | First(only) <= p < Last(only)
      ensures Represents(dbs(p), WithPrefix(right, p), hasher)
    {
      DatabaseSideRepresents(hasher, rows, table, targetSlot, programs, p);
    }
    SumCompares(hasher, left, right, snaps, dbs, First(only), Last(only));
  }

  lemma SumCompares(
    hasher: ContentHasher, left: set<Record>, right: set<Record>, snaps: nat -> Hashes, dbs: nat -> Hashes,
    low: nat, high: nat)
    requires low <= high
    requires SidesRepresent(hasher, left, snaps, low, high) && SidesRepresent(hasher, right, dbs, low, high)
    ensures ComparesNewestLive(
      hasher, Between(left, low, high), Between(right, low, high), SumOver(snaps, dbs, low, high))
  {
    SidesHavePrefix(hasher, left, snaps, low, high);
    SidesHavePrefix(hasher, right, dbs, low, high);
    JoinedRepresents(hasher, left, snaps, low, high);
    JoinedRepresents(hasher, right, dbs, low, high);
    JoinedTotals(snaps, dbs, low, high);
  }

  /******* Left-overs *******/

  /** The totals are right when they are those of an empty directory. */
  ghost predicate RightFor(
    hasher: ContentHasher, versions: seq<Record>, programs: AccountSelector, only: Option<nat>, dir: map<nat, Bytes>,
    db: nat -> Hashes)
    requires only.Some? ==> only.value < PREFIXES
  {
    SumOver(SnapshotSides(hasher, versions, programs, dir), db, First(only), Last(only)) ==
    SumOver(SnapshotSides(hasher, versions, programs, map[]), db, First(only), Last(only))
  }

  ghost function NoDatabase<K, V>(): nat -> map<K, V>
  {
    (p: nat) => map[]
  }

  /**
   The totals are right for every database, if and only if no file of an earlier run is counted; the empty database
   already shows it.
   */
  lemma TotalsAreRightIff(
    hasher: ContentHasher, versions: seq<Record>, programs: AccountSelector, only: Option<nat>, dir: map<nat, Bytes>)
    requires only.Some? ==> only.value < PREFIXES
    ensures (forall db :: RightFor(hasher, versions, programs, only, dir, db)) <==>
      NoLeftovers(hasher, versions, programs, only, dir)
    ensures RightFor(hasher, versions, programs, only, dir, NoDatabase()) <==>
      NoLeftovers(hasher, versions, programs, only, dir)
  {
    if NoLeftovers(hasher, versions, programs, only, dir) {
      forall db
        ensures RightFor(hasher, versions, programs, only, dir, db)
      {
        NoLeftoversIsRight(hasher, versions, programs, only, dir, db);
      }
    } else {
      LeftoverIsWrong(hasher, versions, programs, only, dir);
    }
  }

  /** Where the scan writes a file both directories load the same; elsewhere the empty directory loads nothing. */
  lemma SidesDiffer(
    hasher: ContentHasher, versions: seq<Record>, programs: AccountSelector, dir: map<nat, Bytes>, p: nat)
    ensures var loaded, clean :=
        SnapshotSides(hasher, versions, programs, dir)(p), SnapshotSides(hasher, versions, programs, map[])(p);
      if Records(hasher, versions, |versions|, programs, p) == [] then loaded == Load(FileOf(dir, p)) && clean == map[]
      else loaded == clean
  {
    LoadOfNothing();
  }

  lemma NoLeftoversIsRight(
    hasher: ContentHasher, versions: seq<Record>, programs: AccountSelector, only: Option<nat>, dir: map<nat, Bytes>,
    db: nat -> Hashes)
    requires only.Some? ==> only.value < PREFIXES
    requires NoLeftovers(hasher, versions, programs, only, dir)
    ensures RightFor(hasher, versions, programs, only, dir, db)
  {
    var loaded, clean := SnapshotSides(hasher, versions, programs, dir), SnapshotSides(hasher, versions, programs, map[]);
    forall p: nat | First(only) <= p < Last(only)
      ensures loaded(p) == clean(p)
    {
      SidesDiffer(hasher, versions, programs, dir, p);
    }
    SameSums(loaded, clean, db, First(only), Last(only));
  }

  lemma LeftoverIsWrong(
    hasher: ContentHasher, versions: seq<Record>, programs: AccountSelector, only: Option<nat>, dir: map<nat, Bytes>)
    requires only.Some? ==> only.value < PREFIXES
    requires !NoLeftovers(hasher, versions, programs, only, dir)
    ensures !RightFor(hasher, versions, programs, only, dir, NoDatabase())
  {
    var loaded, clean := SnapshotSides(hasher, versions, programs, dir), SnapshotSides(hasher, versions, programs, map[]);
    forall p: nat
      ensures loaded(p) == clean(p) || clean(p) == map[]
    {
      SidesDiffer(hasher, versions, programs, dir, p);
    }
    var p: nat :| First(only) <= p < Last(only) && Records(hasher, versions, |versions|, programs, p) == []
      && Load(FileOf(dir, p)) != map[];
    SidesDiffer(hasher, versions, programs, dir, p);
    LeftoverShows(loaded, clean, First(only), Last(only), p);
    EmptyDatabaseTotals(loaded, First(only), Last(only));
    EmptyDatabaseTotals(clean, First(only), Last(only));
  }

  lemma {:induction false} SameSums<K, V>(
    a: nat -> map<K, V>, b: nat -> map<K, V>, db: nat -> map<K, V>, low: nat, high: nat)
    requires low <= high && forall p: nat | low <= p < high :: a(p) == b(p)
    ensures SumOver(a, db, low, high) == SumOver(b, db, low, high)
  {
    if low < high {
      SameSums(a, b, db, low, high - 1);
    }
  }

  /** The accounts of the prefixes in `[low, high)`. */
  ghost function Accounts<K, V>(snap: nat -> map<K, V>, low: nat, high: nat): nat
    requires low <= high
  {
    if low == high then 0 else Accounts(snap, low, high - 1) + |snap(high - 1)|
  }

  /** Against the empty database every account is only in the snapshot. */
  lemma {:induction false} EmptyDatabaseTotals<K, V>(snap: nat -> map<K, V>, low: nat, high: nat)
    requires low <= high
    ensures SumOver(snap, NoDatabase(), low, high).onlySnap == Accounts(snap, low, high)
  {
    if low < high {
      EmptyDatabaseTotals(snap, low, high - 1);
      AllOnlyInSnapshot(snap(high - 1));
    }
  }

  lemma AllOnlyInSnapshot<K, V>(m: map<K, V>)
    ensures TotalsOf(m, map[]).onlySnap == |m|
  {
    var none: map<K, V> := map[];
    KeysOfOneSide(m, none);
    assert Equal(m, none) == {} && Different(m, none) == {};
  }

  /** Each side of `b` is that of `a`, or empty. */
  ghost predicate Extends<K, V>(a: nat -> map<K, V>, b: nat -> map<K, V>, low: nat, high: nat)
  {
    forall p: nat | low <= p < high :: a(p) == b(p) || b(p) == map[]
  }

  /** Left-over files never make a prefix count fewer accounts than it should, and a live left-over counts more. */
  lemma {:induction false} LeftoverCounts<K, V>(a: nat -> map<K, V>, b: nat -> map<K, V>, low: nat, high: nat)
    requires low <= high && Extends(a, b, low, high)
    ensures Accounts(a, low, high) >= Accounts(b, low, high)
  {
    if low < high {
      LeftoverCounts(a, b, low, high - 1);
    }
  }

  lemma {:induction false} LeftoverShows<K, V>(a: nat -> map<K, V>, b: nat -> map<K, V>, low: nat, high: nat, p: nat)
    requires low <= p < high && Extends(a, b, low, high)
    requires a(p) != map[] && b(p) == map[]
    ensures Accounts(a, low, high) > Accounts(b, low, high)
  {
    if p == high - 1 {
      LeftoverCounts(a, b, low, high - 1);
      assert |a(p)| > 0;
    } else {
      LeftoverShows(a, b, low, high - 1, p);
    }
  }

  /** An empty snapshot, an empty database and one left-over live record: it is reported as only in the snapshot. */
  lemma LeftoverIsCounted(hasher: ContentHasher, programs: AccountSelector, p: nat, r: DiskRecord)
    requires p < PREFIXES && FitsU64(r) && r.lamports > 0
    ensures SumOver(
      SnapshotSides(hasher, [], programs, map[p := EncodeAll([r])]), NoDatabase(), 0, PREFIXES).onlySnap == 1
  {
    var snaps := SnapshotSides(hasher, [], programs, map[p := EncodeAll([r])]);
    LoadOfNothing();
    LoadOfOne(r);
    OnlyOnePrefix(snaps, 0, PREFIXES, p);
    EmptyDatabaseTotals(snaps, 0, PREFIXES);
  }

  lemma LoadOfOne(r: DiskRecord)
    requires FitsU64(r) && r.lamports > 0
    ensures Load(EncodeAll([r])) == map[r.pubkey := r.hash]
  {
    ParseInvertsEncode([r], []);
    assert EncodeAll([r]) + [] == EncodeAll([r]);
    assert Deduped([r], 0) == map[];
    assert Deduped([r], 1) == map[r.pubkey := r];
  }

  lemma {:induction false} OnlyOnePrefix<K, V>(snaps: nat -> map<K, V>, low: nat, high: nat, p: nat)
    requires low <= high && |snaps(p)| == 1 && forall q: nat | low <= q < high && q != p :: snaps(q) == map[]
    ensures Accounts(snaps, low, high) == if low <= p < high then 1 else 0
  {
    if low < high {
      OnlyOnePrefix(snaps, low, high - 1, p);
    }
  }

  /******* What the totals tell *******/

  /** What a clean diff tells: all counters but matches are zero if and only if the two sides have the same accounts. */
  lemma CleanDiffIff(hasher: ContentHasher, left: set<Record>, right: set<Record>, t: Totals, snap: Hashes, db: Hashes)
    requires ComparesNewestLive(hasher, left, right, t)
    requires Represents(snap, left, hasher) && Represents(db, right, hasher)
    ensures t.mismatched == 0 && t.onlySnap == 0 && t.onlyDb == 0 <==> snap == db
    ensures t.matched + t.mismatched + t.onlySnap == |snap| && t.matched + t.mismatched + t.onlyDb == |db|
  {
    var m: Hashes, n: Hashes :| Represents(m, left, hasher) && Represents(n, right, hasher) && t == TotalsOf(m, n);
    RepresentationIsUnique(m, snap, left, hasher);
    RepresentationIsUnique(n, db, right, hasher);
    DiffAccounting(snap, db);
  }
}
