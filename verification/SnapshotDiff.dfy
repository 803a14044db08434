/**
 The snapshot diff: the snapshot side and the database side of one prefix, and the counters over the
 whole key space.
 */
module SnapshotDiff {
  import opened Basics
  import opened Programs
  import opened SnapshotRecords
  import opened DiffRecords
  import opened KeySpace

  /** blake3 over lamports, data, executable, owner and pubkey. */
  type ContentHasher = (nat, Bytes, bool, Pubkey, Pubkey) -> Hash

  function ContentHash(hasher: ContentHasher, v: Record): Hash
  {
    hasher(v.account.lamports, v.account.data, v.account.executable, v.account.owner, v.account.pubkey)
  }

  function ZeroHash(): Hash
  {
    seq(32, i => 0)
  }

  /** What the scan writes: a closed account carries a zero hash. */
  function ToDisk(hasher: ContentHasher, v: Record): DiskRecord
  {
    DiskRecord(
      v.account.pubkey, v.version, v.account.lamports,
      if v.account.lamports == 0 then ZeroHash() else ContentHash(hasher, v))
  }

  /******* The meaning shared by both sides *******/

  ghost predicate IsNewest(vs: set<Record>, v: Record)
  {
    v in vs && Unbeaten(vs, v)
  }

  ghost predicate IsLive(vs: set<Record>, k: Pubkey)
  {
    exists v :: IsNewest(vs, v) && v.account.lamports > 0 && v.account.pubkey == k
  }

  /** `m` maps exactly the accounts whose newest version is live, to the hash over the five fields of that version. */
  ghost predicate Represents(m: map<Pubkey, Hash>, vs: set<Record>, hasher: ContentHasher)
  {
    && (forall v :: IsNewest(vs, v) && v.account.lamports > 0 ==> var a := v.account;
      a.pubkey in m && m[a.pubkey] == hasher(a.lamports, a.data, a.executable, a.owner, a.pubkey))
    && (forall k :: k in m ==> IsLive(vs, k))
  }

  lemma RepresentationIsUnique(m: map<Pubkey, Hash>, n: map<Pubkey, Hash>, vs: set<Record>, hasher: ContentHasher)
    requires Represents(m, vs, hasher) && Represents(n, vs, hasher)
    ensures m == n
  {
    assert forall k :: k in m ==> k in n && m[k] == n[k];
    assert forall k :: k in n ==> k in m;
  }

  ghost function WithPrefix(vs: set<Record>, prefix: nat): set<Record>
  {
    set v | v in vs && PrefixOf(v.account.pubkey) == prefix
  }

  /******* The snapshot side *******/

  predicate Written(v: Record, programs: AccountSelector, prefix: nat)
  {
    PrefixOf(v.account.pubkey) == prefix && programs.IsSelected(v.account.owner)
  }

  /** The records the file of a prefix holds after the scan of the first `n` versions, in scan order. */
  function Records(
    hasher: ContentHasher, versions: seq<Record>, n: nat, programs: AccountSelector, prefix: nat)
    : seq<DiskRecord>
    requires n <= |versions|
  {
    if n == 0 then []
    else
      Records(hasher, versions, n - 1, programs, prefix)
      + if Written(versions[n - 1], programs, prefix) then [ToDisk(hasher, versions[n - 1])] else []
  }

  /** The record has the address, version and balance of `v`, and its hash: zeros for a closed account. */
  predicate StoredAs(hasher: ContentHasher, v: Record, r: DiskRecord)
  {
    var a := v.account;
    && r.pubkey == a.pubkey && r.version == v.version && r.lamports == a.lamports
    && r.hash == if a.lamports == 0 then seq(32, i => 0) else hasher(a.lamports, a.data, a.executable, a.owner, a.pubkey)
  }

  /** The records of a prefix file are those of the selected versions, and of no others. */
  lemma {:induction false} RecordsAreSelected(
    hasher: ContentHasher, versions: seq<Record>, n: nat, programs: AccountSelector, prefix: nat, r: DiskRecord)
    requires n <= |versions|
    ensures r in Records(hasher, versions, n, programs, prefix) <==>
      exists i :: 0 <= i < n && Written(versions[i], programs, prefix) && r == ToDisk(hasher, versions[i])
    ensures r in Records(hasher, versions, n, programs, prefix) ==>
      exists i :: 0 <= i < n && StoredAs(hasher, versions[i], r)
  {
    if n > 0 {
      RecordsAreSelected(hasher, versions, n - 1, programs, prefix, r);
    }
  }

  ghost function Chosen(versions: seq<Record>, programs: AccountSelector, prefix: nat): set<Record>
  {
    WithPrefix(Selected(Elements(versions), programs), prefix)
  }

  lemma ScanWritesSelected(
    hasher: ContentHasher, versions: seq<Record>, programs: AccountSelector, prefix: nat)
    ensures RecordSet(Records(hasher, versions, |versions|, programs, prefix)) ==
      set v | v in Chosen(versions, programs, prefix) :: ToDisk(hasher, v)
  {
    var left := RecordSet(Records(hasher, versions, |versions|, programs, prefix));
    var right := set v | v in Chosen(versions, programs, prefix) :: ToDisk(hasher, v);
    forall r
      ensures r in left <==> r in right
    {
      RecordsAreSelected(hasher, versions, |versions|, programs, prefix, r);
      if r in right {
        var v :| v in Chosen(versions, programs, prefix) && r == ToDisk(hasher, v);
        var i :| 0 <= i < |versions| && versions[i] == v;
        assert Written(versions[i], programs, prefix);
      }
    }
  }

  /** A deduplicated map of disk records stands for the versions they were written from. */
  lemma DiskMapRepresents(
    hasher: ContentHasher, vs: set<Record>, newest: map<Pubkey, DiskRecord>)
    requires UniqueVersionsOf(vs)
    requires IsNewestMap(newest, set v | v in vs :: ToDisk(hasher, v))
    ensures Represents(LiveHashes(newest), vs, hasher)
  {
    var live := LiveHashes(newest);
    forall v | IsNewest(vs, v) && v.account.lamports > 0
      ensures v.account.pubkey in live && live[v.account.pubkey] == ContentHash(hasher, v)
    {
      assert ToDisk(hasher, v).pubkey in newest;
      var u := WrittenFrom(hasher, vs, newest, v.account.pubkey);
      assert u == v;
    }
    forall k | k in live
      ensures IsLive(vs, k)
    {
      var u := WrittenFrom(hasher, vs, newest, k);
      assert IsNewest(vs, u);
    }
  }

  lemma WrittenFrom(hasher: ContentHasher, vs: set<Record>, newest: map<Pubkey, DiskRecord>, k: Pubkey)
    returns (u: Record)
    requires UniqueVersionsOf(vs)
    requires IsNewestMap(newest, set v | v in vs :: ToDisk(hasher, v))
    requires k in newest
    ensures newest[k] == ToDisk(hasher, u) && u.account.pubkey == k && IsNewest(vs, u)
    ensures forall v :: IsNewest(vs, v) && v.account.pubkey == k ==> v == u
  {
    u :| u in vs && newest[k] == ToDisk(hasher, u);
    forall v | v in vs && v.account.pubkey == u.account.pubkey
      ensures !Older(u.version, v.version)
    {
      var r := ToDisk(hasher, v);
      assert r in (set v | v in vs :: ToDisk(hasher, v));
    }
    forall v | IsNewest(vs, v) && v.account.pubkey == k
      ensures v == u
    {
      assert !Older(u.version, v.version) && !Older(v.version, u.version);
    }
  }

  /** The file of a prefix, loaded back, holds the newest live selected version of every account of the prefix. */
  lemma PrefixFileRepresents(
    hasher: ContentHasher, versions: seq<Record>, programs: AccountSelector, prefix: nat, loaded: map<Pubkey, Hash>)
    requires UniqueVersionsOf(Elements(versions))
    requires forall i :: 0 <= i < |versions| ==> FitsU64(ToDisk(hasher, versions[i]))
    requires HoldsNewestLive(
      loaded, RecordSet(ParseAll(EncodeAll(Records(hasher, versions, |versions|, programs, prefix)))))
    ensures Represents(loaded, Chosen(versions, programs, prefix), hasher)
  {
    var rs := Records(hasher, versions, |versions|, programs, prefix);
    ScanWritesSelected(hasher, versions, programs, prefix);
    forall i | 0 <= i < |rs|
      ensures FitsU64(rs[i])
    {
      assert rs[i] in RecordSet(rs);
    }
    ParseInvertsEncode(rs, []);
    assert EncodeAll(rs) + [] == EncodeAll(rs);
    var newest: map<Pubkey, DiskRecord> :| IsNewestMap(newest, RecordSet(rs)) && loaded == LiveHashes(newest);
    DiskMapRepresents(hasher, Chosen(versions, programs, prefix), newest);
  }

  /******* The database side *******/

  /** The owner clause of the SQL text. */
  datatype OwnerFilter = OwnerIn(owners: seq<Pubkey>) | OwnerNotIn(owners: seq<Pubkey>) | AnyOwner {
    predicate Admits(owner: Pubkey)
    {
      match this
      case OwnerIn(owners) => owner in owners
      case OwnerNotIn(owners) => owner !in owners
      case AnyOwner => true
    }
  }

  function BuildOwnerFilter(programs: AccountSelector): OwnerFilter
  {
    if programs.included != [] then OwnerIn(programs.included)
    else if programs.excluded != [] then OwnerNotIn(programs.excluded)
    else AnyOwner
  }

  lemma OwnerFilterDenotesSelector(programs: AccountSelector, owner: Pubkey)
    ensures BuildOwnerFilter(programs).Admits(owner) <==> programs.IsSelected(owner)
  {
  }

  /** The `WHERE` clause of both branches of the union. */
  predicate Matches(v: Record, targetSlot: nat, prefix: nat, filter: OwnerFilter)
    requires prefix < PREFIXES
  {
    v.version.slot <= targetSlot && InInterval(v.account.pubkey, prefix) && filter.Admits(v.account.owner)
  }

  ghost function Matching(table: set<Record>, targetSlot: nat, prefix: nat, programs: AccountSelector)
    : set<Record>
    requires prefix < PREFIXES
  {
    set v | v in table && Matches(v, targetSlot, prefix, BuildOwnerFilter(programs))
  }

  ghost predicate OneRowPerAccount(rows: seq<Record>)
  {
    forall i, j :: 0 <= i < j < |rows| ==> rows[i].account.pubkey != rows[j].account.pubkey
  }

  ghost predicate HasRow(rows: seq<Record>, pubkey: Pubkey)
  {
    exists i :: 0 <= i < |rows| && rows[i].account.pubkey == pubkey
  }

  /** The rows `DISTINCT ON (pubkey) .. ORDER BY pubkey, slot DESC, write_version DESC` may return. */
  ghost predicate DistinctOnPubkey(rows: seq<Record>, matching: set<Record>)
  {
    && (forall i :: 0 <= i < |rows| ==> IsNewest(matching, rows[i]))
    && OneRowPerAccount(rows)
    && (forall v {:trigger HasRow(rows, v.account.pubkey)} :: v in matching ==> HasRow(rows, v.account.pubkey))
  }

  /** The hashes of the live rows among the first `n`. */
  function RowHashes(hasher: ContentHasher, rows: seq<Record>, n: nat): map<Pubkey, Hash>
    requires n <= |rows|
  {
    if n == 0 then map[]
    else if rows[n - 1].account.lamports > 0 then
      RowHashes(hasher, rows, n - 1)[rows[n - 1].account.pubkey := ContentHash(hasher, rows[n - 1])]
    else RowHashes(hasher, rows, n - 1)
  }

  lemma {:induction false} LiveRowIsHashed(hasher: ContentHasher, rows: seq<Record>, n: nat, i: nat)
    requires i < n <= |rows| && OneRowPerAccount(rows) && rows[i].account.lamports > 0
    ensures rows[i].account.pubkey in RowHashes(hasher, rows, n)
    ensures RowHashes(hasher, rows, n)[rows[i].account.pubkey] == ContentHash(hasher, rows[i])
  {
    if i < n - 1 {
      LiveRowIsHashed(hasher, rows, n - 1, i);
    }
  }

  lemma {:induction false} HashedIsLiveRow(hasher: ContentHasher, rows: seq<Record>, n: nat, k: Pubkey) returns (i: nat)
    requires n <= |rows| && k in RowHashes(hasher, rows, n)
    ensures i < n && rows[i].account.lamports > 0 && rows[i].account.pubkey == k
  {
    if rows[n - 1].account.lamports > 0 && rows[n - 1].account.pubkey == k {
      i := n - 1;
    } else {
      i := HashedIsLiveRow(hasher, rows, n - 1, k);
    }
  }

  /** The row loop of `query_db_prefix`: on any answer of `DISTINCT ON` it gives the newest live versions. */
  method CollectRows(hasher: ContentHasher, rows: seq<Record>) returns (m: map<Pubkey, Hash>)
    ensures m == RowHashes(hasher, rows, |rows|)
    ensures forall matching :: DistinctOnPubkey(rows, matching) && UniqueVersionsOf(matching) ==>
      Represents(m, matching, hasher)
  {
    m := map[];
    for i := 0 to |rows|
      invariant m == RowHashes(hasher, rows, i)
    {
      if rows[i].account.lamports > 0 {
        m := m[rows[i].account.pubkey := ContentHash(hasher, rows[i])];
      }
    }
    forall matching | DistinctOnPubkey(rows, matching) && UniqueVersionsOf(matching)
      ensures Represents(m, matching, hasher)
    {
      RowHashesRepresent(hasher, rows, matching);
    }
  }

  lemma RowHashesRepresent(hasher: ContentHasher, rows: seq<Record>, matching: set<Record>)
    requires DistinctOnPubkey(rows, matching) && UniqueVersionsOf(matching)
    ensures Represents(RowHashes(hasher, rows, |rows|), matching, hasher)
  {
    var m := RowHashes(hasher, rows, |rows|);
    forall v | IsNewest(matching, v) && v.account.lamports > 0
      ensures v.account.pubkey in m && m[v.account.pubkey] == ContentHash(hasher, v)
    {
      var i := RowOf(rows, matching, v);
      LiveRowIsHashed(hasher, rows, |rows|, i);
    }
    forall k | k in m
      ensures IsLive(matching, k)
    {
      var i := HashedIsLiveRow(hasher, rows, |rows|, k);
      assert IsNewest(matching, rows[i]);
    }
  }

  lemma RowOf(rows: seq<Record>, matching: set<Record>, v: Record) returns (i: nat)
    requires DistinctOnPubkey(rows, matching) && UniqueVersionsOf(matching) && IsNewest(matching, v)
    ensures i < |rows| && rows[i] == v
  {
    assert HasRow(rows, v.account.pubkey);
    i :| 0 <= i < |rows| && rows[i].account.pubkey == v.account.pubkey;
    assert !Older(rows[i].version, v.version) && !Older(v.version, rows[i].version);
  }

  /** The database query sees exactly the selected versions of the prefix up to the target slot. */
  lemma QuerySeesSelectedPrefix(table: set<Record>, targetSlot: nat, prefix: nat, programs: AccountSelector)
    requires prefix < PREFIXES
    ensures Matching(table, targetSlot, prefix, programs) ==
      WithPrefix(Selected(UpTo(table, targetSlot), programs), prefix)
  {
    forall v | v in table
      ensures Matches(v, targetSlot, prefix, BuildOwnerFilter(programs)) <==>
        v.version.slot <= targetSlot && PrefixOf(v.account.pubkey) == prefix && programs.IsSelected(v.account.owner)
    {
      IntervalsPartitionKeys(v.account.pubkey, prefix);
      OwnerFilterDenotesSelector(programs, v.account.owner);
    }
  }

  ghost function UpTo(table: set<Record>, targetSlot: nat): set<Record>
  {
    set v | v in table && v.version.slot <= targetSlot
  }
}
