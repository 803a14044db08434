/**
 The lattice hash of a snapshot: the two-pass form, the newest-first single pass, and the form that
 subtracts the excluded accounts from the total of the snapshot metadata.
 */
module SnapshotHash {
  import opened Basics
  import opened LatticeHash
  import opened Programs
  import opened SnapshotRecords

  /******* The two-pass form *******/

  /** A non-empty include list narrows the first pass; otherwise every record is tracked. */
  ghost function Tracked(rs: set<Record>, programs: AccountSelector): set<Record>
  {
    if programs.included != [] then Selected(rs, programs) else rs
  }

  /** `versions` holds exactly the accounts of `rs`, each at its newest version in `rs`. */
  ghost predicate Tracks(versions: map<Pubkey, Version>, rs: set<Record>)
  {
    && (forall r :: r in rs ==> r.account.pubkey in versions && !Older(versions[r.account.pubkey], r.version))
    && (forall k :: k in versions ==> exists r :: r in rs && r.account.pubkey == k && r.version == versions[k])
  }

  method FirstPass(files: seq<AccountFile>, programs: AccountSelector) returns (versions: map<Pubkey, Version>)
    ensures Tracks(versions, Tracked(Elements(Flatten(files)), programs))
  {
    versions := map[];
    var firstPassFilter := programs.included != [];
    ghost var done := [];
    for i := 0 to |files|
      invariant done == Flatten(files[..i])
      invariant Tracks(versions, Tracked(Elements(done), programs))
    {
      var version := FileVersion(files[i]);
      for j := 0 to |files[i].accounts|
        invariant done == Flatten(files[..i]) + FileRecords(files[i])[..j]
        invariant Tracks(versions, Tracked(Elements(done), programs))
      {
        var account := files[i].accounts[j];
        ghost var r := Record(version, account);
        FileRecordsExtend(files[i], j);
        assert Tracked(Elements(done + [r]), programs) ==
          if firstPassFilter && !programs.IsSelected(account.owner) then Tracked(Elements(done), programs)
          else Tracked(Elements(done), programs) + {r};
        if !(firstPassFilter && !programs.IsSelected(account.owner)) {
          TracksOneMore(versions, Tracked(Elements(done), programs), r);
          var entry := if account.pubkey in versions then versions[account.pubkey] else Version(0, 0);
          if Older(entry, version) {
            entry := version;
          }
          versions := versions[account.pubkey := entry];
        }
        done := done + [r];
      }
      FlattenExtend(files, i);
    }
    assert files[..|files|] == files;
  }

  lemma TracksOneMore(versions: map<Pubkey, Version>, rs: set<Record>, r: Record)
    requires Tracks(versions, rs)
    ensures
      var entry := if r.account.pubkey in versions then versions[r.account.pubkey] else Version(0, 0);
      var newest := if Older(entry, r.version) then r.version else entry;
      Tracks(versions[r.account.pubkey := newest], rs + {r})
  {
    var key := r.account.pubkey;
    var entry := if key in versions then versions[key] else Version(0, 0);
    var newest := if Older(entry, r.version) then r.version else entry;
    var updated := versions[key := newest];
    forall k | k in updated
      ensures exists q :: q in rs + {r} && q.account.pubkey == k && q.version == updated[k]
    {
      if k == key && (k !in versions || Older(entry, r.version)) {
        assert r in rs + {r} && r.account.pubkey == k && r.version == updated[k];
      } else {
        var q :| q in rs && q.account.pubkey == k && q.version == versions[k];
        assert q in rs + {r};
      }
    }
  }

  /** The test of the second pass: an untracked account passes the version test. */
  predicate Contributes(versions: map<Pubkey, Version>, programs: AccountSelector, r: Record)
  {
    && (r.account.pubkey in versions ==> versions[r.account.pubkey] == r.version)
    && programs.IsSelected(r.account.owner)
    && r.account.lamports != 0
  }

  ghost function Contributors(
    versions: map<Pubkey, Version>, programs: AccountSelector, rs: seq<Record>): set<Record>
  {
    set r | r in rs && Contributes(versions, programs, r)
  }

  /** What the second pass holds after the records `done`. */
  ghost predicate Summed(
    versions: map<Pubkey, Version>, programs: AccountSelector, hasher: AccountHasher, done: seq<Record>,
    aggregate: LtHash, count: nat)
  {
    var kept := Contributors(versions, programs, done);
    aggregate == SetSum(kept, HashOf(hasher)) && count == |kept|
  }

  lemma SummedNext(
    versions: map<Pubkey, Version>, programs: AccountSelector, hasher: AccountHasher, done: seq<Record>, r: Record,
    aggregate: LtHash, count: nat)
    requires Summed(versions, programs, hasher, done, aggregate, count) && r !in done
    ensures
      if Contributes(versions, programs, r) then
        Summed(versions, programs, hasher, done + [r], MixIn(aggregate, LtHashAccount(hasher, r.account)), count + 1)
      else Summed(versions, programs, hasher, done + [r], aggregate, count)
  {
    var before, after := Contributors(versions, programs, done), Contributors(versions, programs, done + [r]);
    if Contributes(versions, programs, r) {
      assert after == before + {r};
      SetSumAdd(before, r, HashOf(hasher));
    } else {
      assert after == before;
    }
  }

  method SecondPass(
    files: seq<AccountFile>, programs: AccountSelector, versions: map<Pubkey, Version>, hasher: AccountHasher)
    returns (aggregate: LtHash, count: nat)
    ensures UniqueVersions(Flatten(files)) ==>
      var kept := Contributors(versions, programs, Flatten(files));
      aggregate == SetSum(kept, HashOf(hasher)) && count == |kept|
  {
    aggregate, count := Identity(), 0;
    ghost var unique := UniqueVersions(Flatten(files));
    ghost var done := [];
    for i := 0 to |files|
      invariant done == Flatten(files[..i])
      invariant unique ==> Summed(versions, programs, hasher, done, aggregate, count)
    {
      aggregate, count := SecondPassFile(files, i, programs, versions, hasher, aggregate, count);
      FlattenExtend(files, i);
      done := Flatten(files[..i]) + FileRecords(files[i]);
    }
    assert files[..|files|] == files;
  }

  lemma SummedNextInFile(
    files: seq<AccountFile>, i: nat, j: nat, programs: AccountSelector, versions: map<Pubkey, Version>,
    hasher: AccountHasher, done: seq<Record>, aggregate: LtHash, count: nat)
    requires i < |files| && j < |files[i].accounts| && UniqueVersions(Flatten(files))
    requires done == Flatten(files[..i]) + FileRecords(files[i])[..j]
    requires Summed(versions, programs, hasher, done, aggregate, count)
    ensures
      var r := FileRecords(files[i])[j];
      if Contributes(versions, programs, r) then
        Summed(versions, programs, hasher, done + [r], MixIn(aggregate, LtHashAccount(hasher, r.account)), count + 1)
      else Summed(versions, programs, hasher, done + [r], aggregate, count)
  {
    FreshRecord(files, i, j, done);
    SummedNext(versions, programs, hasher, done, FileRecords(files[i])[j], aggregate, count);
  }

  method SecondPassFile(
    files: seq<AccountFile>, i: nat, programs: AccountSelector, versions: map<Pubkey, Version>, hasher: AccountHasher,
    sofar: LtHash, counted: nat)
    returns (aggregate: LtHash, count: nat)
    requires i < |files|
    requires UniqueVersions(Flatten(files)) ==>
      Summed(versions, programs, hasher, Flatten(files[..i]), sofar, counted)
    ensures UniqueVersions(Flatten(files)) ==>
      Summed(versions, programs, hasher, Flatten(files[..i]) + FileRecords(files[i]), aggregate, count)
  {
    aggregate, count := sofar, counted;
    var version := FileVersion(files[i]);
    ghost var unique := UniqueVersions(Flatten(files));
    ghost var done := Flatten(files[..i]);
    assert done + FileRecords(files[i])[..0] == done;
    for j := 0 to |files[i].accounts|
      invariant done == Flatten(files[..i]) + FileRecords(files[i])[..j]
      invariant unique ==> Summed(versions, programs, hasher, done, aggregate, count)
    {
      var r := Record(version, files[i].accounts[j]);
      FileRecordsExtend(files[i], j);
      if unique {
        SummedNextInFile(files, i, j, programs, versions, hasher, done, aggregate, count);
      }
      if Contributes(versions, programs, r) {
        aggregate, count := MixIn(aggregate, LtHashAccount(hasher, r.account)), count + 1;
      }
      done := done + [r];
    }
    assert FileRecords(files[i])[..|files[i].accounts|] == FileRecords(files[i]);
  }

  lemma CursorSplit(files: seq<AccountFile>, i: nat, j: nat)
    requires i < |files| && j < |files[i].accounts|
    ensures Flatten(files) ==
      Flatten(files[..i]) + FileRecords(files[i])[..j] + [FileRecords(files[i])[j]] +
      (FileRecords(files[i])[j + 1..] + Flatten(files[i + 1..]))
  {
    FlattenExtend(files, i);
    assert files == files[..i + 1] + files[i + 1..];
    FlattenConcat(files[..i + 1], files[i + 1..]);
    Regroup(Flatten(files[..i]), FileRecords(files[i]), j, Flatten(files[i + 1..]));
  }

  lemma Regroup(before: seq<Record>, rs: seq<Record>, j: nat, after: seq<Record>)
    requires j < |rs|
    ensures before + rs + after == before + rs[..j] + [rs[j]] + (rs[j + 1..] + after)
  {
    assert rs == rs[..j] + [rs[j]] + rs[j + 1..];
  }

  /** The record under the cursor was not scanned before, and no scanned record ties with it. */
  lemma FreshRecord(files: seq<AccountFile>, i: nat, j: nat, done: seq<Record>)
    requires i < |files| && j < |files[i].accounts|
    requires done == Flatten(files[..i]) + FileRecords(files[i])[..j]
    requires UniqueVersions(Flatten(files))
    ensures FileRecords(files[i])[j] !in done
    ensures forall q ::
      q in done && q.account.pubkey == files[i].accounts[j].pubkey ==> q.version != FileVersion(files[i])
  {
    CursorSplit(files, i, j);
    UniqueNext(done, FileRecords(files[i])[j], FileRecords(files[i])[j + 1..] + Flatten(files[i + 1..]));
  }

  /** The accounts the two-pass form hashes: the winner is chosen among the tracked records only. */
  ghost function TwoPassKept(files: seq<AccountFile>, programs: AccountSelector): set<Record>
  {
    var all := Elements(Flatten(files));
    Live(Selected(Newest(Tracked(all, programs)), programs))
  }

  ghost function Outcome(kept: set<Record>, hasher: AccountHasher): (LtHash, nat)
  {
    (SetSum(kept, HashOf(hasher)), |kept|)
  }

  method ComputeTwoPass(files: seq<AccountFile>, programs: AccountSelector, hasher: AccountHasher)
    returns (aggregate: LtHash, count: nat)
    ensures UniqueVersions(Flatten(files)) ==> (aggregate, count) == Outcome(TwoPassKept(files, programs), hasher)
  {
    var versions := FirstPass(files, programs);
    aggregate, count := SecondPass(files, programs, versions, hasher);
    ContributorsAreKept(files, programs, versions);
  }

  lemma ContributorsAreKept(files: seq<AccountFile>, programs: AccountSelector, versions: map<Pubkey, Version>)
    requires Tracks(versions, Tracked(Elements(Flatten(files)), programs))
    ensures Contributors(versions, programs, Flatten(files)) == TwoPassKept(files, programs)
  {
    var tracked := Tracked(Elements(Flatten(files)), programs);
    forall r | r in tracked
      ensures r in Newest(tracked) <==> versions[r.account.pubkey] == r.version
    {
      var q :| q in tracked && q.account.pubkey == r.account.pubkey && q.version == versions[r.account.pubkey];
    }
  }

  /******* The newest-first single pass *******/

  ghost predicate NewestFirst(files: seq<AccountFile>)
  {
    forall i, j :: 0 <= i < j < |files| ==> !Older(FileVersion(files[i]), FileVersion(files[j]))
  }

  function InsertByVersion(f: AccountFile, files: seq<AccountFile>): (r: seq<AccountFile>)
    ensures multiset(r) == multiset{f} + multiset(files)
  {
    if files == [] || !Older(FileVersion(f), FileVersion(files[0])) then
      [f] + files
    else
      assert files == [files[0]] + files[1..];
      [files[0]] + InsertByVersion(f, files[1..])
  }

  lemma {:induction false} InsertKeepsOrder(f: AccountFile, files: seq<AccountFile>)
    requires NewestFirst(files)
    ensures NewestFirst(InsertByVersion(f, files))
  {
    if files != [] && Older(FileVersion(f), FileVersion(files[0])) {
      var rest := InsertByVersion(f, files[1..]);
      InsertKeepsOrder(f, files[1..]);
      forall j | 0 <= j < |rest|
        ensures !Older(FileVersion(files[0]), FileVersion(rest[j]))
      {
        assert rest[j] in multiset(rest);
        assert rest[j] == f || rest[j] in files[1..];
      }
    }
  }

  /** The stable descending sort by `(slot, write_version)`. */
  function SortNewestFirst(files: seq<AccountFile>): (r: seq<AccountFile>)
    ensures multiset(r) == multiset(files)
    ensures NewestFirst(r)
  {
    if files == [] then []
    else
      assert files == [files[0]] + files[1..];
      InsertKeepsOrder(files[0], SortNewestFirst(files[1..]));
      InsertByVersion(files[0], SortNewestFirst(files[1..]))
  }

  datatype HashError = EmptySelector | SystemProgramExcluded | MetadataTooSmall

  /** In exclude mode the hash covers the excluded accounts; the count is the kept accounts in both modes. */
  ghost function SinglePassOutcome(
    files: seq<AccountFile>, programs: AccountSelector, hasher: AccountHasher): (LtHash, nat)
  {
    var live := Live(Newest(Elements(Flatten(files))));
    var kept := Selected(live, programs);
    (SetSum(if programs.included == [] then live - kept else kept, HashOf(hasher)), |kept|)
  }

  /** The side of the selector whose accounts the single pass mixes in. */
  predicate OnHashedSide(programs: AccountSelector, r: Record)
  {
    programs.IsSelected(r.account.owner) != (programs.included == [])
  }

  ghost function Hashed(live: set<Record>, programs: AccountSelector): set<Record>
  {
    set r | r in live && OnHashedSide(programs, r)
  }

  /** One record: the first record of each account is the only one that counts. */
  method ScanRecord(
    order: seq<AccountFile>, i: nat, j: nat, ghost done: seq<Record>, programs: AccountSelector, hasher: AccountHasher,
    seen0: set<Pubkey>, aggregate0: LtHash, count0: nat, liveTotal0: nat)
    returns (seen: set<Pubkey>, aggregate: LtHash, count: nat, liveTotal: nat)
    requires NewestFirst(order) && i < |order| && j < |order[i].accounts|
    requires done == Flatten(order[..i]) + FileRecords(order[i])[..j]
    requires Scanned(done, seen0)
    requires UniqueVersions(Flatten(order)) ==> Totals(done, programs, hasher, aggregate0, count0, liveTotal0)
    ensures Scanned(done + [FileRecords(order[i])[j]], seen)
    ensures UniqueVersions(Flatten(order)) ==>
      Totals(done + [FileRecords(order[i])[j]], programs, hasher, aggregate, count, liveTotal)
  {
    var account := order[i].accounts[j];
    var r := Record(FileVersion(order[i]), account);
    seen, aggregate, count, liveTotal := seen0, aggregate0, count0, liveTotal0;
    if account.pubkey !in seen {
      seen := seen + {account.pubkey};
      if account.lamports != 0 {
        liveTotal := liveTotal + 1;
        if OnHashedSide(programs, r) {
          aggregate := MixIn(aggregate, LtHashAccount(hasher, account));
          count := count + 1;
        }
      }
    }
    ScannedStep(done, r, seen0);
    assert seen == seen0 + {account.pubkey};
    if UniqueVersions(Flatten(order)) {
      ScanStep(order, i, j, done, programs, hasher, seen0, aggregate0, count0, liveTotal0);
    }
  }

  method ScanFile(
    order: seq<AccountFile>, i: nat, programs: AccountSelector, hasher: AccountHasher,
    seen0: set<Pubkey>, aggregate0: LtHash, count0: nat, liveTotal0: nat)
    returns (seen: set<Pubkey>, aggregate: LtHash, count: nat, liveTotal: nat)
    requires NewestFirst(order) && i < |order|
    requires Scanned(Flatten(order[..i]), seen0)
    requires UniqueVersions(Flatten(order)) ==>
      Totals(Flatten(order[..i]), programs, hasher, aggregate0, count0, liveTotal0)
    ensures Scanned(Flatten(order[..i + 1]), seen)
    ensures UniqueVersions(Flatten(order)) ==>
      Totals(Flatten(order[..i + 1]), programs, hasher, aggregate, count, liveTotal)
  {
    seen, aggregate, count, liveTotal := seen0, aggregate0, count0, liveTotal0;
    ghost var unique := UniqueVersions(Flatten(order));
    ghost var done := Flatten(order[..i]);
    for j := 0 to |order[i].accounts|
      invariant done == Flatten(order[..i]) + FileRecords(order[i])[..j]
      invariant Scanned(done, seen)
      invariant unique ==> Totals(done, programs, hasher, aggregate, count, liveTotal)
    {
      FileRecordsExtend(order[i], j);
      seen, aggregate, count, liveTotal :=
        ScanRecord(order, i, j, done, programs, hasher, seen, aggregate, count, liveTotal);
      done := done + [FileRecords(order[i])[j]];
    }
    FlattenExtend(order, i);
    assert done == Flatten(order[..i + 1]);
  }

  method ScanInOrder(order: seq<AccountFile>, programs: AccountSelector, hasher: AccountHasher)
    returns (aggregate: LtHash, count: nat, liveTotal: nat)
    requires NewestFirst(order)
    ensures UniqueVersions(Flatten(order)) ==> Totals(Flatten(order), programs, hasher, aggregate, count, liveTotal)
  {
    var seen: set<Pubkey> := {};
    aggregate, count, liveTotal := Identity(), 0, 0;
    for i := 0 to |order|
      invariant Scanned(Flatten(order[..i]), seen)
      invariant UniqueVersions(Flatten(order)) ==>
        Totals(Flatten(order[..i]), programs, hasher, aggregate, count, liveTotal)
    {
      seen, aggregate, count, liveTotal := ScanFile(order, i, programs, hasher, seen, aggregate, count, liveTotal);
    }
    assert order[..|order|] == order;
  }

  lemma HashedSide(live: set<Record>, programs: AccountSelector)
    ensures Hashed(live, programs) ==
      if programs.included == [] then live - Selected(live, programs) else Selected(live, programs)
  {
  }

  method ComputeSinglePass(files: seq<AccountFile>, programs: AccountSelector, hasher: AccountHasher)
    returns (result: Result<(LtHash, nat), HashError>)
    ensures result == Failure(EmptySelector) <==> programs.included == [] && programs.excluded == []
    ensures result.Success? || result == Failure(EmptySelector)
    ensures result.Success? && UniqueVersions(Flatten(files)) ==>
      result.value == SinglePassOutcome(files, programs, hasher)
  {
    var excludeMode := programs.included == [];
    if excludeMode && programs.excluded == [] {
      return Failure(EmptySelector);
    }
    var order := SortNewestFirst(files);
    PermutationKeepsUnique(order, files);
    ghost var unique := UniqueVersions(Flatten(order));
    var aggregate, count, liveTotal := ScanInOrder(order, programs, hasher);
    if excludeMode {
      if unique {
        KeptAndHashed(Live(Newest(Elements(Flatten(order)))), programs);
      }
      count := if liveTotal >= count then liveTotal - count else 0;
    }
    HashedSide(Live(Newest(Elements(Flatten(files)))), programs);
    result := Success((aggregate, count));
  }

  ghost predicate Scanned(done: seq<Record>, seen: set<Pubkey>)
  {
    && (forall r :: r in done ==> r.account.pubkey in seen)
    && (forall k :: k in seen ==> exists r :: r in done && r.account.pubkey == k)
  }

  /** What the totals of the single pass hold after the records `done`. */
  ghost predicate Totals(
    done: seq<Record>, programs: AccountSelector, hasher: AccountHasher,
    aggregate: LtHash, count: nat, liveTotal: nat)
  {
    var live := Live(Newest(Elements(done)));
    && aggregate == SetSum(Hashed(live, programs), HashOf(hasher))
    && count == |Hashed(live, programs)|
    && liveTotal == |live|
  }

  lemma ScannedStep(done: seq<Record>, r: Record, seen: set<Pubkey>)
    requires Scanned(done, seen)
    ensures Scanned(done + [r], seen + {r.account.pubkey})
  {
    forall k | k in seen + {r.account.pubkey}
      ensures exists q :: q in done + [r] && q.account.pubkey == k
    {
      if k in seen {
        var q :| q in done && q.account.pubkey == k;
        assert q in done + [r];
      } else {
        assert r in done + [r];
      }
    }
  }

  lemma NewestOneMore(rs: set<Record>, r: Record)
    requires forall q :: q in rs && q.account.pubkey == r.account.pubkey ==> Older(r.version, q.version)
    requires r !in rs
    ensures Newest(rs + {r}) ==
      if exists q :: q in rs && q.account.pubkey == r.account.pubkey then Newest(rs) else Newest(rs) + {r}
  {
    forall q | q in rs
      ensures Unbeaten(rs + {r}, q) <==> Unbeaten(rs, q)
    {
      assert forall p :: p in rs ==> p in rs + {r};
    }
    if q :| q in rs && q.account.pubkey == r.account.pubkey {
      assert q in rs + {r} && !Unbeaten(rs + {r}, r);
    } else {
      assert Unbeaten(rs + {r}, r);
    }
  }

  lemma HashedOneMore(live: set<Record>, r: Record, programs: AccountSelector, hasher: AccountHasher)
    requires r !in live
    ensures OnHashedSide(programs, r) ==>
      && |Hashed(live + {r}, programs)| == |Hashed(live, programs)| + 1
      && SetSum(Hashed(live + {r}, programs), HashOf(hasher)) ==
         MixIn(SetSum(Hashed(live, programs), HashOf(hasher)), LtHashAccount(hasher, r.account))
    ensures !OnHashedSide(programs, r) ==> Hashed(live + {r}, programs) == Hashed(live, programs)
  {
    if OnHashedSide(programs, r) {
      assert Hashed(live + {r}, programs) == Hashed(live, programs) + {r};
      SetSumAdd(Hashed(live, programs), r, HashOf(hasher));
    }
  }

  lemma ScanStep(
    order: seq<AccountFile>, i: nat, j: nat, done: seq<Record>, programs: AccountSelector, hasher: AccountHasher,
    seen: set<Pubkey>, aggregate: LtHash, count: nat, liveTotal: nat)
    requires NewestFirst(order) && UniqueVersions(Flatten(order))
    requires i < |order| && j < |order[i].accounts|
    requires done == Flatten(order[..i]) + FileRecords(order[i])[..j]
    requires Scanned(done, seen)
    requires Totals(done, programs, hasher, aggregate, count, liveTotal)
    ensures
      var account := order[i].accounts[j];
      var r := Record(FileVersion(order[i]), account);
      var live := account.pubkey !in seen && account.lamports != 0;
      var hit := live && OnHashedSide(programs, r);
      Totals(
        done + [r], programs, hasher,
        if hit then MixIn(aggregate, LtHashAccount(hasher, account)) else aggregate,
        if hit then count + 1 else count,
        if live then liveTotal + 1 else liveTotal)
  {
    var r := Record(FileVersion(order[i]), order[i].accounts[j]);
    FreshRecord(order, i, j, done);
    ScannedNotOlder(order, i, j, done);
    assert forall q :: q in done && q.account.pubkey == r.account.pubkey ==> Older(r.version, q.version);
    TotalsNext(done, r, seen, programs, hasher, aggregate, count, liveTotal);
  }

  lemma TotalsNext(
    done: seq<Record>, r: Record, seen: set<Pubkey>, programs: AccountSelector, hasher: AccountHasher,
    aggregate: LtHash, count: nat, liveTotal: nat)
    requires Scanned(done, seen) && Totals(done, programs, hasher, aggregate, count, liveTotal) && r !in done
    requires forall q :: q in done && q.account.pubkey == r.account.pubkey ==> Older(r.version, q.version)
    ensures
      var live := r.account.pubkey !in seen && r.account.lamports != 0;
      var hit := live && OnHashedSide(programs, r);
      Totals(
        done + [r], programs, hasher,
        if hit then MixIn(aggregate, LtHashAccount(hasher, r.account)) else aggregate,
        if hit then count + 1 else count,
        if live then liveTotal + 1 else liveTotal)
  {
    LiveNewestOneMore(done, r, seen);
    var live := Live(Newest(Elements(done)));
    if r.account.pubkey !in seen && r.account.lamports != 0 {
      HashedOneMore(live, r, programs, hasher);
    } else {
      assert live + {} == live;
    }
  }

  lemma LiveNewestOneMore(done: seq<Record>, r: Record, seen: set<Pubkey>)
    requires Scanned(done, seen)
    requires forall q :: q in done && q.account.pubkey == r.account.pubkey ==> Older(r.version, q.version)
    requires r !in done
    ensures r !in Live(Newest(Elements(done)))
    ensures Live(Newest(Elements(done + [r]))) == Live(Newest(Elements(done))) +
      if r.account.pubkey !in seen && r.account.lamports != 0 then {r} else {}
  {
    var rs := Elements(done);
    assert Elements(done + [r]) == rs + {r};
    NewestOneMore(rs, r);
    if r.account.pubkey in seen {
      var q :| q in done && q.account.pubkey == r.account.pubkey;
      assert q in rs;
    }
  }

  lemma {:induction false} RecordsComeFromFiles(files: seq<AccountFile>, r: Record)
    requires r in Flatten(files)
    ensures exists f :: f in files && FileVersion(f) == r.version
  {
    var init, last := files[..|files| - 1], files[|files| - 1];
    if r in FileRecords(last) {
      assert last in files;
    } else {
      RecordsComeFromFiles(init, r);
      var f :| f in init && FileVersion(f) == r.version;
      assert f in files;
    }
  }

  /** Newest-first order: whatever was scanned earlier for an account outranks the record under the cursor. */
  lemma ScannedNotOlder(files: seq<AccountFile>, i: nat, j: nat, done: seq<Record>)
    requires i < |files| && j < |files[i].accounts|
    requires done == Flatten(files[..i]) + FileRecords(files[i])[..j]
    requires NewestFirst(files)
    ensures forall q :: q in done ==> !Older(q.version, FileVersion(files[i]))
  {
    forall q | q in done
      ensures !Older(q.version, FileVersion(files[i]))
    {
      if q in Flatten(files[..i]) {
        RecordsComeFromFiles(files[..i], q);
        var f :| f in files[..i] && FileVersion(f) == q.version;
        var n :| 0 <= n < i && files[n] == f;
      } else {
        assert q in FileRecords(files[i]);
      }
    }
  }

  lemma KeptAndHashed(live: set<Record>, programs: AccountSelector)
    requires programs.included == []
    ensures |Hashed(live, programs)| <= |live|
    ensures |Selected(live, programs)| == |live| - |Hashed(live, programs)|
  {
    var hashed, kept := Hashed(live, programs), Selected(live, programs);
    assert live == kept + hashed && kept !! hashed;
  }
}
