/** The filtered snapshot hash, and how the three ways of hashing a snapshot relate. */
module FilteredHash {
  import opened Basics
  import opened LatticeHash
  import opened Programs
  import opened SnapshotRecords
  import opened SnapshotHash
  import opened AccountHashes

  const METADATA_HASH_BYTES: nat := 2048

  /******* The total stored at the end of the snapshot metadata *******/

  function EncodeLanes(h: LtHash): (b: Bytes)
    ensures |b| == METADATA_HASH_BYTES
  {
    seq(METADATA_HASH_BYTES, i requires 0 <= i < METADATA_HASH_BYTES =>
      if i % 2 == 0 then h[i / 2] % 256 else h[i / 2] / 256)
  }

  function DecodeLanes(b: Bytes): LtHash
    requires |b| == METADATA_HASH_BYTES
  {
    seq(LANES, i requires 0 <= i < LANES => b[2 * i] as int + 256 * (b[2 * i + 1] as int))
  }

  /** The last 2048 bytes of the metadata file. */
  function StoredTotal(metadata: Bytes): LtHash
    requires |metadata| >= METADATA_HASH_BYTES
  {
    DecodeLanes(metadata[|metadata| - METADATA_HASH_BYTES..])
  }

  method ExtractLtHash(metadata: Bytes) returns (result: Result<LtHash, HashError>)
    ensures |metadata| < METADATA_HASH_BYTES ==> result == Failure(MetadataTooSmall)
    ensures |metadata| >= METADATA_HASH_BYTES ==> result == Success(StoredTotal(metadata))
    ensures forall i :: result.Success? && 0 <= i < LANES ==>
      var at := |metadata| - METADATA_HASH_BYTES + 2 * i;
      result.value[i] == metadata[at] as int + 256 * (metadata[at + 1] as int)
  {
    if |metadata| < METADATA_HASH_BYTES {
      return Failure(MetadataTooSmall);
    }
    var bytes := metadata[|metadata| - METADATA_HASH_BYTES..];
    var lanes: seq<nat> := [];
    for i := 0 to LANES
      invariant |lanes| == i
      invariant forall n :: 0 <= n < i ==> lanes[n] == DecodeLanes(bytes)[n]
    {
      lanes := lanes + [bytes[2 * i] as int + 256 * (bytes[2 * i + 1] as int)];
    }
    assert lanes == DecodeLanes(bytes);
    result := Success(lanes);
  }

  /** Whatever precedes the hash in the metadata file, the little-endian lanes are read back. */
  lemma ExtractInvertsEncode(prefix: Bytes, h: LtHash)
    ensures StoredTotal(prefix + EncodeLanes(h)) == h
  {
    var metadata := prefix + EncodeLanes(h);
    assert metadata[|metadata| - METADATA_HASH_BYTES..] == EncodeLanes(h);
    forall i | 0 <= i < LANES
      ensures DecodeLanes(EncodeLanes(h))[i] == h[i]
    {
      assert (2 * i) / 2 == i && (2 * i + 1) / 2 == i;
    }
  }

  /******* The filtered hash *******/

  ghost function FilteredOutcome(
    files: seq<AccountFile>, metadata: Bytes, programs: AccountSelector, hasher: AccountHasher)
    : Result<(LtHash, nat), HashError>
  {
    if programs.included != [] then Success(SinglePassOutcome(files, programs, hasher))
    else if SystemProgram() in programs.excluded then Failure(SystemProgramExcluded)
    else if |metadata| < METADATA_HASH_BYTES then Failure(MetadataTooSmall)
    else if programs.excluded == [] then Success((StoredTotal(metadata), 0))
    else Success((
      MixOut(StoredTotal(metadata), SinglePassOutcome(files, programs, hasher).0),
      SinglePassOutcome(files, programs, hasher).1))
  }

  method ComputeFiltered(
    files: seq<AccountFile>, metadata: Bytes, programs: AccountSelector, hasher: AccountHasher)
    returns (result: Result<(LtHash, nat), HashError>)
    ensures UniqueVersions(Flatten(files)) ==> result == FilteredOutcome(files, metadata, programs, hasher)
    ensures result == Failure(SystemProgramExcluded) <==>
      programs.included == [] && SystemProgram() in programs.excluded
    ensures result == Failure(MetadataTooSmall) <==>
      && programs.included == [] && SystemProgram() !in programs.excluded
      && |metadata| < METADATA_HASH_BYTES
    ensures result.Failure? ==> result == Failure(SystemProgramExcluded) || result == Failure(MetadataTooSmall)
  {
    if programs.included != [] {
      result := ComputeSinglePass(files, programs, hasher);
      return;
    }
    if SystemProgram() in programs.excluded {
      return Failure(SystemProgramExcluded);
    }
    var extracted := ExtractLtHash(metadata);
    if extracted.Failure? {
      return Failure(extracted.error);
    }
    if programs.excluded == [] {
      return Success((extracted.value, 0));
    }
    result := ComputeSinglePass(files, programs, hasher);
    if result.Success? {
      result := Success((MixOut(extracted.value, result.value.0), result.value.1));
    }
  }

  /** The metadata total is the group sum over the newest live record of every account. */
  ghost predicate MetadataHoldsTotal(metadata: Bytes, files: seq<AccountFile>, hasher: AccountHasher)
  {
    && |metadata| >= METADATA_HASH_BYTES
    && StoredTotal(metadata) == SetSum(Live(Newest(Elements(Flatten(files)))), HashOf(hasher))
  }

  /** Subtracting the excluded accounts from the total gives the hash and the count of the two-pass form. */
  lemma ExcludeModeEqualsTwoPass(
    files: seq<AccountFile>, metadata: Bytes, programs: AccountSelector, hasher: AccountHasher)
    requires programs.included == [] && programs.excluded != [] && SystemProgram() !in programs.excluded
    requires MetadataHoldsTotal(metadata, files, hasher)
    ensures FilteredOutcome(files, metadata, programs, hasher) ==
      Success(Outcome(TwoPassKept(files, programs), hasher))
  {
    var live := Live(Newest(Elements(Flatten(files))));
    var kept := Selected(live, programs);
    assert kept == TwoPassKept(files, programs);
    assert live == kept + (live - kept);
    SetSumUnion(kept, live - kept, HashOf(hasher));
    MixOutCancels(SetSum(kept, HashOf(hasher)), SetSum(live - kept, HashOf(hasher)));
  }

  /** With no selector the hash agrees with the two-pass form, but the count is 0 whatever the snapshot holds. */
  lemma EmptySelectorCountsNothing(
    files: seq<AccountFile>, metadata: Bytes, programs: AccountSelector, hasher: AccountHasher)
    requires programs.included == [] && programs.excluded == []
    requires MetadataHoldsTotal(metadata, files, hasher)
    ensures
      var outcome := FilteredOutcome(files, metadata, programs, hasher);
      && outcome.Success?
      && outcome.value.0 == Outcome(TwoPassKept(files, programs), hasher).0
      && (outcome == Success(Outcome(TwoPassKept(files, programs), hasher)) <==>
          forall r :: r in Newest(Elements(Flatten(files))) ==> r.account.lamports == 0)
  {
    var newest := Newest(Elements(Flatten(files)));
    assert TwoPassKept(files, programs) == Live(newest);
    if |Live(newest)| == 0 {
      assert Live(newest) == {};
      forall r | r in newest
        ensures r.account.lamports == 0
      {
        assert r !in Live(newest);
      }
    }
  }

  /** A snapshot of one live account, with its hash as the total: the two-pass form counts 1. */
  lemma EmptySelectorMiscounts(slot: nat, a: Account, hasher: AccountHasher)
    requires a.lamports != 0
    ensures
      var files, programs := [AccountFile(slot, 0, [a])], AccountSelector([], []);
      var h := hasher(a.lamports, a.data, a.executable, a.owner, a.pubkey);
      && FilteredOutcome(files, EncodeLanes(h), programs, hasher) == Success((h, 0))
      && Outcome(TwoPassKept(files, programs), hasher) == (h, 1)
  {
    var h := hasher(a.lamports, a.data, a.executable, a.owner, a.pubkey);
    OneRecordHash(slot, 0, a, AccountSelector([], []), hasher);
    ExtractInvertsEncode([], h);
    assert [] + EncodeLanes(h) == EncodeLanes(h);
  }

  /******* Include mode: filtering before and after choosing the winner *******/

  lemma {:induction false} NewestExists(rs: set<Record>, r: Record)
    requires r in rs
    ensures exists q :: q in Newest(rs) && q.account.pubkey == r.account.pubkey && !Older(q.version, r.version)
    decreases rs
  {
    if Unbeaten(rs, r) {
      assert r in Newest(rs);
    } else {
      var p :| p in rs && p.account.pubkey == r.account.pubkey && Older(r.version, p.version);
      NewestExists(rs - {r}, p);
      var q :| q in Newest(rs - {r}) && q.account.pubkey == p.account.pubkey && !Older(q.version, p.version);
      assert q in Newest(rs) by {
        forall o | o in rs && o.account.pubkey == q.account.pubkey
          ensures !Older(q.version, o.version)
        {
          assert o == r || o in rs - {r};
        }
      }
    }
  }

  /** Every account of the snapshot has exactly one newest record. */
  lemma OneNewestRecord(files: seq<AccountFile>, r: Record)
    requires UniqueVersions(Flatten(files))
    requires r in Elements(Flatten(files))
    ensures exists q :: q in Newest(Elements(Flatten(files))) && q.account.pubkey == r.account.pubkey
    ensures forall p, q |
      && p in Newest(Elements(Flatten(files))) && q in Newest(Elements(Flatten(files)))
      && p.account.pubkey == q.account.pubkey == r.account.pubkey :: p == q
  {
    NewestExists(Elements(Flatten(files)), r);
    forall p, q |
      && p in Newest(Elements(Flatten(files))) && q in Newest(Elements(Flatten(files)))
      && p.account.pubkey == q.account.pubkey == r.account.pubkey
      ensures p == q
    {
      assert !Older(p.version, q.version) && !Older(q.version, p.version);
    }
  }

  /**
   The newest record of some account has an unselected owner, while its newest record with a selected
   owner is live: the account left the selected programs.
   */
  ghost predicate LeftThePrograms(files: seq<AccountFile>, programs: AccountSelector)
  {
    exists r, q :: Departed(Elements(Flatten(files)), programs, r, q)
  }

  ghost predicate Departed(all: set<Record>, programs: AccountSelector, r: Record, q: Record)
  {
    && r in Newest(all) && !programs.IsSelected(r.account.owner)
    && q in Newest(Selected(all, programs)) && q.account.lamports != 0
    && q.account.pubkey == r.account.pubkey
  }

  lemma SinglePassKeepsFewer(files: seq<AccountFile>, programs: AccountSelector)
    requires programs.included != []
    ensures Selected(Live(Newest(Elements(Flatten(files)))), programs) <= TwoPassKept(files, programs)
  {
    var all := Elements(Flatten(files));
    forall r | r in Selected(Live(Newest(all)), programs)
      ensures r in TwoPassKept(files, programs)
    {
      assert Unbeaten(Selected(all, programs), r);
    }
  }

  /**
   In include mode the first pass filters by owner before it chooses the winner and the single pass
   after. The two counts agree if and only if no account left the selected programs, and then the
   hashes agree too.
   */
  lemma IncludeModeAgreement(files: seq<AccountFile>, programs: AccountSelector, hasher: AccountHasher)
    requires programs.included != []
    requires UniqueVersions(Flatten(files))
    ensures SinglePassOutcome(files, programs, hasher).1 == Outcome(TwoPassKept(files, programs), hasher).1 <==>
      !LeftThePrograms(files, programs)
    ensures !LeftThePrograms(files, programs) ==>
      SinglePassOutcome(files, programs, hasher) == Outcome(TwoPassKept(files, programs), hasher)
  {
    var all := Elements(Flatten(files));
    var single, double := Selected(Live(Newest(all)), programs), TwoPassKept(files, programs);
    SinglePassKeepsFewer(files, programs);
    SubsetSize(single, double);
    if LeftThePrograms(files, programs) {
      var r, q :| Departed(all, programs, r, q);
      assert q in double;
      OneNewestRecord(files, r);
      assert q !in single;
    } else {
      forall q | q in double
        ensures q in single
      {
        KeptTwiceKeptOnce(files, programs, q);
      }
    }
  }

  /** The filtered hash of an include list, whatever the metadata: that of the two-pass form under the same condition. */
  lemma FilteredIncludeAgreement(
    files: seq<AccountFile>, metadata: Bytes, programs: AccountSelector, hasher: AccountHasher)
    requires programs.included != [] && UniqueVersions(Flatten(files))
    ensures FilteredOutcome(files, metadata, programs, hasher) == Success(Outcome(TwoPassKept(files, programs), hasher))
      <==> !LeftThePrograms(files, programs)
  {
    IncludeModeAgreement(files, programs, hasher);
  }

  lemma KeptTwiceKeptOnce(files: seq<AccountFile>, programs: AccountSelector, q: Record)
    requires programs.included != []
    requires q in TwoPassKept(files, programs)
    requires !LeftThePrograms(files, programs)
    ensures q in Selected(Live(Newest(Elements(Flatten(files)))), programs)
  {
    var all := Elements(Flatten(files));
    NewestExists(all, q);
    var r :| r in Newest(all) && r.account.pubkey == q.account.pubkey && !Older(r.version, q.version);
    assert q in Newest(Selected(all, programs));
    assert !Departed(all, programs, r, q);
    assert r in Selected(all, programs);
    assert !Older(q.version, r.version);
    assert q.version == r.version;
    assert Unbeaten(all, q);
  }

  function Key(b: Byte): Pubkey
  {
    seq(32, i => b)
  }

  /** An account moved from the included program 1 to program 2: the two-pass form still counts it. */
  lemma IncludeModeCanDisagree(hasher: AccountHasher)
    ensures
      var programs := AccountSelector([Key(1)], []);
      var before := AccountFile(1, 0, [Account(Key(9), 5, Key(1), false, [])]);
      var after := AccountFile(2, 0, [Account(Key(9), 5, Key(2), false, [])]);
      && SinglePassOutcome([before, after], programs, hasher).1 == 0
      && Outcome(TwoPassKept([before, after], programs), hasher).1 == 1
  {
    var programs := AccountSelector([Key(1)], []);
    var before := AccountFile(1, 0, [Account(Key(9), 5, Key(1), false, [])]);
    var after := AccountFile(2, 0, [Account(Key(9), 5, Key(2), false, [])]);
    var q, r := Record(Version(1, 0), before.accounts[0]), Record(Version(2, 0), after.accounts[0]);
    assert Key(1)[0] != Key(2)[0];
    FlattenSingle(1, 0, before.accounts[0]);
    FlattenSingle(2, 0, after.accounts[0]);
    FlattenConcat([before], [after]);
    assert [before, after] == [before] + [after];
    var all := Elements(Flatten([before, after]));
    assert all == {q, r};
    assert Older(q.version, r.version) && !Unbeaten(all, q);
    assert Newest(all) == {r};
    assert Selected(all, programs) == {q};
    assert Newest({q}) == {q};
    assert TwoPassKept([before, after], programs) == {q};
    assert Selected(Live(Newest(all)), programs) == {};
  }

  /******* File order *******/

  /** No form depends on the order of the input files. */
  lemma FileOrderIsIrrelevant(
    a: seq<AccountFile>, b: seq<AccountFile>, metadata: Bytes, programs: AccountSelector, hasher: AccountHasher)
    requires multiset(a) == multiset(b)
    ensures UniqueVersions(Flatten(a)) <==> UniqueVersions(Flatten(b))
    ensures TwoPassKept(a, programs) == TwoPassKept(b, programs)
    ensures SinglePassOutcome(a, programs, hasher) == SinglePassOutcome(b, programs, hasher)
    ensures FilteredOutcome(a, metadata, programs, hasher) == FilteredOutcome(b, metadata, programs, hasher)
  {
    PermutationKeepsUnique(a, b);
  }
}
