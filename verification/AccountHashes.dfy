/** What the snapshot hash is made of: the fields of the newest live selected accounts, and what changing one does. */
module AccountHashes {
  import opened Basics
  import opened LatticeHash
  import opened Programs
  import opened SnapshotRecords
  import opened SnapshotHash

  lemma FlattenSingle(slot: nat, writeVersion: nat, a: Account)
    ensures Flatten([AccountFile(slot, writeVersion, [a])]) == [Record(Version(slot, writeVersion), a)]
  {
    var f := AccountFile(slot, writeVersion, [a]);
    assert [f][..0] == [];
    assert FileRecords(f) == [Record(FileVersion(f), a)];
  }

  lemma SumOfOne(r: Record, hasher: AccountHasher)
    requires r.account.lamports != 0
    ensures var a := r.account;
      SetSum({r}, HashOf(hasher)) == hasher(a.lamports, a.data, a.executable, a.owner, a.pubkey)
  {
    SetSumAdd({}, r, HashOf(hasher));
    assert {} + {r} == {r};
    MixInIdentity(LtHashAccount(hasher, r.account));
  }

  /** Closed accounts add nothing to a hash. */
  lemma {:induction false} ClosedAddNothing(rs: set<Record>, hasher: AccountHasher)
    requires forall r :: r in rs ==> r.account.lamports == 0
    ensures SetSum(rs, HashOf(hasher)) == Identity()
    decreases rs
  {
    if rs != {} {
      var r :| r in rs;
      SetSumTake(rs, r, HashOf(hasher));
      ClosedAddNothing(rs - {r}, hasher);
      MixInIdentity(Identity());
    }
  }

  /** A snapshot of one account: its hash over its five fields and a count of 1, or nothing when it is closed. */
  lemma OneRecordHash(slot: nat, writeVersion: nat, a: Account, programs: AccountSelector, hasher: AccountHasher)
    requires programs.IsSelected(a.owner)
    ensures var files := [AccountFile(slot, writeVersion, [a])];
      var expected :=
        if a.lamports == 0 then (Identity(), 0)
        else (hasher(a.lamports, a.data, a.executable, a.owner, a.pubkey), 1);
      && Outcome(TwoPassKept(files, programs), hasher) == expected
      && (programs.included != [] ==> SinglePassOutcome(files, programs, hasher) == expected)
  {
    var r := Record(Version(slot, writeVersion), a);
    FlattenSingle(slot, writeVersion, a);
    assert Elements([r]) == {r};
    KeptOfNewest({r}, r, programs);
    if a.lamports != 0 {
      SumOfOne(r, hasher);
    }
  }

  /** When the records of a snapshot are those of one account, the newest one alone is kept, if it is live. */
  lemma KeptOfNewest(all: set<Record>, newest: Record, programs: AccountSelector)
    requires newest in all && forall r :: r in all ==> programs.IsSelected(r.account.owner)
    requires forall r :: r in all && r != newest ==>
      r.account.pubkey == newest.account.pubkey && Older(r.version, newest.version)
    ensures Selected(all, programs) == all && Newest(all) == {newest}
    ensures Live(Selected({newest}, programs)) == (if newest.account.lamports == 0 then {} else {newest})
    ensures Selected(Live({newest}), programs) == (if newest.account.lamports == 0 then {} else {newest})
  {
    assert Unbeaten(all, newest);
    forall r | r in all && r != newest
      ensures !Unbeaten(all, r)
    {
      assert Older(r.version, newest.version);
    }
  }

  /**
   An account stored twice: the file of the higher slot decides and, at one slot, the one of the higher write version,
   in whatever order the files come.
   */
  lemma NewerFileDecides(
    older: AccountFile, newer: AccountFile, a: Account, b: Account, programs: AccountSelector, hasher: AccountHasher)
    requires older.accounts == [a] && newer.accounts == [b] && a.pubkey == b.pubkey
    requires older.slot < newer.slot || (older.slot == newer.slot && older.writeVersion < newer.writeVersion)
    requires programs.IsSelected(a.owner) && programs.IsSelected(b.owner)
    ensures var expected :=
        if b.lamports == 0 then (Identity(), 0)
        else (hasher(b.lamports, b.data, b.executable, b.owner, b.pubkey), 1);
      && Outcome(TwoPassKept([older, newer], programs), hasher) == expected
      && Outcome(TwoPassKept([newer, older], programs), hasher) == expected
      && (programs.included != [] ==>
        && SinglePassOutcome([older, newer], programs, hasher) == expected
        && SinglePassOutcome([newer, older], programs, hasher) == expected)
  {
    var q, r := Record(FileVersion(older), a), Record(FileVersion(newer), b);
    TwoFiles(older, newer, a, b);
    TwoFiles(newer, older, b, a);
    assert {q, r} == {r, q};
    KeptOfNewest({q, r}, r, programs);
    if b.lamports != 0 {
      SumOfOne(r, hasher);
    }
  }

  lemma TwoFiles(f: AccountFile, g: AccountFile, a: Account, b: Account)
    requires f.accounts == [a] && g.accounts == [b]
    ensures Elements(Flatten([f, g])) ==
      {Record(Version(f.slot, f.writeVersion), a), Record(Version(g.slot, g.writeVersion), b)}
  {
    FlattenSingle(f.slot, f.writeVersion, a);
    FlattenSingle(g.slot, g.writeVersion, b);
    FlattenConcat([f], [g]);
    assert [f, g] == [f] + [g];
  }

  /******* Replacing one account *******/

  /** The snapshots differ in one record, which keeps its account and its version. */
  ghost predicate Replaces(a: set<Record>, b: set<Record>, r: Record, q: Record)
  {
    && r in a && q !in a && b == a - {r} + {q}
    && r.account.pubkey == q.account.pubkey && r.version == q.version
  }

  /** A replaced record is newest where the old one was, and the others are as new as they were. */
  lemma ReplacedNewest(a: set<Record>, b: set<Record>, r: Record, q: Record)
    requires Replaces(a, b, r, q) && r in Newest(a)
    ensures Newest(b) == Newest(a) - {r} + {q} && q !in Newest(a)
  {
    forall p | p in a && p != r
      ensures Unbeaten(b, p) <==> Unbeaten(a, p)
    {
      assert Older(p.version, r.version) <==> Older(p.version, q.version);
    }
    assert Unbeaten(b, q);
  }

  lemma ReplacedSum(kept: set<Record>, r: Record, q: Record, hasher: AccountHasher)
    requires r in kept && q !in kept && r.account.lamports != 0 && q.account.lamports != 0
    ensures var a, b := r.account, q.account;
      SetSum(kept - {r} + {q}, HashOf(hasher)) == MixIn(
        MixOut(SetSum(kept, HashOf(hasher)), hasher(a.lamports, a.data, a.executable, a.owner, a.pubkey)),
        hasher(b.lamports, b.data, b.executable, b.owner, b.pubkey))
    ensures |kept - {r} + {q}| == |kept|
  {
    var rest := kept - {r};
    assert rest + {r} == kept;
    SetSumAdd(rest, r, HashOf(hasher));
    SetSumAdd(rest, q, HashOf(hasher));
    MixOutCancels(SetSum(rest, HashOf(hasher)), LtHashAccount(hasher, r.account));
  }

  /**
   Replacing a kept record by another live selected one of its account mixes out the hash of the old fields and mixes
   in that of the new ones; the count stays.
   */
  lemma ReplacedTwoPass(
    a: seq<AccountFile>, b: seq<AccountFile>, r: Record, q: Record, programs: AccountSelector, hasher: AccountHasher)
    requires Replaces(Elements(Flatten(a)), Elements(Flatten(b)), r, q)
    requires r in TwoPassKept(a, programs) && programs.IsSelected(q.account.owner) && q.account.lamports != 0
    ensures var before, after :=
        Outcome(TwoPassKept(a, programs), hasher), Outcome(TwoPassKept(b, programs), hasher);
      var x, y := r.account, q.account;
      && after.0 == MixIn(
        MixOut(before.0, hasher(x.lamports, x.data, x.executable, x.owner, x.pubkey)),
        hasher(y.lamports, y.data, y.executable, y.owner, y.pubkey))
      && after.1 == before.1
  {
    var all, more := Tracked(Elements(Flatten(a)), programs), Tracked(Elements(Flatten(b)), programs);
    assert Replaces(all, more, r, q);
    ReplacedNewest(all, more, r, q);
    assert TwoPassKept(b, programs) == TwoPassKept(a, programs) - {r} + {q};
    ReplacedSum(TwoPassKept(a, programs), r, q, hasher);
  }

  /** The same of the single pass, for a newest live record on the side of the selector that is hashed. */
  lemma ReplacedSinglePass(
    a: seq<AccountFile>, b: seq<AccountFile>, r: Record, q: Record, programs: AccountSelector, hasher: AccountHasher)
    requires Replaces(Elements(Flatten(a)), Elements(Flatten(b)), r, q) && r in Newest(Elements(Flatten(a)))
    requires r.account.lamports != 0 && q.account.lamports != 0
    requires programs.IsSelected(r.account.owner) == programs.IsSelected(q.account.owner) == (programs.included != [])
    ensures var before, after := SinglePassOutcome(a, programs, hasher), SinglePassOutcome(b, programs, hasher);
      var x, y := r.account, q.account;
      && after.0 == MixIn(
        MixOut(before.0, hasher(x.lamports, x.data, x.executable, x.owner, x.pubkey)),
        hasher(y.lamports, y.data, y.executable, y.owner, y.pubkey))
      && after.1 == before.1
  {
    ReplacedNewest(Elements(Flatten(a)), Elements(Flatten(b)), r, q);
    var live, after := Live(Newest(Elements(Flatten(a)))), Live(Newest(Elements(Flatten(b))));
    assert after == live - {r} + {q};
    ReplacedSides(live, after, r, q, programs);
    HashedSide(live, programs);
    HashedSide(after, programs);
    ReplacedSum(Hashed(live, programs), r, q, hasher);
  }

  lemma ReplacedSides(live: set<Record>, after: set<Record>, r: Record, q: Record, programs: AccountSelector)
    requires r in live && q !in live && after == live - {r} + {q}
    requires programs.IsSelected(r.account.owner) == programs.IsSelected(q.account.owner) == (programs.included != [])
    ensures r in Hashed(live, programs) && q !in Hashed(live, programs)
    ensures Hashed(after, programs) == Hashed(live, programs) - {r} + {q}
    ensures |Selected(after, programs)| == |Selected(live, programs)|
  {
    if programs.IsSelected(r.account.owner) {
      var rest := Selected(live, programs) - {r};
      assert Selected(live, programs) == rest + {r} && Selected(after, programs) == rest + {q};
    } else {
      assert Selected(live, programs) == Selected(after, programs);
    }
  }

  /** Two live accounts: the lanes of their hashes are added, and the count is 2. */
  lemma TwoAccountsAreMixed(f: AccountFile, a: Account, b: Account, programs: AccountSelector, hasher: AccountHasher)
    requires f.accounts == [a, b] && a.pubkey != b.pubkey && a.lamports != 0 && b.lamports != 0
    requires programs.IsSelected(a.owner) && programs.IsSelected(b.owner)
    ensures var outcome := Outcome(TwoPassKept([f], programs), hasher);
      && outcome.0 == MixIn(
        hasher(a.lamports, a.data, a.executable, a.owner, a.pubkey),
        hasher(b.lamports, b.data, b.executable, b.owner, b.pubkey))
      && outcome.1 == 2
  {
    var p, q := Record(FileVersion(f), a), Record(FileVersion(f), b);
    assert [f][..0] == [];
    assert FileRecords(f) == [p, q];
    assert Flatten([f]) == [p, q];
    assert Elements([p, q]) == {p, q};
    assert Selected({p, q}, programs) == {p, q} && Newest({p, q}) == {p, q} && Live({p, q}) == {p, q};
    SumOfOne(p, hasher);
    SetSumAdd({p}, q, HashOf(hasher));
    assert {p} + {q} == {p, q};
  }
}
