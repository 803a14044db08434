/** Snapshot account files, the records they hold, and which record of an account is its newest. */
module SnapshotRecords {
  import opened Basics
  import opened LatticeHash
  import opened Programs

  datatype Account = Account(
    pubkey: Pubkey, lamports: nat, owner: Pubkey, executable: bool, data: Bytes)

  datatype AccountFile = AccountFile(slot: nat, writeVersion: nat, accounts: seq<Account>)

  datatype Record = Record(version: Version, account: Account)

  /** blake3 over lamports, data, executable, owner and pubkey, expanded to lanes; not interpreted here. */
  type AccountHasher = (nat, Bytes, bool, Pubkey, Pubkey) -> LtHash

  function LtHashAccount(hasher: AccountHasher, a: Account): LtHash
  {
    if a.lamports == 0 then Identity()
    else hasher(a.lamports, a.data, a.executable, a.owner, a.pubkey)
  }

  ghost function HashOf(hasher: AccountHasher): Record -> LtHash
  {
    (r: Record) => LtHashAccount(hasher, r.account)
  }

  function FileVersion(f: AccountFile): Version
  {
    Version(f.slot, f.writeVersion)
  }

  function FileRecords(f: AccountFile): (rs: seq<Record>)
    ensures |rs| == |f.accounts|
  {
    seq(|f.accounts|, i requires 0 <= i < |f.accounts| => Record(FileVersion(f), f.accounts[i]))
  }

  function Flatten(files: seq<AccountFile>): seq<Record>
  {
    if files == [] then []
    else Flatten(files[..|files| - 1]) + FileRecords(files[|files| - 1])
  }

  ghost function Elements(rs: seq<Record>): set<Record>
  {
    set r | r in rs
  }

  /** Every record is stored once, and no two records of an account carry the same version. */
  ghost predicate UniqueVersions(rs: seq<Record>)
  {
    && (forall r :: r in rs ==> multiset(rs)[r] == 1)
    && forall p, q :: p in rs && q in rs && p.account.pubkey == q.account.pubkey && p.version == q.version ==> p == q
  }

  ghost predicate UniqueVersionsOf(rs: set<Record>)
  {
    forall p, q :: p in rs && q in rs && p.account.pubkey == q.account.pubkey && p.version == q.version ==> p == q
  }

  /** The records that no record of the same account outranks. */
  ghost function Newest(rs: set<Record>): set<Record>
  {
    set r | r in rs && Unbeaten(rs, r)
  }

  ghost predicate Unbeaten(rs: set<Record>, r: Record)
  {
    forall q :: q in rs && q.account.pubkey == r.account.pubkey ==> !Older(r.version, q.version)
  }

  ghost function Live(rs: set<Record>): set<Record>
  {
    set r | r in rs && r.account.lamports != 0
  }

  ghost function Selected(rs: set<Record>, programs: AccountSelector): set<Record>
  {
    set r | r in rs && programs.IsSelected(r.account.owner)
  }

  lemma FlattenExtend(files: seq<AccountFile>, i: nat)
    requires i < |files|
    ensures Flatten(files[..i + 1]) == Flatten(files[..i]) + FileRecords(files[i])
  {
    assert files[..i + 1][..i] == files[..i];
  }

  lemma FileRecordsExtend(f: AccountFile, j: nat)
    requires j < |f.accounts|
    ensures FileRecords(f)[..j + 1] == FileRecords(f)[..j] + [Record(FileVersion(f), f.accounts[j])]
  {
  }

  lemma {:induction false} FlattenConcat(a: seq<AccountFile>, b: seq<AccountFile>)
    ensures Flatten(a + b) == Flatten(a) + Flatten(b)
    decreases |b|
  {
    if b == [] {
      assert a + b == a;
    } else {
      var init, last := b[..|b| - 1], b[|b| - 1];
      assert (a + b)[..|a + b| - 1] == a + init;
      FlattenConcat(a, init);
    }
  }

  lemma FlattenMiddle(front: seq<AccountFile>, f: AccountFile, back: seq<AccountFile>)
    ensures multiset(Flatten(front + [f] + back)) == multiset(Flatten(front + back)) + multiset(FileRecords(f))
  {
    FlattenConcat(front, back);
    FlattenConcat(front, [f]);
    FlattenConcat(front + [f], back);
    assert [f][..0] == [];
    assert Flatten([f]) == FileRecords(f);
  }

  lemma MiddleOut<T>(init: seq<T>, last: T, front: seq<T>, back: seq<T>)
    requires multiset(init + [last]) == multiset(front + [last] + back)
    ensures multiset(init) == multiset(front + back)
  {
    assert multiset(init) == multiset(init + [last]) - multiset{last};
    assert multiset(front + back) == multiset(front + [last] + back) - multiset{last};
  }

  /** Reordering the files reorders the records and changes nothing else. */
  lemma {:induction false} FlattenPermutation(a: seq<AccountFile>, b: seq<AccountFile>)
    requires multiset(a) == multiset(b)
    ensures multiset(Flatten(a)) == multiset(Flatten(b))
    decreases |a|
  {
    if a == [] {
      assert |b| == |multiset(b)| == 0;
    } else {
      var init, last := a[..|a| - 1], a[|a| - 1];
      assert a == init + [last];
      assert last in multiset(b);
      var i :| 0 <= i < |b| && b[i] == last;
      var front, back := b[..i], b[i + 1..];
      assert b == front + [last] + back;
      MiddleOut(init, last, front, back);
      FlattenPermutation(init, front + back);
      FlattenMiddle(front, last, back);
    }
  }

  /** What uniqueness says about the record that comes after a prefix. */
  lemma UniqueNext(before: seq<Record>, r: Record, after: seq<Record>)
    requires UniqueVersions(before + [r] + after)
    ensures r !in before
    ensures forall q :: q in before && q.account.pubkey == r.account.pubkey ==> q.version != r.version
  {
    var rs := before + [r] + after;
    assert multiset(rs) == multiset(before) + multiset{r} + multiset(after);
    assert r in rs;
    assert forall q :: q in before ==> q in rs;
  }

  lemma PermutationKeepsUnique(a: seq<AccountFile>, b: seq<AccountFile>)
    requires multiset(a) == multiset(b)
    ensures UniqueVersions(Flatten(a)) <==> UniqueVersions(Flatten(b))
    ensures Elements(Flatten(a)) == Elements(Flatten(b))
  {
    FlattenPermutation(a, b);
    forall r
      ensures r in Flatten(a) <==> r in Flatten(b)
    {
      assert r in Flatten(a) <==> r in multiset(Flatten(a));
      assert r in Flatten(b) <==> r in multiset(Flatten(b));
    }
  }
}
