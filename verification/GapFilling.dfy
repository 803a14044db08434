/** The gap-filling pass over a snapshot: which records it sends, and what they say of each account. */
module GapFilling {
  import opened Basics
  import opened Programs
  import opened SnapshotRecords
  import opened FilteredHash

  /** An include list lets closed accounts of every owner through; an exclude list does not. */
  predicate Keeps(programs: AccountSelector, a: Account)
  {
    if programs.included != [] then a.owner in programs.included || a.lamports == 0 else a.owner !in programs.excluded
  }

  /** The accounts kept among the first `n`. */
  function KeptFirst(programs: AccountSelector, accounts: seq<Account>, n: nat): seq<Account>
    requires n <= |accounts|
  {
    if n == 0 then []
    else KeptFirst(programs, accounts, n - 1) + if Keeps(programs, accounts[n - 1]) then [accounts[n - 1]] else []
  }

  lemma {:induction false} KeptFirstMembers(programs: AccountSelector, accounts: seq<Account>, n: nat, a: Account)
    requires n <= |accounts|
    ensures a in KeptFirst(programs, accounts, n) <==> Keeps(programs, a) && a in accounts[..n]
  {
    if n > 0 {
      KeptFirstMembers(programs, accounts, n - 1, a);
      assert accounts[..n] == accounts[..n - 1] + [accounts[n - 1]];
    }
  }

  /** The scan of one account file. */
  method KeepAccounts(programs: AccountSelector, accounts: seq<Account>) returns (kept: seq<Account>)
    ensures kept == KeptFirst(programs, accounts, |accounts|)
  {
    kept := [];
    for i := 0 to |accounts|
      invariant kept == KeptFirst(programs, accounts, i)
    {
      var account := accounts[i];
      if programs.included != [] {
        if account.owner !in programs.included && account.lamports > 0 {
          continue;
        }
      } else if account.owner in programs.excluded {
        continue;
      }
      kept := kept + [account];
    }
  }

  ghost predicate Sent(programs: AccountSelector, gaps: seq<nat>, r: Record)
  {
    r.version.slot in gaps && Keeps(programs, r.account)
  }

  /** The blocks hold exactly the records to be sent of the files. */
  ghost predicate HoldsSent(blocks: seq<AccountFile>, files: seq<AccountFile>, gaps: seq<nat>, programs: AccountSelector)
  {
    forall r :: r in Flatten(blocks) <==> r in Flatten(files) && Sent(programs, gaps, r)
  }

  /** The blocks sent are exactly the kept records of the files whose slot is in the list of gaps. */
  method FillGaps(files: seq<AccountFile>, gaps: seq<nat>, programs: AccountSelector) returns (blocks: seq<AccountFile>)
    ensures HoldsSent(blocks, files, gaps, programs)
  {
    blocks := [];
    for i := 0 to |files|
      invariant HoldsSent(blocks, files[..i], gaps, programs)
    {
      FlattenExtend(files, i);
      if files[i].slot !in gaps {
        SkipFile(blocks, files, i, gaps, programs);
      } else {
        var kept := KeepAccounts(programs, files[i].accounts);
        var block := AccountFile(files[i].slot, files[i].writeVersion, kept);
        SendFile(blocks, files, i, gaps, programs, block);
        blocks := blocks + [block];
      }
    }
    assert files[..|files|] == files;
  }

  lemma SkipFile(
    blocks: seq<AccountFile>, files: seq<AccountFile>, i: nat, gaps: seq<nat>, programs: AccountSelector)
    requires i < |files| && files[i].slot !in gaps && HoldsSent(blocks, files[..i], gaps, programs)
    ensures HoldsSent(blocks, files[..i + 1], gaps, programs)
  {
    FlattenExtend(files, i);
    forall r
      ensures r in FileRecords(files[i]) ==> !Sent(programs, gaps, r)
    {
      InFile(files[i], r);
    }
  }

  lemma SendFile(
    blocks: seq<AccountFile>, files: seq<AccountFile>, i: nat, gaps: seq<nat>, programs: AccountSelector,
    block: AccountFile)
    requires i < |files| && files[i].slot in gaps && HoldsSent(blocks, files[..i], gaps, programs)
    requires block ==
      AccountFile(files[i].slot, files[i].writeVersion, KeptFirst(programs, files[i].accounts, |files[i].accounts|))
    ensures HoldsSent(blocks + [block], files[..i + 1], gaps, programs)
  {
    FlattenExtend(files, i);
    FlattenConcat(blocks, [block]);
    FlattenOne(block);
    forall r
      ensures r in FileRecords(block) <==> r in FileRecords(files[i]) && Sent(programs, gaps, r)
    {
      BlockRecords(programs, files[i], block, r);
      InFile(files[i], r);
    }
  }

  lemma FlattenOne(f: AccountFile)
    ensures Flatten([f]) == FileRecords(f)
  {
    assert [f][..0] == [];
  }

  lemma BlockRecords(programs: AccountSelector, file: AccountFile, block: AccountFile, r: Record)
    requires block == AccountFile(file.slot, file.writeVersion, KeptFirst(programs, file.accounts, |file.accounts|))
    ensures r in FileRecords(block) <==> r in FileRecords(file) && Keeps(programs, r.account)
  {
    KeptFirstMembers(programs, file.accounts, |file.accounts|, r.account);
    assert file.accounts[..|file.accounts|] == file.accounts;
    InFile(block, r);
    InFile(file, r);
  }

  lemma InFile(f: AccountFile, r: Record)
    ensures r in FileRecords(f) <==> r.version == FileVersion(f) && r.account in f.accounts
  {
    if r.version == FileVersion(f) && r.account in f.accounts {
      var i :| 0 <= i < |f.accounts| && f.accounts[i] == r.account;
      assert FileRecords(f)[i] == r;
    }
  }

  /******* What the sent records say *******/

  ghost function KeptRecords(all: set<Record>, programs: AccountSelector): set<Record>
  {
    set r | r in all && Keeps(programs, r.account)
  }

  /**
   The newest record `r` of an account is held back while an older live record `q` is sent. An include list holds
   back live records of other owners; an exclude list holds back every record of the excluded owners, closes too.
   */
  ghost predicate Outdated(all: set<Record>, programs: AccountSelector, r: Record, q: Record)
  {
    && r in Newest(all) && !Keeps(programs, r.account)
    && q in Newest(KeptRecords(all, programs)) && q.account.lamports != 0
    && q.account.pubkey == r.account.pubkey
  }

  /**
   The newest live records among those kept are the newest live selected records, if and only if no account has a
   newest record that is held back behind a live one that is sent.
   */
  lemma SentRecordsSuffice(all: set<Record>, programs: AccountSelector)
    requires UniqueVersionsOf(all)
    ensures Live(Newest(KeptRecords(all, programs))) == Selected(Live(Newest(all)), programs) <==>
      !exists r, q :: Outdated(all, programs, r, q)
  {
    var sent, wanted := Live(Newest(KeptRecords(all, programs))), Selected(Live(Newest(all)), programs);
    forall r | r in wanted
      ensures r in sent
    {
      assert Unbeaten(KeptRecords(all, programs), r);
    }
    if r, q :| Outdated(all, programs, r, q) {
      assert q in sent;
      assert q !in wanted;
    } else {
      forall q | q in sent
        ensures q in wanted
      {
        SentIsWanted(all, programs, q);
      }
    }
  }

  lemma SentIsWanted(all: set<Record>, programs: AccountSelector, q: Record)
    requires UniqueVersionsOf(all)
    requires q in Live(Newest(KeptRecords(all, programs)))
    requires !exists r, p :: Outdated(all, programs, r, p)
    ensures q in Selected(Live(Newest(all)), programs)
  {
    NewestExists(all, q);
    var r :| r in Newest(all) && r.account.pubkey == q.account.pubkey && !Older(r.version, q.version);
    assert !Outdated(all, programs, r, q);
    assert r in KeptRecords(all, programs);
    assert !Older(q.version, r.version);
  }

  /** The records of the files whose slot is in the list of gaps. */
  ghost function GapRecords(files: seq<AccountFile>, gaps: seq<nat>): set<Record>
  {
    set r | r in Flatten(files) && r.version.slot in gaps
  }

  /** What the blocks of `FillGaps` say of each account is right if and only if no account of the gaps is outdated. */
  lemma GapFillingIsRightIff(files: seq<AccountFile>, gaps: seq<nat>, programs: AccountSelector, blocks: seq<AccountFile>)
    requires HoldsSent(blocks, files, gaps, programs) && UniqueVersionsOf(GapRecords(files, gaps))
    ensures Elements(Flatten(blocks)) == KeptRecords(GapRecords(files, gaps), programs)
    ensures Live(Newest(Elements(Flatten(blocks)))) == Selected(Live(Newest(GapRecords(files, gaps))), programs) <==>
      !exists r, q :: Outdated(GapRecords(files, gaps), programs, r, q)
  {
    assert Elements(Flatten(blocks)) == KeptRecords(GapRecords(files, gaps), programs);
    SentRecordsSuffice(GapRecords(files, gaps), programs);
  }

  /******* Closed accounts *******/

  function Before(r: Record, owner: Pubkey): Record
  {
    Record(Version(0, 0), r.account.(owner := owner, lamports := 1))
  }

  /**
   A closing record never leaves its account reported alive, whatever else was stored, if and only if an include list
   is set or its owner is not excluded; `p` is any selected program.
   */
  lemma ClosedIsSafeIff(programs: AccountSelector, r: Record, p: Pubkey)
    requires r.account.lamports == 0 && Older(Version(0, 0), r.version) && programs.IsSelected(p)
    ensures (forall all, q :: !Outdated(all, programs, r, q)) <==>
      programs.included != [] || r.account.owner !in programs.excluded
  {
    if !Keeps(programs, r.account) {
      ClosedIsReportedAlive(programs, r, p);
      assert Outdated({r, Before(r, p)}, programs, r, Before(r, p));
    }
  }

  /** An account that was alive under a selected program and closed under an excluded owner is reported alive. */
  lemma ClosedIsReportedAlive(programs: AccountSelector, r: Record, p: Pubkey)
    requires r.account.lamports == 0 && Older(Version(0, 0), r.version)
    requires programs.IsSelected(p) && !Keeps(programs, r.account)
    ensures Outdated({r, Before(r, p)}, programs, r, Before(r, p))
    ensures Live(Newest(KeptRecords({r, Before(r, p)}, programs))) == {Before(r, p)}
    ensures Selected(Live(Newest({r, Before(r, p)})), programs) == {}
  {
    var q := Before(r, p);
    var all := {r, q};
    assert Keeps(programs, q.account);
    assert KeptRecords(all, programs) == {q};
    assert Unbeaten(all, r) && !Unbeaten(all, q);
    assert Newest(all) == {r};
    assert Newest({q}) == {q};
  }

  /** With an include list the same happens to an account that went, alive, to another owner. */
  lemma MovedIsReportedAlive(programs: AccountSelector, r: Record, p: Pubkey)
    requires programs.included != [] && p in programs.included
    requires r.account.lamports > 0 && r.account.owner !in programs.included && Older(Version(0, 0), r.version)
    ensures Live(Newest(KeptRecords({r, Before(r, p)}, programs))) == {Before(r, p)}
    ensures Selected(Live(Newest({r, Before(r, p)})), programs) == {}
  {
    var q := Before(r, p);
    var all := {r, q};
    assert KeptRecords(all, programs) == {q};
    assert Unbeaten(all, r) && !Unbeaten(all, q);
    assert Newest(all) == {r};
    assert Newest({q}) == {q};
  }
}
