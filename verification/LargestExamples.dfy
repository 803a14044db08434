/** Snapshots on which the seed of the largest accounts goes wrong, or right where that is not expected. */
module LargestExamples {
  import opened Basics
  import opened LargestTops
  import opened LargestSeed
  import opened LargestArrangements
  import opened LargestRuns
  import opened LargestBootstrap

  /******* A funded holder cut by a version that is gone *******/

  /** Holders 1 to k + 1 with amounts k + 1 down to 1. */
  function FullFile(k: nat): File
  {
    seq(k + 1, i requires 0 <= i <= k => Sighting(i + 1, Held(k + 1 - i), Version(1, 0)))
  }

  /** A newer version of holder 1, which is now empty. */
  function LaterFile(): File
  {
    [Sighting(1, Held(0), Version(2, 0))]
  }

  ghost function Numbers(n: nat): set<Holder>
  {
    if n == 0 then {} else Numbers(n - 1) + {n}
  }

  lemma {:induction false} NumbersSize(n: nat)
    ensures |Numbers(n)| == n && forall h :: h in Numbers(n) <==> 1 <= h <= n
  {
    if n > 0 {
      NumbersSize(n - 1);
    }
  }

  lemma LastIsCut(k: nat)
    requires k > 0
    ensures k + 1 !in Cut(Merged(map[], SeedOf(FullFile(k), k)), k)
  {
    UncutFile(FullFile(k), k + 1, k);
    FullFileSeen(k, k + 1);
    var m := SeedOf(FullFile(k), k);
    MergedWithNothing(m);
    LastIsLowest(m, InFile(FullFile(k), k + 1), k);
  }

  ghost predicate InFullFile(o: Sighting, k: nat, n: nat)
    requires n <= k + 1
  {
    1 <= o.holder <= n && o == Sighting(o.holder, Held(k + 2 - o.holder), Version(1, 0))
  }

  lemma LastIsLowest(m: Pool, seen: set<Sighting>, k: nat)
    requires IsLatest(m, seen) && forall o :: o in seen <==> InFullFile(o, k, k + 1)
    ensures k + 1 !in Cut(m, k)
  {
    NumbersSize(k);
    FullEntries(m, seen, k);
    OthersExceed(m, k, Numbers(k));
  }

  lemma FullEntries(m: Pool, seen: set<Sighting>, k: nat)
    requires IsLatest(m, seen) && forall o :: o in seen <==> InFullFile(o, k, k + 1)
    ensures forall h :: 1 <= h <= k + 1 ==> h in m && m[h].amount == k + 2 - h
  {
    forall h | 1 <= h <= k + 1
      ensures h in m && m[h].amount == k + 2 - h
    {
      FullEntry(m, seen, k, h);
    }
  }

  lemma OthersExceed(m: Pool, k: nat, others: set<Holder>)
    requires forall h :: 1 <= h <= k + 1 ==> h in m && m[h].amount == k + 2 - h
    requires |others| == k && forall h :: h in others ==> 1 <= h <= k
    ensures k + 1 !in Cut(m, k)
  {
    assert Exceeds(others, m, k + 1, k);
  }

  lemma FullEntry(m: Pool, seen: set<Sighting>, k: nat, h: Holder)
    requires IsLatest(m, seen) && (forall o :: o in seen <==> InFullFile(o, k, k + 1)) && 1 <= h <= k + 1
    ensures h in m && m[h].amount == k + 2 - h
  {
    var o := Sighting(h, Held(k + 2 - h), Version(1, 0));
    assert InFullFile(o, k, k + 1);
    assert InFullFile(SightingOf(h, m[h]), k, k + 1);
  }

  /** The last holder is cut by an amount that is later found to be gone. */
  lemma SupersededCutsFunded(k: nat)
    requires k > 0
    ensures k + 1 !in Reservoir([FullFile(k), LaterFile()], k)
  {
    var files := [FullFile(k), LaterFile()];
    LastIsCut(k);
    LaterSeed(k);
    StaysOut(Seeds(files, k), k, k + 1);
  }

  lemma LaterSeed(k: nat)
    requires k > 0
    ensures k + 1 !in SeedOf(LaterFile(), k)
  {
    var o := LaterFile()[0];
    assert LaterFile() == [o];
    SingleSeed(o, k);
  }

  lemma StaysOut(pools: seq<Pool>, k: nat, h: Holder)
    requires |pools| == 2 && h !in Cut(Merged(map[], pools[0]), k) && h !in pools[1]
    ensures h !in Gathered(pools, 2, k)
  {
    assert Gathered(pools, 0, k) == map[];
    assert h !in Gathered(pools, 1, k);
  }

  /**
   With one account more than the reservoir holds, only `k` of them funded, the tracker is not sound: that the funded
   holders fit is not enough when a superseded version exceeds one of the largest.
   */
  lemma FundedFitIsNotEnough(s: State, k: nat)
    requires SeededFrom(s, [FullFile(k), LaterFile()], k) && k >= PERSISTED_TOP_N
    ensures |Funded(s.ledger)| == k && !NeverWrong(s, k)
  {
    var files := [FullFile(k), LaterFile()];
    LargeExampleSeen(k);
    ExampleIsUnique(SeenIn(files, 2), k);
    LargeExampleFunded(s.ledger, SeenIn(files, 2), k);
    SupersededCutsFunded(k);
    SeedIsSoundIff(s, files, k);
    assert k + 1 !in s.top.entries;
  }

  lemma {:induction false} FullFileSeen(k: nat, n: nat)
    requires n <= k + 1
    ensures forall o :: o in InFile(FullFile(k), n) <==> InFullFile(o, k, n)
  {
    if n > 0 {
      FullFileSeen(k, n - 1);
    }
  }

  ghost predicate InExample(o: Sighting, k: nat)
  {
    o == Sighting(1, Held(0), Version(2, 0)) || InFullFile(o, k, k + 1)
  }

  lemma LargeExampleSeen(k: nat)
    ensures forall o :: o in SeenIn([FullFile(k), LaterFile()], 2) <==> InExample(o, k)
  {
    var files := [FullFile(k), LaterFile()];
    FullFileSeen(k, k + 1);
    assert InFile(LaterFile(), 0) == {};
    assert InFile(LaterFile(), 1) == InFile(LaterFile(), 0) + {LaterFile()[0]};
    assert SeenIn(files, 0) == {};
    assert SeenIn(files, 1) == SeenIn(files, 0) + InFile(files[0], |files[0]|);
    assert SeenIn(files, 2) == SeenIn(files, 1) + InFile(files[1], |files[1]|);
  }

  lemma ExampleIsUnique(seen: set<Sighting>, k: nat)
    requires forall o :: o in seen <==> InExample(o, k)
    ensures UniqueStamps(seen)
  {
  }

  lemma LargeExampleFunded(l: Ledger, seen: set<Sighting>, k: nat)
    requires IsLedger(l, seen) && seen == SeenIn([FullFile(k), LaterFile()], 2) && k > 0
    ensures k + 1 in Funded(l) && |Funded(l)| == k
  {
    LargeExampleSeen(k);
    FundedRange(l, seen, k);
  }

  lemma FundedRange(l: Ledger, seen: set<Sighting>, k: nat)
    requires IsLedger(l, seen) && k > 0
    requires forall o :: o in seen <==> InExample(o, k)
    ensures k + 1 in Funded(l) && |Funded(l)| == k
  {
    NumbersSize(k + 1);
    forall h
      ensures h in Funded(l) <==> h in Numbers(k + 1) - {1}
    {
      FundedInExample(l, seen, k, h);
    }
    assert Funded(l) == Numbers(k + 1) - {1};
  }

  lemma FundedInExample(l: Ledger, seen: set<Sighting>, k: nat, h: Holder)
    requires IsLedger(l, seen) && k > 0
    requires forall o :: o in seen <==> InExample(o, k)
    ensures h in Funded(l) <==> 2 <= h <= k + 1
  {
    if h in l {
      var o :| o in seen && o.holder == h && FactOf(o) == l[h];
      assert InExample(o, k);
    }
    if 2 <= h <= k + 1 {
      assert InExample(Sighting(h, Held(k + 2 - h), Version(1, 0)), k);
    }
    assert InExample(Sighting(1, Held(0), Version(2, 0)), k);
  }

  /******* An account that left the mint *******/

  /** It held some of the mint at slot 1, and is alive under another mint or owner at slot 2. */
  function MovedFiles(h: Holder, amount: nat): seq<File>
  {
    [[Sighting(h, Held(amount), Version(1, 0))], [Sighting(h, Elsewhere, Version(2, 0))]]
  }

  /** One account is enough for a wrong row: the seed does not notice that it left. */
  lemma MovedAccountIsServed(s: State, h: Holder, amount: nat, k: nat)
    requires SeededFrom(s, MovedFiles(h, amount), k) && k >= PERSISTED_TOP_N
    ensures s.top.entries == map[h := Entry(amount, Version(1, 0))] && !NeverWrong(s, k)
  {
    var files, newest := MovedFiles(h, amount), map[h := Entry(amount, Version(1, 0))];
    var seen := SeenIn(files, 2);
    MovedSeen(h, amount);
    MovedIsLatest(seen, h, amount);
    FewAccountsAreOrderly(seen, newest, k);
    OrderlySeedIsRight(files, newest, k);
    SmallIsUncut(newest, k);
    MovedSurvives(seen, h, amount);
    FewAccountsAreSafeIff(s, files, newest, k);
  }

  lemma MovedIsLatest(seen: set<Sighting>, h: Holder, amount: nat)
    requires seen == {Sighting(h, Held(amount), Version(1, 0)), Sighting(h, Elsewhere, Version(2, 0))}
    ensures IsLatest(map[h := Entry(amount, Version(1, 0))], seen) && UniqueStamps(seen)
  {
  }

  lemma MovedSurvives(seen: set<Sighting>, h: Holder, amount: nat)
    requires seen == {Sighting(h, Held(amount), Version(1, 0)), Sighting(h, Elsewhere, Version(2, 0))}
    ensures LeftUnnoticed(seen, h, Version(1, 0))
    ensures var newest := map[h := Entry(amount, Version(1, 0))];
      Survivors(newest, seen) == newest
  {
    assert Sighting(h, Elsewhere, Version(2, 0)) in seen;
  }

  lemma MovedSeen(h: Holder, amount: nat)
    ensures SeenIn(MovedFiles(h, amount), 2) ==
      {Sighting(h, Held(amount), Version(1, 0)), Sighting(h, Elsewhere, Version(2, 0))}
  {
    var a, b := [Sighting(h, Held(amount), Version(1, 0))], [Sighting(h, Elsewhere, Version(2, 0))];
    BothSeen(a, b);
    assert InFile(a, 0) == {} && InFile(a, 1) == InFile(a, 0) + {a[0]};
    assert InFile(b, 0) == {} && InFile(b, 1) == InFile(b, 0) + {b[0]};
  }

  /******* Right although not orderly *******/

  /** Holder 1 with 10 and holder 2 with 5. */
  function FirstOfTwo(): File
  {
    [Sighting(1, Held(10), Version(1, 0)), Sighting(2, Held(5), Version(1, 0))]
  }

  /** Later: holder 1 with nothing and holders 3 to k + 1 with 8. */
  function SecondOfTwo(k: nat): File
  {
    seq(k, i requires 0 <= i < k =>
      if i == 0 then Sighting(1, Held(0), Version(2, 0)) else Sighting(i + 2, Held(8), Version(2, 0)))
  }

  ghost predicate InSecond(o: Sighting, n: nat)
  {
    || (n > 0 && o == Sighting(1, Held(0), Version(2, 0)))
    || (3 <= o.holder < n + 2 && o == Sighting(o.holder, Held(8), Version(2, 0)))
  }

  lemma {:induction false} SecondSeen(k: nat, n: nat)
    requires n <= k
    ensures forall o :: o in InFile(SecondOfTwo(k), n) <==> InSecond(o, n)
  {
    if n > 0 {
      SecondSeen(k, n - 1);
    }
  }

  lemma TwoSeen(k: nat)
    ensures forall o :: o in SeenIn([FirstOfTwo(), SecondOfTwo(k)], 2) <==> o in FirstOfTwo() || InSecond(o, k)
    ensures SeenIn([SecondOfTwo(k), FirstOfTwo()], 2) == SeenIn([FirstOfTwo(), SecondOfTwo(k)], 2)
  {
    var a := FirstOfTwo();
    BothSeen(a, SecondOfTwo(k));
    BothSeen(SecondOfTwo(k), a);
    SecondSeen(k, k);
    assert InFile(a, 0) == {} && InFile(a, 1) == InFile(a, 0) + {a[0]} && InFile(a, 2) == InFile(a, 1) + {a[1]};
  }

  /** The amounts of the newest versions. */
  ghost predicate NewestOfTwo(newest: Pool, k: nat)
  {
    && (forall h :: h in newest ==> 1 <= h <= k + 1)
    && (forall h :: 1 <= h <= k + 1 ==> h in newest)
    && (forall h :: 1 <= h <= k + 1 ==> newest[h].amount == if h == 1 then 0 else if h == 2 then 5 else 8)
  }

  lemma NewestOfTwoIs(newest: Pool, seen: set<Sighting>, k: nat)
    requires k >= 2 && IsLatest(newest, seen) && forall o :: o in seen <==> o in FirstOfTwo() || InSecond(o, k)
    ensures NewestOfTwo(newest, k)
  {
    forall h: Holder
      ensures h in newest <==> 1 <= h <= k + 1
      ensures h in newest ==> newest[h].amount == if h == 1 then 0 else if h == 2 then 5 else 8
    {
      NewestOfTwoAt(newest, seen, k, h);
    }
  }

  lemma NewestOfTwoAt(newest: Pool, seen: set<Sighting>, k: nat, h: Holder)
    requires k >= 2 && IsLatest(newest, seen) && forall o :: o in seen <==> o in FirstOfTwo() || InSecond(o, k)
    ensures h in newest <==> 1 <= h <= k + 1
    ensures h in newest ==> newest[h].amount == if h == 1 then 0 else if h == 2 then 5 else 8
  {
    assert FirstOfTwo()[1] in FirstOfTwo();
    if h in newest {
      assert SightingOf(h, newest[h]) in seen;
    }
    if h == 1 {
      assert InSecond(Sighting(1, Held(0), Version(2, 0)), k);
    } else if h == 2 {
      assert FirstOfTwo()[1] in seen;
    } else if 3 <= h <= k + 1 {
      assert InSecond(Sighting(h, Held(8), Version(2, 0)), k);
    }
  }

  /** Being orderly is not needed: these two files are seeded right in both orders. */
  lemma OrderlyIsNotNeeded(newest: Pool, k: nat)
    requires k >= 2 && IsLatest(newest, SeenIn([FirstOfTwo(), SecondOfTwo(k)], 2))
    ensures !Orderly(SeenIn([FirstOfTwo(), SecondOfTwo(k)], 2), newest, k)
    ensures Reservoir([FirstOfTwo(), SecondOfTwo(k)], k) == Cut(newest, k)
    ensures Reservoir([SecondOfTwo(k), FirstOfTwo()], k) == Cut(newest, k)
  {
    TwoSeen(k);
    TwoSmallFilesAreRight(FirstOfTwo(), SecondOfTwo(k), newest, k);
    TwoSmallFilesAreRight(SecondOfTwo(k), FirstOfTwo(), newest, k);
    TwoAreNotOrderly(newest, SeenIn([FirstOfTwo(), SecondOfTwo(k)], 2), k);
  }

  lemma TwoAreNotOrderly(newest: Pool, seen: set<Sighting>, k: nat)
    requires k >= 2 && IsLatest(newest, seen) && forall o :: o in seen <==> o in FirstOfTwo() || InSecond(o, k)
    ensures !Orderly(seen, newest, k)
  {
    NewestOfTwoIs(newest, seen, k);
    NumbersSize(k + 1);
    SecondIsLast(newest, k, Numbers(k + 1) - {1}, Numbers(k + 1) - {1, 2});
    var o := FirstOfTwo()[0];
    assert o in FirstOfTwo() && EntryOf(o) != newest[1];
    assert Intrudes(o, 2, newest, k);
  }

  lemma SecondIsLast(newest: Pool, k: nat, others: set<Holder>, top: set<Holder>)
    requires k >= 2 && NewestOfTwo(newest, k) && |others| == k && |top| == k - 1
    requires forall h :: h in others <==> 2 <= h <= k + 1
    requires forall h :: h in top <==> 3 <= h <= k + 1
    ensures 1 !in Cut(newest, k) && 2 in Cut(newest, k)
  {
    assert Exceeds(others, newest, 1, k);
    assert Exceeded(newest, 1, k);
    assert Above(newest, 2) <= top;
    SubsetSize(Above(newest, 2), top);
    InCutIff(newest, k, 2);
  }

  /******* An older version that returns *******/

  /** Holder 1 with nothing and holders 2 to k + 1 with 5. */
  function CrowdFile(k: nat): File
  {
    seq(k + 1, i requires 0 <= i <= k => Sighting(i + 1, Held(if i == 0 then 0 else 5), Version(2, 0)))
  }

  /** An older version of holder 1, with 7. */
  function OlderFile(): File
  {
    [Sighting(1, Held(7), Version(1, 0))]
  }

  ghost predicate InCrowd(o: Sighting, n: nat)
  {
    1 <= o.holder <= n && o == Sighting(o.holder, Held(if o.holder == 1 then 0 else 5), Version(2, 0))
  }

  lemma {:induction false} CrowdSeen(k: nat, n: nat)
    requires n <= k + 1
    ensures forall o :: o in InFile(CrowdFile(k), n) <==> InCrowd(o, n)
  {
    if n > 0 {
      CrowdSeen(k, n - 1);
    }
  }

  /** The newest versions are those of the newer file. */
  ghost predicate CrowdPool(p: Pool, k: nat)
  {
    && (forall h :: h in p ==> 1 <= h <= k + 1)
    && (forall h :: 1 <= h <= k + 1 ==> h in p)
    && (forall h :: 1 <= h <= k + 1 ==> p[h] == Entry(if h == 1 then 0 else 5, Version(2, 0)))
  }

  lemma CrowdPoolIs(p: Pool, seen: set<Sighting>, k: nat)
    requires IsLatest(p, seen) && forall o :: o in seen <==> InCrowd(o, k + 1)
    ensures CrowdPool(p, k)
  {
    forall h
      ensures h in p <==> 1 <= h <= k + 1
      ensures h in p ==> p[h] == Entry(if h == 1 then 0 else 5, Version(2, 0))
    {
      if 1 <= h <= k + 1 {
        assert InCrowd(Sighting(h, Held(if h == 1 then 0 else 5), Version(2, 0)), k + 1);
      }
      if h in p {
        assert InCrowd(SightingOf(h, p[h]), k + 1);
      }
    }
  }

  /** Holder 1 is cut, and the others stay. */
  lemma CrowdCut(p: Pool, k: nat, others: set<Holder>)
    requires CrowdPool(p, k) && |others| == k && forall h :: h in others <==> 2 <= h <= k + 1
    ensures forall h :: h in Cut(p, k) <==> h in others
  {
    assert Exceeds(others, p, 1, k);
    assert Exceeded(p, 1, k);
    forall h | h in others
      ensures h in Cut(p, k)
    {
      assert Above(p, h) <= others - {h};
      SubsetSize(Above(p, h), others - {h});
      InCutIff(p, k, h);
    }
  }

  /** The older version enters, and the smallest of the others goes. */
  lemma OlderEnters(p: Pool, r: Pool, k: nat, others: set<Holder>)
    requires k > 0 && CrowdPool(p, k) && r == Cut(p, k) && |others| == k && forall h :: h in others <==> 2 <= h <= k + 1
    ensures 2 !in Cut(Merged(r, map[1 := Entry(7, Version(1, 0))]), k)
  {
    CrowdCut(p, k, others);
    var m := Merged(r, map[1 := Entry(7, Version(1, 0))]);
    MergedOne(r, 1, Entry(7, Version(1, 0)));
    var larger := others - {2} + {1};
    forall g | g in larger
      ensures g in m && Below(RowOf(m, 2), RowOf(m, g))
    {
      if g != 1 {
        assert m[g] == p[g];
      }
    }
    assert m[2] == p[2];
    assert Exceeds(larger, m, 2, k);
    assert Exceeded(m, 2, k);
  }

  /**
   Newest first, an account can be lost although no `k` others have a newest version above it: an older version comes
   back when the newer one has been cut.
   */
  lemma OlderVersionReturns(newest: Pool, k: nat)
    requires k > 0 && IsLatest(newest, SeenIn([CrowdFile(k), OlderFile()], 2))
    ensures NewestFirst(Seeds([CrowdFile(k), OlderFile()], k), 2)
    ensures 2 in Cut(newest, k) && 2 !in Reservoir([CrowdFile(k), OlderFile()], k)
    ensures Uncut(Seeds([CrowdFile(k), OlderFile()], k), 2) == newest && !Exceeded(newest, 2, k)
  {
    var pools := Seeds([CrowdFile(k), OlderFile()], k);
    OlderSeeds(k);
    CrowdIsNewest(newest, pools, k);
    NumbersSize(k + 1);
    var others := Numbers(k + 1) - {1};
    CrowdCut(newest, k, others);
    OlderEnters(newest, Cut(newest, k), k, others);
    TwoMerges(pools, k);
    OlderComesLater(pools, k);
  }

  lemma OlderComesLater(pools: seq<Pool>, k: nat)
    requires |pools| == 2 && CrowdPool(pools[0], k) && pools[1] == map[1 := Entry(7, Version(1, 0))]
    ensures NewestFirst(pools, 2)
  {
  }

  /** Nothing of the older file is newest. */
  lemma CrowdIsNewest(newest: Pool, pools: seq<Pool>, k: nat)
    requires k > 0 && IsLatest(newest, SeenIn([CrowdFile(k), OlderFile()], 2))
    requires pools == Seeds([CrowdFile(k), OlderFile()], k)
    ensures pools[0] == newest && Uncut(pools, 2) == newest
  {
    var a, b := CrowdFile(k), OlderFile();
    OlderSeeds(k);
    UncutTwo(pools);
    OlderIsSuperseded(pools[0], pools[1], k);
    MergedIsLatest(pools[0], InFile(a, |a|), pools[1], InFile(b, |b|));
    BothSeen(a, b);
    LatestIsUnique(newest, pools[0], SeenIn([a, b], 2));
  }

  lemma OlderSeeds(k: nat)
    requires k > 0
    ensures var pools := Seeds([CrowdFile(k), OlderFile()], k);
      && CrowdPool(pools[0], k) && pools[1] == map[1 := Entry(7, Version(1, 0))]
      && IsLatest(pools[0], InFile(CrowdFile(k), k + 1)) && IsLatest(pools[1], InFile(OlderFile(), 1))
  {
    UncutFile(CrowdFile(k), k + 1, k);
    UncutFile(OlderFile(), 1, k);
    CrowdSeen(k, k + 1);
    CrowdPoolIs(SeedOf(CrowdFile(k), k), InFile(CrowdFile(k), k + 1), k);
    assert OlderFile() == [OlderFile()[0]];
    SingleSeed(OlderFile()[0], k);
  }

  lemma TwoMerges(pools: seq<Pool>, k: nat)
    requires |pools| == 2
    ensures Gathered(pools, 2, k) == Cut(Merged(Cut(pools[0], k), pools[1]), k)
  {
    assert Gathered(pools, 0, k) == map[];
    MergedWithNothing(pools[0]);
    assert Gathered(pools, 1, k) == Cut(pools[0], k);
  }

  lemma UncutTwo(pools: seq<Pool>)
    requires |pools| == 2
    ensures Uncut(pools, 2) == Merged(pools[0], pools[1])
  {
    assert Uncut(pools, 0) == map[];
    MergedWithNothing(pools[0]);
    assert Uncut(pools, 1) == pools[0];
  }

  lemma OlderIsSuperseded(p: Pool, q: Pool, k: nat)
    requires CrowdPool(p, k) && q == map[1 := Entry(7, Version(1, 0))]
    ensures Merged(p, q) == p
  {
    MergedOne(p, 1, Entry(7, Version(1, 0)));
  }
}
