/** From a snapshot to a live largest-accounts tracker: tombstones, the end of the seeding, and what it is worth. */
module LargestBootstrap {
  import opened Basics
  import opened LargestTops
  import opened LargestSeed
  import opened LargestArrangements
  import opened LargestRuns

  /******* Closes *******/

  /** Some close of the account is at least as new as the stamp. */
  ghost predicate ClosedSince(seen: set<Sighting>, h: Holder, stamp: Version)
  {
    exists o :: o in seen && o.holder == h && o.status.Closed? && !Older(o.stamp, stamp)
  }

  /** The newest close of each account. */
  ghost predicate IsTombstones(m: map<Holder, Version>, seen: set<Sighting>)
  {
    && (forall o :: o in seen && o.status.Closed? ==> o.holder in m && !Older(m[o.holder], o.stamp))
    && (forall h :: h in m ==> Sighting(h, Closed, m[h]) in seen)
  }

  function Tombstone(m: map<Holder, Version>, h: Holder): Option<Version>
  {
    if h in m then Some(m[h]) else None
  }

  lemma TombstoneHides(m: map<Holder, Version>, seen: set<Sighting>, h: Holder, stamp: Version)
    requires IsTombstones(m, seen)
    ensures Hidden(Tombstone(m, h), stamp) <==> ClosedSince(seen, h, stamp)
  {
    if h in m && !Older(m[h], stamp) {
      assert Sighting(h, Closed, m[h]) in seen;
    }
  }

  /** `record_tombstone` over the closes of a file. */
  method RecordCloses(file: File, before: map<Holder, Version>, ghost seen: set<Sighting>)
    returns (m: map<Holder, Version>)
    requires IsTombstones(before, seen)
    ensures IsTombstones(m, seen + InFile(file, |file|))
  {
    m := before;
    assert seen + InFile(file, 0) == seen;
    for i := 0 to |file|
      invariant IsTombstones(m, seen + InFile(file, i))
    {
      var o := file[i];
      assert seen + InFile(file, i + 1) == seen + InFile(file, i) + {o};
      if o.status.Closed? && (o.holder !in m || Older(m[o.holder], o.stamp)) {
        m := m[o.holder := o.stamp];
      }
    }
  }

  method CollectTombstones(files: seq<File>) returns (m: map<Holder, Version>)
    ensures IsTombstones(m, SeenIn(files, |files|))
  {
    m := map[];
    for i := 0 to |files|
      invariant IsTombstones(m, SeenIn(files, i))
    {
      m := RecordCloses(files[i], m, SeenIn(files, i));
    }
  }

  /******* The end of the seeding *******/

  /** The reservoir without the accounts closed since. */
  ghost function Survivors(r: Pool, seen: set<Sighting>): Pool
  {
    map h | h in r && !ClosedSince(seen, h, r[h].stamp) :: r[h]
  }

  /** The vector of a map that lists each account once. */
  ghost predicate ListedOnce(reservoir: seq<SeedAccount>, r: Pool)
  {
    && (forall i :: 0 <= i < |reservoir| ==> reservoir[i].holder in r && reservoir[i].entry == r[reservoir[i].holder])
    && (forall i, j :: 0 <= i < j < |reservoir| ==> reservoir[i].holder != reservoir[j].holder)
    && (forall h :: h in r ==> SeedAccount(h, r[h]) in reservoir)
  }

  lemma {:induction false} HoldersOf(reservoir: seq<SeedAccount>, n: nat) returns (hs: set<Holder>)
    requires n <= |reservoir|
    ensures |hs| <= n && forall h :: h in hs <==> exists i :: 0 <= i < n && reservoir[i].holder == h
    ensures |hs| == n ==> forall i, j :: 0 <= i < j < n ==> reservoir[i].holder != reservoir[j].holder
  {
    hs := {};
    if n > 0 {
      var before := HoldersOf(reservoir, n - 1);
      hs := before + {reservoir[n - 1].holder};
    }
  }

  /** A vector as long as its map has no two versions of an account. */
  lemma ListsOnce(reservoir: seq<SeedAccount>, r: Pool)
    requires Lists(reservoir, r)
    ensures ListedOnce(reservoir, r)
  {
    var hs := HoldersOf(reservoir, |reservoir|);
    SameSize(r);
    assert forall h :: h in r ==> h in hs by {
      forall h | h in r
        ensures h in hs
      {
        assert SeedAccount(h, r[h]) in reservoir;
      }
    }
    SubsetSize(r.Keys, hs);
    forall i | 0 <= i < |reservoir|
      ensures reservoir[i].holder in r && reservoir[i].entry == r[reservoir[i].holder]
    {
      var h := reservoir[i].holder;
      var j :| 0 <= j < |reservoir| && reservoir[j] == SeedAccount(h, r[h]);
    }
  }

  /** What blocks left in the reservoir while it was seeded, and the seed: the newer stamp of each account. */
  ghost function Absorbed(entries: Pool, seed: Pool): Pool
  {
    map h | h in entries.Keys + seed.Keys ::
      if h in seed && (h !in entries || Older(entries[h].stamp, seed[h].stamp)) then seed[h] else entries[h]
  }

  /**
   `finish_bootstrap` for one mint, on whatever the blocks applied while seeding left: the seed is absorbed without the
   accounts closed since, and the reservoir is trimmed.
   */
  method FinishBootstrap(
    top: MintTop, reservoir: seq<SeedAccount>, tombstones: map<Holder, Version>, k: nat,
    ghost r: Pool, ghost seen: set<Sighting>)
    requires top.Valid() && k > 0
    requires Lists(reservoir, r) && IsTombstones(tombstones, seen)
    modifies top
    ensures top.Valid()
    ensures Trimmed(Top(Absorbed(old(top.entries), Survivors(r, seen)), old(top.droppedFloor)), top.Value(), k)
  {
    AbsorbSeed(top, reservoir, tombstones, k, r, seen);
    top.Trim(k);
  }

  method AbsorbSeed(
    top: MintTop, reservoir: seq<SeedAccount>, tombstones: map<Holder, Version>, k: nat,
    ghost r: Pool, ghost seen: set<Sighting>)
    requires top.Valid() && k > 0
    requires Lists(reservoir, r) && IsTombstones(tombstones, seen)
    modifies top
    ensures top.Valid() && top.Value() == Top(Absorbed(old(top.entries), Survivors(r, seen)), old(top.droppedFloor))
  {
    ListsOnce(reservoir, r);
    ghost var done: set<Holder> := {};
    NothingAbsorbed(top.entries, Survivors(r, seen));
    for i := 0 to |reservoir|
      invariant top.Valid() && top.droppedFloor == old(top.droppedFloor)
      invariant top.entries == Absorbed(old(top.entries), Only(Survivors(r, seen), done))
      invariant DoneUpTo(reservoir, i, done)
    {
      var x := reservoir[i];
      DoneNext(reservoir, r, i, done);
      ghost var before := top.Value();
      TombstoneHides(tombstones, seen, x.holder, x.entry.stamp);
      var touched := top.ApplyUpdate(x.holder, x.entry, Tombstone(tombstones, x.holder), true, false, k);
      AbsorbNext(old(top.entries), r, seen, done, x, before, top.Value(), k);
      done := done + {x.holder};
    }
    AllAbsorbed(r, seen, reservoir, done);
  }

  /** The accounts before position `i`, and no later ones, are done. */
  ghost predicate DoneUpTo(reservoir: seq<SeedAccount>, i: nat, done: set<Holder>)
  {
    forall j :: 0 <= j < |reservoir| ==> (reservoir[j].holder in done <==> j < i)
  }

  lemma DoneNext(reservoir: seq<SeedAccount>, r: Pool, i: nat, done: set<Holder>)
    requires ListedOnce(reservoir, r) && i < |reservoir| && DoneUpTo(reservoir, i, done)
    ensures reservoir[i].holder !in done && DoneUpTo(reservoir, i + 1, done + {reservoir[i].holder})
  {
  }

  lemma NothingAbsorbed(entries: Pool, seed: Pool)
    ensures Absorbed(entries, Only(seed, {})) == entries
  {
  }

  lemma AbsorbNext(
    start: Pool, r: Pool, seen: set<Sighting>, done: set<Holder>, x: SeedAccount, before: Top, after: Top, k: nat)
    requires x.holder in r && x.entry == r[x.holder] && x.holder !in done
    requires before.entries == Absorbed(start, Only(Survivors(r, seen), done))
    requires if ClosedSince(seen, x.holder, x.entry.stamp) then after == before
      else Updated(before, after, x.holder, x.entry, true, false, k)
    ensures after.floor == before.floor
    ensures after.entries == Absorbed(start, Only(Survivors(r, seen), done + {x.holder}))
  {
    var h, survivors := x.holder, Survivors(r, seen);
    assert h in survivors <==> !ClosedSince(seen, h, x.entry.stamp);
    OnlyNext(survivors, done, h);
    AbsorbOne(start, Only(survivors, done), h, x.entry);
  }

  lemma OnlyNext(m: Pool, done: set<Holder>, h: Holder)
    ensures Only(m, done + {h}) == if h in m then Only(m, done)[h := m[h]] else Only(m, done)
  {
  }

  lemma AbsorbOne(start: Pool, part: Pool, h: Holder, e: Entry)
    requires h !in part
    ensures var m := Absorbed(start, part);
      Absorbed(start, part[h := e]) == if h in m && !Older(m[h].stamp, e.stamp) then m else m[h := e]
  {
  }

  lemma AllAbsorbed(r: Pool, seen: set<Sighting>, reservoir: seq<SeedAccount>, done: set<Holder>)
    requires ListedOnce(reservoir, r) && DoneUpTo(reservoir, |reservoir|, done)
    ensures Only(Survivors(r, seen), done) == Survivors(r, seen)
  {
    forall h | h in Survivors(r, seen)
      ensures h in done
    {
      var i :| 0 <= i < |reservoir| && reservoir[i] == SeedAccount(h, r[h]);
    }
  }

  /** When no block came while seeding, nothing is trimmed and the floor stays zero. */
  lemma SeededAlone(after: Top, r: Pool, seen: set<Sighting>, k: nat)
    requires |r| <= k && Trimmed(Top(Absorbed(map[], Survivors(r, seen)), 0), after, k)
    ensures after == Top(Survivors(r, seen), 0)
  {
    var survivors := Survivors(r, seen);
    assert Absorbed(map[], survivors) == survivors;
    SameSize(survivors);
    SameSize(r);
    SubsetSize(survivors.Keys, r.Keys);
    if after.entries != survivors {
      SameSize(after.entries);
      SubsetSize(after.entries.Keys, survivors.Keys);
    }
  }

  /******* What the seeded tracker is worth *******/

  /** The versions of an account have different stamps. */
  ghost predicate UniqueStamps(seen: set<Sighting>)
  {
    forall o, p :: o in seen && p in seen && o.holder == p.holder && o.stamp == p.stamp ==> o == p
  }

  /** What a version says of the mint: an amount, or that the account is not one of its holders. */
  function FactOf(o: Sighting): Fact
  {
    Fact(if o.status.Held? then Some(o.status.amount) else None, o.stamp)
  }

  /** The newest fact of each account of the snapshot. */
  ghost predicate IsLedger(l: Ledger, seen: set<Sighting>)
  {
    && (forall o :: o in seen ==> o.holder in l && !Older(l[o.holder].stamp, o.stamp))
    && (forall h :: h in l ==> exists o :: o in seen && o.holder == h && FactOf(o) == l[h])
  }

  /** The tracker as it goes live after the files, with all their slots applied. */
  ghost predicate SeededFrom(s: State, files: seq<File>, k: nat)
  {
    var seen := SeenIn(files, |files|);
    && s.top == Top(Survivors(Reservoir(files, k), seen), 0)
    && IsLedger(s.ledger, seen)
    && s.pending == {} && s.slot <= s.applied
    && forall o :: o in seen ==> o.stamp.slot <= s.applied
  }

  lemma {:induction false} SomeLedger(seen: set<Sighting>) returns (l: Ledger, last: nat)
    ensures IsLedger(l, seen) && forall o :: o in seen ==> o.stamp.slot <= last
    decreases seen
  {
    l, last := map[], 0;
    if seen != {} {
      var o :| o in seen;
      l, last := SomeLedger(seen - {o});
      l, last := Learn(l, o.holder, FactOf(o)), Max(last, o.stamp.slot);
    }
  }

  /** Every snapshot seeds a tracker. */
  lemma SomeSeeded(files: seq<File>, k: nat) returns (s: State)
    ensures SeededFrom(s, files, k)
  {
    var seen := SeenIn(files, |files|);
    var l, last := SomeLedger(seen);
    s := State(Top(Survivors(Reservoir(files, k), seen), 0), l, last, 0, false, {});
  }

  lemma SeededGoesLive(s: State, files: seq<File>, k: nat)
    requires SeededFrom(s, files, k)
    ensures GoesLive(s)
  {
    var seen := SeenIn(files, |files|);
    ReservoirSeen(files, k);
    forall h | h in s.top.entries
      ensures h in s.ledger && WasSeen(s.top.entries[h], s.ledger[h])
    {
      assert SightingOf(h, s.top.entries[h]) in seen;
    }
    forall h | h in s.ledger
      ensures s.ledger[h].stamp.slot <= s.applied
    {
      var o :| o in seen && o.holder == h && FactOf(o) == s.ledger[h];
    }
  }

  /**
   The tracker that the code builds from a snapshot, in whatever files: it never serves a wrong row if and only if
   each member was kept at its newest version, or one as good, and every funded holder was kept.
   */
  lemma SeedIsSoundIff(s: State, files: seq<File>, k: nat)
    requires SeededFrom(s, files, k) && k >= PERSISTED_TOP_N
    ensures NeverWrong(s, k) <==> AllHarmless(s) && Funded(s.ledger) <= s.top.entries.Keys
  {
    SeededGoesLive(s, files, k);
    NeverWrongIff(s, k);
  }

  /** The ledger knows every version of the snapshot, or a newer fact. */
  ghost predicate Knows(l: Ledger, seen: set<Sighting>)
  {
    forall o :: o in seen ==> o.holder in l && NotNewer(o, l[o.holder])
  }

  predicate NotNewer(o: Sighting, f: Fact)
  {
    !Older(f.stamp, o.stamp)
  }

  /** The same when blocks came while seeding, with whatever they left and whatever was trimmed. */
  lemma BootstrapIsSoundIff(s: State, start: Top, r: Pool, seen: set<Sighting>, k: nat)
    requires Trimmed(Top(Absorbed(start.entries, Survivors(r, seen)), start.floor), s.top, k)
    requires PoolSeen(r, seen) && Knows(s.ledger, seen) && s.pending == {} && StampInv(s) && k >= PERSISTED_TOP_N
    requires forall h :: h in start.entries ==> h in s.ledger && WasSeen(start.entries[h], s.ledger[h])
    ensures NeverWrong(s, k) <==> AllHarmless(s) && Exceeding(s.ledger, s.top.floor) <= s.top.entries.Keys
  {
    forall h | h in s.top.entries
      ensures h in s.ledger && WasSeen(s.top.entries[h], s.ledger[h])
    {
      if h in r && s.top.entries[h] == r[h] {
        assert SightingOf(h, r[h]) in seen;
      }
    }
    NeverWrongIff(s, k);
  }

  /******* Orderly snapshots *******/

  /** Some version of the account that is not a holding of the mint is at least as new as the stamp. */
  ghost predicate GoneSince(seen: set<Sighting>, h: Holder, stamp: Version)
  {
    exists o :: o in seen && o.holder == h && !o.status.Held? && !Older(o.stamp, stamp)
  }

  /** The account left the mint alive, and was not closed since its last holding: the seed does not notice. */
  ghost predicate LeftUnnoticed(seen: set<Sighting>, h: Holder, stamp: Version)
  {
    GoneSince(seen, h, stamp) && !ClosedSince(seen, h, stamp)
  }

  lemma NewestFact(s: State, files: seq<File>, newest: Pool, k: nat, h: Holder)
    requires SeededFrom(s, files, k) && UniqueStamps(SeenIn(files, |files|))
    requires IsLatest(newest, SeenIn(files, |files|))
    ensures h in s.ledger && s.ledger[h].amount.Some? ==>
      h in newest && s.ledger[h] == Fact(Some(newest[h].amount), newest[h].stamp)
    ensures h in newest ==> h in s.ledger
    ensures h in newest ==> (s.ledger[h].amount.None? <==> GoneSince(SeenIn(files, |files|), h, newest[h].stamp))
  {
    FactOfNewest(s.ledger, SeenIn(files, |files|), newest, h);
  }

  lemma FactOfNewest(l: Ledger, seen: set<Sighting>, newest: Pool, h: Holder)
    requires IsLedger(l, seen) && UniqueStamps(seen) && IsLatest(newest, seen)
    ensures h in l && l[h].amount.Some? ==> h in newest && l[h] == Fact(Some(newest[h].amount), newest[h].stamp)
    ensures h in newest ==> h in l && (l[h].amount.None? <==> GoneSince(seen, h, newest[h].stamp))
  {
    if h in newest {
      assert SightingOf(h, newest[h]) in seen;
    }
    if h in l {
      var o :| o in seen && o.holder == h && FactOf(o) == l[h];
      if o.status.Held? {
        assert !Newer(EntryOf(o), newest[h]);
        assert o == SightingOf(h, newest[h]);
      } else if h in newest {
        assert GoneSince(seen, h, newest[h].stamp);
      }
    }
  }

  /** What a snapshot that was seeded right says of an account. */
  ghost predicate MemberFacts(s: State, seen: set<Sighting>, newest: Pool, k: nat, h: Holder)
  {
    && (h in s.top.entries <==> h in Cut(newest, k) && !ClosedSince(seen, h, newest[h].stamp))
    && (h in s.top.entries ==> h in s.ledger)
    && (h in s.top.entries ==> (Harmless(s.top.entries[h], s.ledger[h], 0) <==> !GoneSince(seen, h, newest[h].stamp)))
    && (h in Funded(s.ledger) ==> h in newest && (h in s.top.entries <==> |Above(newest, h)| < k))
  }

  lemma RightMember(s: State, files: seq<File>, newest: Pool, k: nat, h: Holder)
    requires SeededFrom(s, files, k) && UniqueStamps(SeenIn(files, |files|))
    requires IsLatest(newest, SeenIn(files, |files|)) && Reservoir(files, k) == Cut(newest, k)
    ensures MemberFacts(s, SeenIn(files, |files|), newest, k, h)
  {
    NewestFact(s, files, newest, k, h);
    if h in newest {
      InCutIff(newest, k, h);
      ClosedIsGone(SeenIn(files, |files|), h, newest[h].stamp);
    }
  }

  lemma HarmlessIff(s: State, seen: set<Sighting>, newest: Pool, k: nat)
    requires s.top.floor == 0 && forall h :: MemberFacts(s, seen, newest, k, h)
    ensures AllHarmless(s) <==> forall h :: h in Cut(newest, k) ==> !LeftUnnoticed(seen, h, newest[h].stamp)
  {
    if AllHarmless(s) {
      forall h | h in Cut(newest, k)
        ensures !LeftUnnoticed(seen, h, newest[h].stamp)
      {
        assert MemberFacts(s, seen, newest, k, h);
      }
    } else {
      var h :| h in s.top.entries && h in s.ledger && !Harmless(s.top.entries[h], s.ledger[h], 0);
      assert MemberFacts(s, seen, newest, k, h);
      assert h in Cut(newest, k) && LeftUnnoticed(seen, h, newest[h].stamp);
    }
  }

  lemma FundedIff(s: State, seen: set<Sighting>, newest: Pool, k: nat)
    requires forall h :: MemberFacts(s, seen, newest, k, h)
    ensures Funded(s.ledger) <= s.top.entries.Keys <==>
      forall c :: c in Funded(s.ledger) ==> c in newest && |Above(newest, c)| < k
  {
    forall c | c in Funded(s.ledger)
      ensures c in newest && (c in s.top.entries.Keys <==> |Above(newest, c)| < k)
    {
      assert MemberFacts(s, seen, newest, k, c);
    }
  }

  lemma ClosedIsGone(seen: set<Sighting>, h: Holder, stamp: Version)
    ensures ClosedSince(seen, h, stamp) ==> GoneSince(seen, h, stamp)
  {
  }

  /**
   From a snapshot that was seeded right, orderly or not: the tracker never serves a wrong row if and only if none of
   the `k` largest left the mint unnoticed, and fewer than `k` accounts were last seen above any funded holder, those
   that are gone included.
   */
  lemma RightSeedIsSoundIff(s: State, files: seq<File>, newest: Pool, k: nat)
    requires SeededFrom(s, files, k) && UniqueStamps(SeenIn(files, |files|)) && k >= PERSISTED_TOP_N
    requires IsLatest(newest, SeenIn(files, |files|)) && Reservoir(files, k) == Cut(newest, k)
    ensures NeverWrong(s, k) <==>
      && (forall h :: h in Cut(newest, k) ==> !LeftUnnoticed(SeenIn(files, |files|), h, newest[h].stamp))
      && (forall c :: c in Funded(s.ledger) ==> c in newest && |Above(newest, c)| < k)
  {
    SeedIsSoundIff(s, files, k);
    forall h
      ensures MemberFacts(s, SeenIn(files, |files|), newest, k, h)
    {
      RightMember(s, files, newest, k, h);
    }
    HarmlessIff(s, SeenIn(files, |files|), newest, k);
    FundedIff(s, SeenIn(files, |files|), newest, k);
  }

  lemma OrderlySeedIsSoundIff(s: State, files: seq<File>, newest: Pool, k: nat)
    requires SeededFrom(s, files, k) && UniqueStamps(SeenIn(files, |files|)) && k >= PERSISTED_TOP_N
    requires IsLatest(newest, SeenIn(files, |files|)) && Orderly(SeenIn(files, |files|), newest, k)
    ensures NeverWrong(s, k) <==>
      && (forall h :: h in Cut(newest, k) ==> !LeftUnnoticed(SeenIn(files, |files|), h, newest[h].stamp))
      && (forall c :: c in Funded(s.ledger) ==> c in newest && |Above(newest, c)| < k)
  {
    OrderlySeedIsRight(files, newest, k);
    RightSeedIsSoundIff(s, files, newest, k);
  }

  /** A snapshot with at most `k` accounts is safe, in any files, if and only if no account left the mint unnoticed. */
  lemma FewAccountsAreSafeIff(s: State, files: seq<File>, newest: Pool, k: nat)
    requires SeededFrom(s, files, k) && UniqueStamps(SeenIn(files, |files|)) && k >= PERSISTED_TOP_N
    requires IsLatest(newest, SeenIn(files, |files|)) && |newest| <= k
    ensures NeverWrong(s, k) <==>
      forall h :: h in newest ==> !LeftUnnoticed(SeenIn(files, |files|), h, newest[h].stamp)
  {
    FewAccountsAreOrderly(SeenIn(files, |files|), newest, k);
    OrderlySeedIsSoundIff(s, files, newest, k);
    SmallIsUncut(newest, k);
    forall c | c in Funded(s.ledger)
      ensures c in newest && |Above(newest, c)| < k
    {
      NewestFact(s, files, newest, k, c);
      InCutIff(newest, k, c);
    }
  }

  /** No account is closed or elsewhere by now. */
  ghost predicate NoneGone(newest: Pool, seen: set<Sighting>)
  {
    forall h :: h in newest ==> !GoneSince(seen, h, newest[h].stamp)
  }

  /** When no account is gone, an orderly snapshot is safe if and only if its funded holders fit the reservoir. */
  lemma SafeIffFundedFit(s: State, files: seq<File>, newest: Pool, k: nat)
    requires SeededFrom(s, files, k) && UniqueStamps(SeenIn(files, |files|)) && k >= PERSISTED_TOP_N
    requires IsLatest(newest, SeenIn(files, |files|)) && Orderly(SeenIn(files, |files|), newest, k)
    requires NoneGone(newest, SeenIn(files, |files|))
    ensures NeverWrong(s, k) <==> |Funded(s.ledger)| <= k
  {
    OrderlySeedIsSoundIff(s, files, newest, k);
    FundedAreNewest(s, files, newest, k);
    FundedFitIff(Funded(s.ledger), newest, k);
  }

  lemma FundedAreNewest(s: State, files: seq<File>, newest: Pool, k: nat)
    requires SeededFrom(s, files, k) && UniqueStamps(SeenIn(files, |files|))
    requires IsLatest(newest, SeenIn(files, |files|))
    requires NoneGone(newest, SeenIn(files, |files|))
    ensures forall h :: h in Funded(s.ledger) <==> h in newest && newest[h].amount > 0
  {
    forall h
      ensures h in Funded(s.ledger) <==> h in newest && newest[h].amount > 0
    {
      NewestFact(s, files, newest, k, h);
    }
  }

  lemma FundedFitIff(funded: set<Holder>, newest: Pool, k: nat)
    requires forall h :: h in funded <==> h in newest && newest[h].amount > 0
    ensures (forall c :: c in funded ==> c in newest && |Above(newest, c)| < k) <==> |funded| <= k
  {
    if |funded| <= k {
      forall c | c in funded
        ensures c in newest && |Above(newest, c)| < k
      {
        assert Above(newest, c) <= funded - {c};
        SubsetSize(Above(newest, c), funded - {c});
      }
    } else {
      var c := SmallestOf(newest, funded);
      assert funded - {c} <= Above(newest, c);
      SubsetSize(funded - {c}, Above(newest, c));
    }
  }
}
