/** When the seed keeps the `k` largest newest versions, over every way the snapshot is split into files. */
module LargestArrangements {
  import opened Basics
  import opened LargestTops
  import opened LargestSeed

  ghost function InFile(file: File, n: nat): set<Sighting>
    requires n <= |file|
  {
    if n == 0 then {} else InFile(file, n - 1) + {file[n - 1]}
  }

  /** What the first `n` files hold. */
  ghost function SeenIn(files: seq<File>, n: nat): set<Sighting>
    requires n <= |files|
  {
    if n == 0 then {} else SeenIn(files, n - 1) + InFile(files[n - 1], |files[n - 1]|)
  }

  /** The name of an account file is its stamp: the versions of a file share it, and no two files do. */
  ghost predicate Arranges(files: seq<File>, seen: set<Sighting>)
  {
    && SeenIn(files, |files|) == seen
    && (forall i, j, l | 0 <= i < |files| && 0 <= j < l < |files[i]| ::
      files[i][j] != files[i][l] && files[i][j].stamp == files[i][l].stamp)
    && (forall i, j, x, y | 0 <= i < j < |files| && x in files[i] && y in files[j] :: x.stamp != y.stamp)
  }

  /**
   No superseded version of an account outside the `k` largest exceeds one of those. With at most `k` accounts
   there are none outside.
   */
  ghost predicate Orderly(seen: set<Sighting>, newest: Pool, k: nat)
    requires IsLatest(newest, seen)
  {
    forall o, t | o in seen && t in Cut(newest, k) :: !Intrudes(o, t, newest, k)
  }

  ghost predicate Intrudes(o: Sighting, t: Holder, newest: Pool, k: nat)
    requires t in newest
  {
    && o.status.Held? && o.holder in newest && EntryOf(o) != newest[o.holder]
    && o.holder !in Cut(newest, k)
    && Below(RowOf(newest, t), Row(o.holder, o.status.amount))
  }

  lemma FewAccountsAreOrderly(seen: set<Sighting>, newest: Pool, k: nat)
    requires IsLatest(newest, seen) && |newest| <= k
    ensures Orderly(seen, newest, k)
  {
    SmallIsUncut(newest, k);
  }

  /** Every snapshot has newest versions. */
  lemma {:induction false} SomeLatest(seen: set<Sighting>) returns (newest: Pool)
    ensures IsLatest(newest, seen)
    decreases seen
  {
    newest := map[];
    if seen != {} {
      var o :| o in seen;
      newest := SomeLatest(seen - {o});
      if o.status.Held? {
        if o.holder !in newest || Newer(EntryOf(o), newest[o.holder]) {
          newest := newest[o.holder := EntryOf(o)];
        }
        assert SightingOf(o.holder, EntryOf(o)) == o;
      }
    }
  }

  lemma LatestIsUnique(m: Pool, n: Pool, seen: set<Sighting>)
    requires IsLatest(m, seen) && IsLatest(n, seen)
    ensures m == n
  {
    forall h
      ensures h in m <==> h in n
      ensures h in m ==> m[h] == n[h]
    {
      if h in m {
        assert EntryOf(SightingOf(h, m[h])) == m[h];
      }
      if h in n {
        assert EntryOf(SightingOf(h, n[h])) == n[h];
      }
    }
  }

  /******* An orderly snapshot *******/

  /** The pool holds versions seen in `done`, and each of the largest accounts once its newest version was seen. */
  ghost predicate KeepsTop(p: Pool, done: set<Sighting>, top: Pool)
  {
    && (forall h :: h in p ==> SightingOf(h, p[h]) in done)
    && (forall t :: t in top && SightingOf(t, top[t]) in done ==> t in p && p[t] == top[t])
  }

  lemma MergeKeepsTop(p: Pool, d: set<Sighting>, q: Pool, e: set<Sighting>, newest: Pool, seen: set<Sighting>, top: Pool)
    requires IsLatest(newest, seen) && Within(top, newest) && d <= seen && e <= seen
    requires KeepsTop(p, d, top) && KeepsTop(q, e, top)
    ensures KeepsTop(Merged(p, q), d + e, top)
  {
    var m := Merged(p, q);
    forall t | t in top && SightingOf(t, top[t]) in d + e
      ensures t in m && m[t] == top[t]
    {
      assert t in p ==> EntryOf(SightingOf(t, p[t])) == p[t];
      assert t in q ==> EntryOf(SightingOf(t, q[t])) == q[t];
    }
  }

  lemma CutKeepsTop(p: Pool, done: set<Sighting>, newest: Pool, seen: set<Sighting>, k: nat)
    requires IsLatest(newest, seen) && Orderly(seen, newest, k) && done <= seen
    requires KeepsTop(p, done, Cut(newest, k))
    ensures KeepsTop(Cut(p, k), done, Cut(newest, k))
  {
    var top := Cut(newest, k);
    forall t | t in top && SightingOf(t, top[t]) in done
      ensures t in Cut(p, k)
    {
      forall g | g in Above(p, t)
        ensures g in top.Keys - {t}
      {
        OnlyTopAbove(p, done, newest, seen, k, t, g);
      }
      CutIsLargest(newest, k);
      SameSize(top);
      SubsetSize(Above(p, t), top.Keys - {t});
      InCutIff(p, k, t);
    }
  }

  lemma OnlyTopAbove(p: Pool, done: set<Sighting>, newest: Pool, seen: set<Sighting>, k: nat, t: Holder, g: Holder)
    requires IsLatest(newest, seen) && Orderly(seen, newest, k) && done <= seen
    requires KeepsTop(p, done, Cut(newest, k))
    requires t in Cut(newest, k) && SightingOf(t, newest[t]) in done && t in p && g in Above(p, t)
    ensures g in Cut(newest, k) && g != t
  {
    var o := SightingOf(g, p[g]);
    assert o in seen && EntryOf(o) == p[g];
    assert p[t] == newest[t];
    assert !Intrudes(o, t, newest, k);
    if g !in Cut(newest, k) {
      KeptExceeds(newest, k, t, g);
    }
  }

  lemma KeptExceeds(m: Pool, k: nat, t: Holder, g: Holder)
    requires t in Cut(m, k) && g in m && g !in Cut(m, k)
    ensures Below(RowOf(m, g), RowOf(m, t))
  {
    CutIsLargest(m, k);
  }

  lemma SingleKeepsTop(o: Sighting, newest: Pool, seen: set<Sighting>, top: Pool)
    requires o.status.Held? && o in seen && Within(top, newest) && IsLatest(newest, seen)
    ensures KeepsTop(map[o.holder := EntryOf(o)], {o}, top)
  {
    forall t | t in top && SightingOf(t, top[t]) in {o}
      ensures t == o.holder && EntryOf(o) == top[t]
    {
      assert SightingOf(t, top[t]) == o;
    }
  }

  lemma {:induction false} FileKeepsTop(file: File, n: nat, newest: Pool, seen: set<Sighting>, k: nat)
    requires n <= |file| && InFile(file, n) <= seen && IsLatest(newest, seen) && Orderly(seen, newest, k)
    ensures KeepsTop(FilePool(file, n, k).newest, InFile(file, n), Cut(newest, k))
  {
    if n > 0 {
      FileKeepsTop(file, n - 1, newest, seen, k);
      ObservedKeepsTop(FilePool(file, n - 1, k), InFile(file, n - 1), file[n - 1], newest, seen, k);
    }
  }

  lemma ObservedKeepsTop(p: PoolState, done: set<Sighting>, o: Sighting, newest: Pool, seen: set<Sighting>, k: nat)
    requires done <= seen && o in seen && IsLatest(newest, seen) && Orderly(seen, newest, k)
    requires KeepsTop(p.newest, done, Cut(newest, k))
    ensures KeepsTop(Observed(p, o, k).newest, done + {o}, Cut(newest, k))
  {
    var top := Cut(newest, k);
    if o.status.Held? {
      var one := map[o.holder := EntryOf(o)];
      SingleKeepsTop(o, newest, seen, top);
      MergeKeepsTop(p.newest, done, one, {o}, newest, seen, top);
      CutKeepsTop(Merged(p.newest, one), done + {o}, newest, seen, k);
    }
  }

  lemma {:induction false} GatheredKeepsTop(
    pools: seq<Pool>, files: seq<File>, n: nat, newest: Pool, seen: set<Sighting>, k: nat)
    requires n <= |files| == |pools| && SeenIn(files, n) <= seen && IsLatest(newest, seen) && Orderly(seen, newest, k)
    requires forall i :: 0 <= i < n ==> KeepsTop(pools[i], InFile(files[i], |files[i]|), Cut(newest, k))
    ensures KeepsTop(Gathered(pools, n, k), SeenIn(files, n), Cut(newest, k))
  {
    if n > 0 {
      GatheredKeepsTop(pools, files, n - 1, newest, seen, k);
      var r, p, file := Gathered(pools, n - 1, k), pools[n - 1], files[n - 1];
      MergeKeepsTop(r, SeenIn(files, n - 1), p, InFile(file, |file|), newest, seen, Cut(newest, k));
      CutKeepsTop(Merged(r, p), SeenIn(files, n), newest, seen, k);
    }
  }

  lemma GatheredSize(pools: seq<Pool>, n: nat, k: nat)
    requires n <= |pools|
    ensures |Gathered(pools, n, k)| <= k
  {
    if n > 0 {
      CutIsLargest(Merged(Gathered(pools, n - 1, k), pools[n - 1]), k);
    }
  }

  lemma {:induction false} FilesAreSeen(files: seq<File>, n: nat, i: nat)
    requires i < n <= |files|
    ensures InFile(files[i], |files[i]|) <= SeenIn(files, n)
  {
    if i < n - 1 {
      FilesAreSeen(files, n - 1, i);
    }
  }

  /** An orderly snapshot leaves the `k` largest newest versions, whatever the files and their order. */
  lemma OrderlySeedIsRight(files: seq<File>, newest: Pool, k: nat)
    requires IsLatest(newest, SeenIn(files, |files|)) && Orderly(SeenIn(files, |files|), newest, k)
    ensures Reservoir(files, k) == Cut(newest, k)
  {
    var seen, pools := SeenIn(files, |files|), Seeds(files, k);
    forall i | 0 <= i < |files|
      ensures KeepsTop(pools[i], InFile(files[i], |files[i]|), Cut(newest, k))
    {
      FilesAreSeen(files, |files|, i);
      FileKeepsTop(files[i], |files[i]|, newest, seen, k);
    }
    GatheredKeepsTop(pools, files, |files|, newest, seen, k);
    GatheredSize(pools, |files|, k);
    TopIsAll(Reservoir(files, k), seen, newest, k);
  }

  lemma TopIsAll(r: Pool, seen: set<Sighting>, newest: Pool, k: nat)
    requires IsLatest(newest, seen) && KeepsTop(r, seen, Cut(newest, k)) && |r| <= k
    ensures r == Cut(newest, k)
  {
    assert Within(Cut(newest, k), r);
    SameKeys(r, Cut(newest, k), newest, seen, k);
  }

  lemma SameKeys(r: Pool, top: Pool, newest: Pool, seen: set<Sighting>, k: nat)
    requires IsLatest(newest, seen) && top == Cut(newest, k) && Within(top, r) && |r| <= k
    requires forall h :: h in r ==> SightingOf(h, r[h]) in seen
    ensures r == top
  {
    CutIsLargest(newest, k);
    SameSize(r);
    SameSize(top);
    SubsetSize(top.Keys, r.Keys);
    forall h | h in r
      ensures h in newest
    {
      assert EntryOf(SightingOf(h, r[h])) == r[h];
    }
  }

  /******* What the pools hold *******/

  ghost predicate PoolSeen(p: Pool, seen: set<Sighting>)
  {
    forall h :: h in p ==> SightingOf(h, p[h]) in seen
  }

  lemma {:induction false} FilePoolSeen(file: File, n: nat, k: nat)
    requires n <= |file|
    ensures PoolSeen(FilePool(file, n, k).newest, InFile(file, n))
  {
    if n > 0 {
      FilePoolSeen(file, n - 1, k);
      var p, seen := FilePool(file, n - 1, k), InFile(file, n - 1);
      ObservedSeen(p, seen, file[n - 1], k);
      assert FilePool(file, n, k) == Observed(p, file[n - 1], k);
      assert InFile(file, n) == seen + {file[n - 1]};
    }
  }

  lemma ObservedSeen(p: PoolState, seen: set<Sighting>, o: Sighting, k: nat)
    requires PoolSeen(p.newest, seen)
    ensures PoolSeen(Observed(p, o, k).newest, seen + {o})
  {
    if o.status.Held? {
      MergedOne(p.newest, o.holder, EntryOf(o));
      assert SightingOf(o.holder, EntryOf(o)) == o;
    }
  }

  lemma {:induction false} GatheredSeen(pools: seq<Pool>, files: seq<File>, n: nat, k: nat)
    requires n <= |pools| == |files|
    requires forall i :: 0 <= i < n ==> PoolSeen(pools[i], InFile(files[i], |files[i]|))
    ensures PoolSeen(Gathered(pools, n, k), SeenIn(files, n))
  {
    if n > 0 {
      GatheredSeen(pools, files, n - 1, k);
      MergedSeen(Gathered(pools, n - 1, k), pools[n - 1], SeenIn(files, n - 1), InFile(files[n - 1], |files[n - 1]|), k);
    }
  }

  lemma MergedSeen(r: Pool, p: Pool, seen: set<Sighting>, more: set<Sighting>, k: nat)
    requires PoolSeen(r, seen) && PoolSeen(p, more)
    ensures PoolSeen(Cut(Merged(r, p), k), seen + more)
  {
  }

  lemma ReservoirSeen(files: seq<File>, k: nat)
    ensures PoolSeen(Reservoir(files, k), SeenIn(files, |files|))
  {
    var pools := Seeds(files, k);
    forall i | 0 <= i < |files|
      ensures PoolSeen(pools[i], InFile(files[i], |files[i]|))
    {
      FilePoolSeen(files[i], |files[i]|, k);
    }
    GatheredSeen(pools, files, |files|, k);
  }

  /** A file too short to be cut leaves the newest version of each of its accounts. */
  lemma {:induction false} UncutFile(file: File, n: nat, k: nat)
    requires n <= |file| < k * 8
    ensures FilePool(file, n, k).length <= n && IsLatest(FilePool(file, n, k).newest, InFile(file, n))
  {
    if n > 0 {
      UncutFile(file, n - 1, k);
      ObservedIsLatest(FilePool(file, n - 1, k), InFile(file, n - 1), file[n - 1], k);
    }
  }

  lemma ObservedIsLatest(p: PoolState, seen: set<Sighting>, o: Sighting, k: nat)
    requires IsLatest(p.newest, seen) && p.length + 1 < k * 8
    ensures Observed(p, o, k).length <= p.length + 1 && IsLatest(Observed(p, o, k).newest, seen + {o})
  {
    if o.status.Held? {
      MergedOne(p.newest, o.holder, EntryOf(o));
      assert SightingOf(o.holder, EntryOf(o)) == o;
    }
  }

  lemma MergedWithNothing(m: Pool)
    ensures Merged(map[], m) == m
  {
  }

  /******* Exactly when given files, in a given order, are seeded right *******/

  predicate Holds(m: Pool, h: Holder, e: Entry)
  {
    h in m && m[h] == e
  }

  /** When seed `j` is merged, `k` other accounts exceed the account. */
  ghost predicate Crowded(pools: seq<Pool>, j: nat, h: Holder, k: nat)
    requires j < |pools|
  {
    var m := Merged(Gathered(pools, j, k), pools[j]);
    h in m && Exceeded(m, h, k)
  }

  /** Seed `i` brings the version, and from then on the account is never crowded out. */
  ghost predicate NeverCrowded(pools: seq<Pool>, i: int, h: Holder, e: Entry, k: nat)
  {
    && 0 <= i < |pools| && Holds(pools[i], h, e)
    && forall j | i <= j < |pools| :: !Crowded(pools, j, h, k)
  }

  /** A version in the reservoir was brought by some seed and has been there since. */
  lemma {:induction false} CameFrom(pools: seq<Pool>, n: nat, k: nat, h: Holder, e: Entry) returns (i: nat)
    requires n <= |pools| && Holds(Gathered(pools, n, k), h, e)
    ensures i < n && Holds(pools[i], h, e) && forall j | i < j <= n :: Holds(Gathered(pools, j, k), h, e)
  {
    if Holds(pools[n - 1], h, e) {
      i := n - 1;
    } else {
      NotFromElsewhere(Gathered(pools, n - 1, k), pools[n - 1], k, h, e);
      i := CameFrom(pools, n - 1, k, h, e);
    }
  }

  lemma NotFromElsewhere(r: Pool, p: Pool, k: nat, h: Holder, e: Entry)
    requires Holds(Cut(Merged(r, p), k), h, e)
    ensures Holds(r, h, e) || Holds(p, h, e)
  {
  }

  lemma {:induction false} StaysWhenUncrowded(
    pools: seq<Pool>, i: nat, n: nat, k: nat, h: Holder, newest: Pool, seen: set<Sighting>)
    requires i < n <= |pools| && IsLatest(newest, seen) && h in newest && NeverCrowded(pools, i, h, newest[h], k)
    requires forall j :: 0 <= j < |pools| ==> PoolSeen(pools[j], seen)
    ensures Holds(Gathered(pools, n, k), h, newest[h])
  {
    var r, p := Gathered(pools, n - 1, k), pools[n - 1];
    if i < n - 1 {
      StaysWhenUncrowded(pools, i, n - 1, k, h, newest, seen);
    }
    GatheredFromSeen(pools, n - 1, k, seen);
    assert PoolSeen(r, seen) && PoolSeen(p, seen);
    MergedHolds(r, p, h, newest, seen);
    assert !Crowded(pools, n - 1, h, k);
  }

  lemma MergedHolds(r: Pool, p: Pool, h: Holder, newest: Pool, seen: set<Sighting>)
    requires IsLatest(newest, seen) && h in newest && PoolSeen(r, seen) && PoolSeen(p, seen)
    requires Holds(r, h, newest[h]) || Holds(p, h, newest[h])
    ensures Holds(Merged(r, p), h, newest[h])
  {
    assert h in r ==> EntryOf(SightingOf(h, r[h])) == r[h];
    assert h in p ==> EntryOf(SightingOf(h, p[h])) == p[h];
  }

  lemma {:induction false} GatheredFromSeen(pools: seq<Pool>, n: nat, k: nat, seen: set<Sighting>)
    requires n <= |pools| && forall j :: 0 <= j < |pools| ==> PoolSeen(pools[j], seen)
    ensures PoolSeen(Gathered(pools, n, k), seen)
  {
    if n > 0 {
      GatheredFromSeen(pools, n - 1, k, seen);
      MergedSeen(Gathered(pools, n - 1, k), pools[n - 1], seen, seen, k);
      assert seen + seen == seen;
    }
  }

  lemma SeedsAreSeen(files: seq<File>, k: nat)
    ensures forall i :: 0 <= i < |files| ==> PoolSeen(Seeds(files, k)[i], SeenIn(files, |files|))
  {
    forall i | 0 <= i < |files|
      ensures PoolSeen(Seeds(files, k)[i], SeenIn(files, |files|))
    {
      FilePoolSeen(files[i], |files[i]|, k);
      FilesAreSeen(files, |files|, i);
    }
  }

  /**
   Files in a given order leave the `k` largest newest versions, if and only if the seed of its file brings the newest
   version of each of those and at no later merge do `k` others exceed it.
   */
  lemma SeedIsRightInOrderIff(files: seq<File>, newest: Pool, k: nat)
    requires IsLatest(newest, SeenIn(files, |files|))
    ensures Reservoir(files, k) == Cut(newest, k) <==>
      forall t :: t in Cut(newest, k) ==> exists i :: NeverCrowded(Seeds(files, k), i, t, newest[t], k)
  {
    var seen, pools := SeenIn(files, |files|), Seeds(files, k);
    if Reservoir(files, k) == Cut(newest, k) {
      forall t | t in Cut(newest, k)
        ensures exists i :: NeverCrowded(pools, i, t, newest[t], k)
      {
        RightMeansUncrowded(pools, k, t, newest[t]);
      }
    } else if forall t :: t in Cut(newest, k) ==> exists i :: NeverCrowded(pools, i, t, newest[t], k) {
      UncrowdedMeansRight(files, newest, k);
    }
  }

  lemma RightMeansUncrowded(pools: seq<Pool>, k: nat, t: Holder, e: Entry)
    requires Holds(Gathered(pools, |pools|, k), t, e)
    ensures exists i :: NeverCrowded(pools, i, t, e, k)
  {
    var i := CameFrom(pools, |pools|, k, t, e);
    forall j | i <= j < |pools|
      ensures !Crowded(pools, j, t, k)
    {
      assert Holds(Gathered(pools, j + 1, k), t, e);
    }
    assert NeverCrowded(pools, i, t, e, k);
  }

  lemma UncrowdedMeansRight(files: seq<File>, newest: Pool, k: nat)
    requires IsLatest(newest, SeenIn(files, |files|))
    requires forall t :: t in Cut(newest, k) ==> exists i :: NeverCrowded(Seeds(files, k), i, t, newest[t], k)
    ensures Reservoir(files, k) == Cut(newest, k)
  {
    var seen, pools := SeenIn(files, |files|), Seeds(files, k);
    SeedsAreSeen(files, k);
    GatheredFromSeen(pools, |files|, k, seen);
    forall t | t in Cut(newest, k)
      ensures Holds(Reservoir(files, k), t, newest[t])
    {
      var i :| NeverCrowded(pools, i, t, newest[t], k);
      StaysWhenUncrowded(pools, i, |files|, k, t, newest, seen);
    }
    GatheredSize(pools, |files|, k);
    TopIsAll(Reservoir(files, k), seen, newest, k);
  }

  /******* A snapshot that is not orderly *******/

  /** One file for each version. */
  function Singles(os: seq<Sighting>): (files: seq<File>)
    ensures |files| == |os| && forall i :: 0 <= i < |os| ==> files[i] == [os[i]]
  {
    seq(|os|, i requires 0 <= i < |os| => [os[i]])
  }

  ghost predicate AllDifferent(os: seq<Sighting>)
  {
    forall i, j :: 0 <= i < j < |os| ==> os[i] != os[j]
  }

  lemma {:induction false} SinglesHold(os: seq<Sighting>, n: nat)
    requires n <= |os|
    ensures SeenIn(Singles(os), n) == set o | o in os[..n]
  {
    if n > 0 {
      SinglesHold(os, n - 1);
      var file := Singles(os)[n - 1];
      assert InFile(file, 1) == InFile(file, 0) + {os[n - 1]};
      assert os[..n] == os[..n - 1] + [os[n - 1]];
    }
  }

  /** No two versions have one stamp: then each is in a file of its own. */
  ghost predicate DifferentStamps(seen: set<Sighting>)
  {
    forall o, p | o in seen && p in seen && o != p :: o.stamp != p.stamp
  }

  lemma SinglesArrange(os: seq<Sighting>, seen: set<Sighting>)
    requires AllDifferent(os) && seen == (set o | o in os) && DifferentStamps(seen)
    ensures Arranges(Singles(os), seen)
  {
    SinglesHold(os, |os|);
    assert os[..|os|] == os;
    forall i, j, x, y | 0 <= i < j < |os| && x in Singles(os)[i] && y in Singles(os)[j]
      ensures x.stamp != y.stamp
    {
      assert x == os[i] && y == os[j];
    }
  }

  lemma {:induction false} SomeListing(s: set<Sighting>) returns (os: seq<Sighting>)
    ensures AllDifferent(os) && |os| == |s| && forall o :: o in os <==> o in s
    decreases s
  {
    if s == {} {
      os := [];
    } else {
      var x :| x in s;
      var rest := SomeListing(s - {x});
      os := [x] + rest;
    }
  }

  function Single(o: Sighting): Pool
  {
    if !o.status.Held? then map[] else map[o.holder := EntryOf(o)]
  }

  function SinglePools(os: seq<Sighting>): (pools: seq<Pool>)
    ensures |pools| == |os| && forall i :: 0 <= i < |os| ==> pools[i] == Single(os[i])
  {
    seq(|os|, i requires 0 <= i < |os| => Single(os[i]))
  }

  /** The seed of a file that holds one version. */
  lemma SingleSeed(o: Sighting, k: nat)
    requires k > 0
    ensures SeedOf([o], k) == Single(o)
  {
    var empty: Pool := map[];
    assert FilePool([o], 0, k) == PoolState(empty, 0);
    assert FilePool([o], 1, k) == Observed(PoolState(empty, 0), o, k);
    if o.status.Held? {
      MergedOne(empty, o.holder, EntryOf(o));
    }
  }

  lemma SingleSeeds(os: seq<Sighting>, k: nat)
    requires k > 0
    ensures Seeds(Singles(os), k) == SinglePools(os)
  {
    forall i | 0 <= i < |os|
      ensures Seeds(Singles(os), k)[i] == SinglePools(os)[i]
    {
      SingleSeed(os[i], k);
    }
  }

  lemma {:induction false} GatheredPrefix(a: seq<Pool>, b: seq<Pool>, n: nat, k: nat)
    requires n <= |a| && n <= |b| && forall i :: 0 <= i < n ==> a[i] == b[i]
    ensures Gathered(a, n, k) == Gathered(b, n, k)
  {
    if n > 0 {
      GatheredPrefix(a, b, n - 1, k);
    }
  }

  /** A version that is not in the reservoir and does not come later is not in it later. */
  lemma {:induction false} NeverBack(pools: seq<Pool>, from: nat, n: nat, k: nat, h: Holder, e: Entry)
    requires from <= n <= |pools|
    requires !Holds(Gathered(pools, from, k), h, e)
    requires forall i :: from <= i < n ==> !Holds(pools[i], h, e)
    ensures !Holds(Gathered(pools, n, k), h, e)
  {
    if from < n {
      NeverBack(pools, from, n - 1, k, h, e);
      if Holds(Gathered(pools, n, k), h, e) {
        NotFromElsewhere(Gathered(pools, n - 1, k), pools[n - 1], k, h, e);
      }
    }
  }

  /** The smallest of the largest, which an intruder exceeds if it exceeds any. */
  lemma {:induction false} SmallestOf(m: Pool, s: set<Holder>) returns (t: Holder)
    requires s <= m.Keys && s != {}
    ensures t in s && forall g :: g in s && g != t ==> Below(RowOf(m, t), RowOf(m, g))
    decreases s
  {
    t :| t in s;
    if s != {t} {
      var u := SmallestOf(m, s - {t});
      if Below(RowOf(m, u), RowOf(m, t)) {
        t := u;
      }
    }
  }

  /** The intruder in place of the smallest of the largest accounts. */
  ghost function Crowd(o: Sighting, t: Holder, newest: Pool, k: nat): Pool
    requires o.status.Held?
  {
    (Cut(newest, k) - {t})[o.holder := EntryOf(o)]
  }

  ghost function SightingsOf(m: Pool): set<Sighting>
  {
    set h | h in m :: SightingOf(h, m[h])
  }

  lemma PoolIsItsLatest(m: Pool)
    ensures IsLatest(m, SightingsOf(m))
  {
    forall o | o in SightingsOf(m)
      ensures o.status.Held? && o.holder in m && EntryOf(o) == m[o.holder]
    {
      var h :| h in m && o == SightingOf(h, m[h]);
    }
  }

  lemma CrowdSize(seen: set<Sighting>, newest: Pool, k: nat, o: Sighting, t: Holder)
    requires IsLatest(newest, seen) && t in Cut(newest, k) && Intrudes(o, t, newest, k)
    ensures |Crowd(o, t, newest, k)| == k && k > 0
  {
    var top, crowd := Cut(newest, k), Crowd(o, t, newest, k);
    CutIsLargest(newest, k);
    SameSize(top);
    SameSize(crowd);
    assert crowd.Keys == top.Keys - {t} + {o.holder};
  }

  /** After the crowd, the smallest of the largest accounts is cut. */
  lemma CrowdedOut(seen: set<Sighting>, newest: Pool, k: nat, o: Sighting, t: Holder)
    requires IsLatest(newest, seen) && t in Cut(newest, k) && Intrudes(o, t, newest, k)
    requires forall g :: g in Cut(newest, k) && g != t ==> Below(RowOf(newest, t), RowOf(newest, g))
    ensures t !in Cut(Merged(Crowd(o, t, newest, k), map[t := newest[t]]), k)
  {
    var crowd := Crowd(o, t, newest, k);
    CrowdSize(seen, newest, k, o, t);
    MergedOne(crowd, t, newest[t]);
    forall g | g in crowd
      ensures Below(RowOf(newest, t), RowOf(crowd, g))
    {
      if g != o.holder {
        assert crowd[g] == newest[g];
      }
    }
    CutBelow(crowd, t, newest[t], k);
  }

  lemma CutBelow(m: Pool, t: Holder, e: Entry, k: nat)
    requires t !in m && |m| == k && forall g :: g in m ==> Below(Row(t, e.amount), RowOf(m, g))
    ensures t !in Cut(m[t := e], k)
  {
    SameSize(m);
    assert m.Keys <= Above(m[t := e], t);
    SubsetSize(m.Keys, Above(m[t := e], t));
    InCutIff(m[t := e], k, t);
  }

  /** With a file for each version, a snapshot that is not orderly has an order that loses one of its largest accounts. */
  lemma DisorderlySeedIsWrong(seen: set<Sighting>, newest: Pool, k: nat, o: Sighting, t': Holder)
    returns (files: seq<File>)
    requires DifferentStamps(seen)
    requires IsLatest(newest, seen) && o in seen && t' in Cut(newest, k) && Intrudes(o, t', newest, k)
    ensures Arranges(files, seen) && Reservoir(files, k) != Cut(newest, k)
  {
    var t := SmallestOf(newest, Cut(newest, k).Keys);
    assert Intrudes(o, t, newest, k);
    files := IntrudedFiles(seen, newest, k, o, t);
  }

  lemma IntrudedFiles(seen: set<Sighting>, newest: Pool, k: nat, o: Sighting, t: Holder) returns (files: seq<File>)
    requires DifferentStamps(seen)
    requires IsLatest(newest, seen) && o in seen && t in Cut(newest, k) && Intrudes(o, t, newest, k)
    requires forall g :: g in Cut(newest, k) && g != t ==> Below(RowOf(newest, t), RowOf(newest, g))
    ensures Arranges(files, seen) && Reservoir(files, k) != Cut(newest, k)
  {
    var crowd := Crowd(o, t, newest, k);
    CrowdSize(seen, newest, k, o, t);
    CrowdIsSeen(seen, newest, k, o, t);
    var os, n := ThenLast(seen, SightingsOf(crowd), SightingOf(t, newest[t]));
    files := Singles(os);
    SinglesArrange(os, seen);
    CrowdComesFirst(os, n, crowd, k);
    CrowdedOut(seen, newest, k, o, t);
    LostAfter(os, n, k, t, newest[t], crowd);
    SingleSeeds(os, k);
    assert Holds(Cut(newest, k), t, newest[t]);
  }

  /** A listing of a set that starts with the given part and goes on with the given element. */
  lemma ThenLast(all: set<Sighting>, part: set<Sighting>, last: Sighting) returns (os: seq<Sighting>, n: nat)
    requires part <= all && last in all && last !in part
    ensures AllDifferent(os) && all == set o | o in os
    ensures n < |os| && os[n] == last && forall o :: o in os[..n] <==> o in part
  {
    var front := SomeListing(part);
    var back := SomeListing(all - part - {last});
    os, n := front + [last] + back, |front|;
    assert os[..n] == front;
    assert forall o :: o in os <==> o in front || o == last || o in back;
    DifferentConcat(front, [last]);
    DifferentConcat(front + [last], back);
  }

  lemma DifferentConcat(a: seq<Sighting>, b: seq<Sighting>)
    requires AllDifferent(a) && AllDifferent(b) && forall o :: o in a ==> o !in b
    ensures AllDifferent(a + b)
  {
    forall i, j | 0 <= i < j < |a + b|
      ensures (a + b)[i] != (a + b)[j]
    {
      if i < |a| <= j {
        assert a[i] in a && b[j - |a|] in b;
      }
    }
  }

  lemma LostAfter(os: seq<Sighting>, n: nat, k: nat, t: Holder, e: Entry, r: Pool)
    requires n < |os| && AllDifferent(os) && os[n] == SightingOf(t, e)
    requires Gathered(SinglePools(os), n, k) == r && t !in Cut(Merged(r, map[t := e]), k)
    ensures !Holds(Gathered(SinglePools(os), |os|, k), t, e)
  {
    var pools := SinglePools(os);
    assert EntryOf(os[n]) == e && pools[n] == map[t := e];
    forall i | n < i < |os|
      ensures !Holds(pools[i], t, e)
    {
      assert os[i] != os[n];
    }
    LostAt(pools, n, k, t, e, r);
    NeverBack(pools, n + 1, |os|, k, t, e);
  }

  lemma LostAt(pools: seq<Pool>, n: nat, k: nat, t: Holder, e: Entry, r: Pool)
    requires n < |pools| && pools[n] == map[t := e]
    requires Gathered(pools, n, k) == r && t !in Cut(Merged(r, map[t := e]), k)
    ensures !Holds(Gathered(pools, n + 1, k), t, e)
  {
  }

  lemma CrowdIsSeen(seen: set<Sighting>, newest: Pool, k: nat, o: Sighting, t: Holder)
    requires IsLatest(newest, seen) && o in seen && t in Cut(newest, k) && Intrudes(o, t, newest, k)
    ensures SightingsOf(Crowd(o, t, newest, k)) <= seen
    ensures SightingOf(t, newest[t]) in seen && SightingOf(t, newest[t]) !in SightingsOf(Crowd(o, t, newest, k))
  {
    var crowd := Crowd(o, t, newest, k);
    forall x | x in SightingsOf(crowd)
      ensures x in seen && x.holder != t
    {
      var h :| h in crowd && x == SightingOf(h, crowd[h]);
      if h == o.holder {
        assert x == o;
      } else {
        assert crowd[h] == newest[h];
      }
    }
  }

  lemma CrowdComesFirst(os: seq<Sighting>, n: nat, crowd: Pool, k: nat)
    requires n <= |os| && |crowd| == k > 0
    requires forall x :: x in os[..n] <==> x in SightingsOf(crowd)
    ensures Gathered(SinglePools(os), n, k) == crowd
  {
    var front := os[..n];
    SinglesHold(front, n);
    assert front[..n] == front;
    assert SeenIn(Singles(front), n) == SightingsOf(crowd);
    PoolIsItsLatest(crowd);
    FewAccountsAreOrderly(SightingsOf(crowd), crowd, k);
    OrderlySeedIsRight(Singles(front), crowd, k);
    SmallIsUncut(crowd, k);
    SingleSeeds(front, k);
    GatheredPrefix(SinglePools(os), SinglePools(front), n, k);
  }

  /**
   When all stamps differ, `merge_seed` leaves the `k` largest newest versions for every order of the files, if and only
   if the snapshot is orderly.
   */
  lemma SeedIsRightIff(seen: set<Sighting>, newest: Pool, k: nat)
    requires IsLatest(newest, seen) && DifferentStamps(seen)
    ensures (forall files | Arranges(files, seen) :: Reservoir(files, k) == Cut(newest, k)) <==>
      Orderly(seen, newest, k)
  {
    if Orderly(seen, newest, k) {
      forall files | Arranges(files, seen)
        ensures Reservoir(files, k) == Cut(newest, k)
      {
        OrderlySeedIsRight(files, newest, k);
      }
    } else {
      var o, t :| o in seen && t in Cut(newest, k) && Intrudes(o, t, newest, k);
      var files := DisorderlySeedIsWrong(seen, newest, k, o, t);
    }
  }

  /******* Files of several versions *******/

  /** The newest versions among the first `n` seeds, with nothing cut. */
  ghost function Uncut(pools: seq<Pool>, n: nat): Pool
    requires n <= |pools|
  {
    if n == 0 then map[] else Merged(Uncut(pools, n - 1), pools[n - 1])
  }

  /** Each of the first `n` seeds holds only versions older than those of the seeds before it. */
  ghost predicate NewestFirst(pools: seq<Pool>, n: nat)
    requires n <= |pools|
  {
    forall i, j, g, h | 0 <= i < j < n && g in pools[i] && h in pools[j] ::
      Older(pools[j][h].stamp, pools[i][g].stamp)
  }

  ghost function OverRow(m: Pool, row: Row): set<Holder>
  {
    set g | g in m && Below(row, RowOf(m, g))
  }

  ghost predicate AllOver(larger: set<Holder>, m: Pool, row: Row, k: nat)
  {
    |larger| == k && forall g :: g in larger ==> g in m && Below(row, RowOf(m, g))
  }

  ghost predicate CrowdOver(m: Pool, row: Row, k: nat)
  {
    exists larger :: AllOver(larger, m, row, k)
  }

  lemma {:induction false} SubsetOfSize(s: set<Holder>, k: nat) returns (part: set<Holder>)
    requires k <= |s|
    ensures part <= s && |part| == k
  {
    part := {};
    if k > 0 {
      part := SubsetOfSize(s, k - 1);
      assert |s| == |part| + |s - part| by {
        assert s == part + (s - part);
      }
      var x :| x in s - part;
      part := part + {x};
    }
  }

  lemma CrowdOverIff(m: Pool, row: Row, k: nat)
    ensures CrowdOver(m, row, k) <==> |OverRow(m, row)| >= k
  {
    if larger :| AllOver(larger, m, row, k) {
      assert larger <= OverRow(m, row);
      SubsetSize(larger, OverRow(m, row));
    } else if |OverRow(m, row)| >= k {
      var part := SubsetOfSize(OverRow(m, row), k);
      assert AllOver(part, m, row, k);
    }
  }

  /** Either `k` accounts of the reservoir are above the row, or all that were seen above it are in the reservoir. */
  ghost predicate FullAbove(r: Pool, all: Pool, row: Row, k: nat)
  {
    && (forall h :: h in r ==> h in all)
    && (CrowdOver(r, row, k) || forall g :: g in OverRow(all, row) ==> Holds(r, g, all[g]))
  }

  lemma CutKeepsCrowd(m: Pool, row: Row, k: nat)
    requires |OverRow(m, row)| >= k
    ensures |OverRow(Cut(m, k), row)| >= k
  {
    var c := Cut(m, k);
    CutIsLargest(m, k);
    SameSize(c);
    if h :| h in c && h !in OverRow(m, row) {
      CrowdStaysAbove(m, c, row, k, h);
    } else {
      assert OverRow(c, row) == c.Keys;
      if OverRow(m, row) <= c.Keys {
        SubsetSize(OverRow(m, row), c.Keys);
      } else {
        var x :| x in OverRow(m, row) && x !in c;
      }
    }
  }

  /** If something at or below the row is kept, everything above the row is. */
  lemma CrowdStaysAbove(m: Pool, c: Pool, row: Row, k: nat, h: Holder)
    requires Largest(c, m, k) && h in c && h !in OverRow(m, row)
    ensures |OverRow(c, row)| == |OverRow(m, row)|
  {
    forall x | x in OverRow(m, row)
      ensures x in OverRow(c, row)
    {
      assert x !in c ==> Below(RowOf(m, x), RowOf(m, h));
    }
    assert OverRow(c, row) == OverRow(m, row);
  }

  lemma CutKeepsFew(m: Pool, row: Row, k: nat, g: Holder)
    requires |OverRow(m, row)| < k && g in OverRow(m, row)
    ensures Holds(Cut(m, k), g, m[g])
  {
    assert Above(m, g) <= OverRow(m, row) - {g};
    SubsetSize(Above(m, g), OverRow(m, row) - {g});
    InCutIff(m, k, g);
  }

  /** Every version of `a` is newer than those of `p`. */
  ghost predicate AllNewer(a: Pool, p: Pool)
  {
    forall g, h | g in a && h in p :: Older(p[h].stamp, a[g].stamp)
  }

  /** A newest version above the row is in the reservoir before the cut. */
  lemma OverStaysNewest(r: Pool, all: Pool, p: Pool, row: Row, g: Holder)
    requires AllNewer(all, p) && AllNewer(r, p) && (forall h :: h in r ==> h in all)
    requires forall x :: x in OverRow(all, row) ==> Holds(r, x, all[x])
    requires g in OverRow(Merged(all, p), row)
    ensures Holds(Merged(r, p), g, Merged(all, p)[g]) && g in OverRow(Merged(r, p), row)
  {
    if g in all {
      assert g in OverRow(all, row);
    }
  }

  lemma FullAboveNext(r: Pool, all: Pool, p: Pool, row: Row, k: nat)
    requires FullAbove(r, all, row, k) && AllNewer(all, p) && AllNewer(r, p)
    ensures FullAbove(Cut(Merged(r, p), k), Merged(all, p), row, k)
  {
    var m := Merged(r, p);
    CrowdOverIff(r, row, k);
    CrowdOverIff(Cut(m, k), row, k);
    if |OverRow(m, row)| >= k {
      CutKeepsCrowd(m, row, k);
    } else {
      assert OverRow(r, row) <= OverRow(m, row);
      SubsetSize(OverRow(r, row), OverRow(m, row));
      forall g | g in OverRow(Merged(all, p), row)
        ensures Holds(Cut(m, k), g, Merged(all, p)[g])
      {
        OverStaysNewest(r, all, p, row, g);
        CutKeepsFew(m, row, k, g);
      }
    }
  }

  /** The reservoir and the newest versions after each seed. */
  ghost predicate IsRun(pools: seq<Pool>, rs: seq<Pool>, alls: seq<Pool>, k: nat)
  {
    && |rs| == |alls| == |pools| + 1 && rs[0] == alls[0] == map[]
    && (forall i :: 0 <= i < |pools| ==> rs[i + 1] == Cut(Merged(rs[i], pools[i]), k))
    && (forall i :: 0 <= i < |pools| ==> alls[i + 1] == Merged(alls[i], pools[i]))
  }

  /** Versions of a merge of earlier seeds are newer than those of a later one. */
  lemma {:induction false} EarlierIsNewer(pools: seq<Pool>, rs: seq<Pool>, alls: seq<Pool>, n: nat, j: nat, k: nat)
    requires n <= j < |pools| && NewestFirst(pools, j + 1) && IsRun(pools, rs, alls, k)
    ensures AllNewer(alls[n], pools[j]) && AllNewer(rs[n], pools[j])
  {
    if n > 0 {
      EarlierIsNewer(pools, rs, alls, n - 1, j, k);
      assert AllNewer(pools[n - 1], pools[j]);
      MergedIsNewer(alls[n - 1], pools[n - 1], pools[j], k);
      MergedIsNewer(rs[n - 1], pools[n - 1], pools[j], k);
    }
  }

  lemma MergedIsNewer(a: Pool, b: Pool, p: Pool, k: nat)
    requires AllNewer(a, p) && AllNewer(b, p)
    ensures AllNewer(Merged(a, b), p) && AllNewer(Cut(Merged(a, b), k), p)
  {
  }

  lemma {:induction false} RunFills(pools: seq<Pool>, rs: seq<Pool>, alls: seq<Pool>, n: nat, k: nat, row: Row)
    requires n <= |pools| && NewestFirst(pools, n) && IsRun(pools, rs, alls, k)
    ensures FullAbove(rs[n], alls[n], row, k)
  {
    if n > 0 {
      RunFills(pools, rs, alls, n - 1, k, row);
      EarlierIsNewer(pools, rs, alls, n - 1, n - 1, k);
      FullAboveNext(rs[n - 1], alls[n - 1], pools[n - 1], row, k);
    }
  }

  lemma NewestFirstFills(pools: seq<Pool>, n: nat, k: nat, row: Row)
    requires n <= |pools| && NewestFirst(pools, n)
    ensures FullAbove(Gathered(pools, n, k), Uncut(pools, n), row, k)
  {
    var rs := seq(|pools| + 1, i requires 0 <= i <= |pools| => Gathered(pools, i, k));
    var alls := seq(|pools| + 1, i requires 0 <= i <= |pools| => Uncut(pools, i));
    GatheredIsRun(pools, rs, alls, k);
    RunFills(pools, rs, alls, n, k, row);
  }

  lemma GatheredIsRun(pools: seq<Pool>, rs: seq<Pool>, alls: seq<Pool>, k: nat)
    requires |rs| == |alls| == |pools| + 1
    requires forall i :: 0 <= i <= |pools| ==> rs[i] == Gathered(pools, i, k) && alls[i] == Uncut(pools, i)
    ensures IsRun(pools, rs, alls, k)
  {
    forall i | 0 <= i < |pools|
      ensures rs[i + 1] == Cut(Merged(rs[i], pools[i]), k) && alls[i + 1] == Merged(alls[i], pools[i])
    {
      assert rs[i + 1] == Gathered(pools, i + 1, k) && alls[i + 1] == Uncut(pools, i + 1);
    }
  }

  /**
   If among some seeds, taken newest first, `k` other accounts have a newest version above that of an account, the
   account is lost, whatever comes later.
   */
  lemma NewestFirstLoses(pools: seq<Pool>, n: nat, k: nat, t: Holder)
    requires n <= |pools| && NewestFirst(pools, n)
    requires t in Uncut(pools, n) && Exceeded(Uncut(pools, n), t, k)
    requires forall i | n <= i < |pools| :: !Holds(pools[i], t, Uncut(pools, n)[t])
    ensures !Holds(Gathered(pools, |pools|, k), t, Uncut(pools, n)[t])
  {
    var all, r := Uncut(pools, n), Gathered(pools, n, k);
    var e := all[t];
    NewestFirstFills(pools, n, k, RowOf(all, t));
    GatheredSize(pools, n, k);
    CrowdLeavesNoRoom(r, all, t, k);
    NeverBack(pools, n, |pools|, k, t, e);
  }

  lemma CrowdLeavesNoRoom(r: Pool, all: Pool, t: Holder, k: nat)
    requires t in all && Exceeded(all, t, k) && FullAbove(r, all, RowOf(all, t), k) && |r| <= k
    ensures !Holds(r, t, all[t])
  {
    var row := RowOf(all, t);
    CrowdOverIff(r, row, k);
    if |OverRow(r, row)| < k {
      var larger :| Exceeds(larger, all, t, k);
      assert larger <= OverRow(r, row);
      SubsetSize(larger, OverRow(r, row));
    }
    SameSize(r);
    if Holds(r, t, all[t]) {
      assert OverRow(r, row) <= r.Keys - {t};
      SubsetSize(OverRow(r, row), r.Keys - {t});
    }
  }

  /** The same of account files: the seeds of `n` of them, newest first, and then the rest in any order. */
  lemma NewestFirstFilesLose(files: seq<File>, seen: set<Sighting>, newest: Pool, n: nat, k: nat, t: Holder)
    requires Arranges(files, seen) && IsLatest(newest, seen) && n <= |files| && t in Cut(newest, k)
    requires NewestFirst(Seeds(files, k), n) && Holds(Uncut(Seeds(files, k), n), t, newest[t])
    requires Exceeded(Uncut(Seeds(files, k), n), t, k)
    ensures Reservoir(files, k) != Cut(newest, k)
  {
    var pools, e := Seeds(files, k), newest[t];
    var i := UncutCameFrom(pools, n, t, e);
    forall j | n <= j < |pools|
      ensures !Holds(pools[j], t, e)
    {
      if Holds(pools[j], t, e) {
        OneFilePerStamp(files, seen, k, i, j, t, e);
      }
    }
    NewestFirstLoses(pools, n, k, t);
    assert Holds(Cut(newest, k), t, e);
  }

  lemma {:induction false} UncutCameFrom(pools: seq<Pool>, n: nat, h: Holder, e: Entry) returns (i: nat)
    requires n <= |pools| && Holds(Uncut(pools, n), h, e)
    ensures i < n && Holds(pools[i], h, e)
  {
    if Holds(pools[n - 1], h, e) {
      i := n - 1;
    } else {
      i := UncutCameFrom(pools, n - 1, h, e);
    }
  }

  lemma OneFilePerStamp(files: seq<File>, seen: set<Sighting>, k: nat, i: nat, j: nat, h: Holder, e: Entry)
    requires Arranges(files, seen) && i < j < |files|
    requires Holds(SeedOf(files[i], k), h, e)
    ensures !Holds(SeedOf(files[j], k), h, e)
  {
    FilePoolSeen(files[i], |files[i]|, k);
    FilePoolSeen(files[j], |files[j]|, k);
    var o := SightingOf(h, e);
    InFileIff(files[i], |files[i]|, o);
    InFileIff(files[j], |files[j]|, o);
  }

  lemma {:induction false} InFileIff(file: File, n: nat, o: Sighting)
    requires n <= |file|
    ensures o in InFile(file, n) <==> o in file[..n]
    ensures n == |file| ==> (o in InFile(file, n) <==> o in file)
  {
    if n > 0 {
      InFileIff(file, n - 1, o);
      assert file[..n] == file[..n - 1] + [file[n - 1]];
    }
    assert file[..|file|] == file;
  }

  /******* What the two one-way conditions leave open *******/

  lemma UncutSeed(file: File, k: nat)
    requires |file| <= k
    ensures IsLatest(SeedOf(file, k), InFile(file, |file|))
  {
    if file != [] {
      UncutFile(file, |file|, k);
    }
  }

  /** Two files of at most `k` accounts are seeded right in either order, orderly or not. */
  lemma TwoSmallFilesAreRight(a: File, b: File, newest: Pool, k: nat)
    requires |a| <= k && |b| <= k && IsLatest(newest, SeenIn([a, b], 2))
    ensures Reservoir([a, b], k) == Cut(newest, k)
  {
    var p, q := SeedOf(a, k), SeedOf(b, k);
    UncutSeed(a, k);
    UncutSeed(b, k);
    SeedFits(p, a, k);
    var pools := Seeds([a, b], k);
    assert Gathered(pools, 0, k) == map[];
    MergedWithNothing(p);
    SmallIsUncut(p, k);
    assert Gathered(pools, 1, k) == p;
    BothSeen(a, b);
    MergedIsLatest(p, InFile(a, |a|), q, InFile(b, |b|));
    LatestIsUnique(newest, Merged(p, q), SeenIn([a, b], 2));
  }

  lemma BothSeen(a: File, b: File)
    ensures SeenIn([a, b], 2) == InFile(a, |a|) + InFile(b, |b|)
  {
    var files := [a, b];
    assert SeenIn(files, 0) == {};
    assert SeenIn(files, 1) == SeenIn(files, 0) + InFile(files[0], |files[0]|);
    assert SeenIn(files, 2) == SeenIn(files, 1) + InFile(files[1], |files[1]|);
  }

  lemma MergedIsLatest(p: Pool, d: set<Sighting>, q: Pool, e: set<Sighting>)
    requires IsLatest(p, d) && IsLatest(q, e)
    ensures IsLatest(Merged(p, q), d + e)
  {
  }

  lemma SeedFits(p: Pool, file: File, k: nat)
    requires IsLatest(p, InFile(file, |file|)) && |file| <= k
    ensures |p| <= k
  {
    var hs := HoldersIn(file, |file|);
    forall h | h in p
      ensures h in hs
    {
      InFileIff(file, |file|, SightingOf(h, p[h]));
    }
    SubsetSize(p.Keys, hs);
    SameSize(p);
  }

  lemma {:induction false} HoldersIn(file: File, n: nat) returns (hs: set<Holder>)
    requires n <= |file|
    ensures |hs| <= n && forall i :: 0 <= i < n ==> file[i].holder in hs
  {
    hs := {};
    if n > 0 {
      var before := HoldersIn(file, n - 1);
      hs := before + {file[n - 1].holder};
    }
  }
}
