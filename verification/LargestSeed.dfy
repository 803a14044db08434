/**
 The snapshot seed of the largest-accounts tracker: pools that keep the newest version of each account and are cut
 to the `k` largest as they grow.
 */
module LargestSeed {
  import opened Basics
  import opened LargestTops

  type Pool = map<Holder, Entry>

  /** An account of a snapshot file, as one mint sees it: a holding, a close, or alive under another mint or owner. */
  datatype Status = Held(amount: nat) | Closed | Elsewhere

  datatype Sighting = Sighting(holder: Holder, status: Status, stamp: Version)

  type File = seq<Sighting>

  datatype SeedAccount = SeedAccount(holder: Holder, entry: Entry)

  function SightingOf(h: Holder, e: Entry): Sighting
  {
    Sighting(h, Held(e.amount), e.stamp)
  }

  function EntryOf(o: Sighting): Entry
    requires o.status.Held?
  {
    Entry(o.status.amount, o.stamp)
  }

  /** The order of `(slot, write_version, amount)`. */
  predicate Newer(a: Entry, b: Entry)
  {
    Older(b.stamp, a.stamp) || (a.stamp == b.stamp && a.amount > b.amount)
  }

  /******* Newest versions *******/

  /** The newer entry of each account. */
  function Merged(a: Pool, b: Pool): Pool
  {
    map h | h in a.Keys + b.Keys :: if h in b && (h !in a || Newer(b[h], a[h])) then b[h] else a[h]
  }

  /** `m` holds the newest version of every account of a vector. */
  ghost predicate NewestIn(m: Pool, pool: seq<SeedAccount>)
  {
    && (forall x :: x in pool ==> x.holder in m && !Newer(x.entry, m[x.holder]))
    && (forall h :: h in m ==> SeedAccount(h, m[h]) in pool)
  }

  lemma NewestIsUnique(m: Pool, n: Pool, pool: seq<SeedAccount>)
    requires NewestIn(m, pool) && NewestIn(n, pool)
    ensures m == n
  {
    assert forall h :: h in m ==> h in n && m[h] == n[h];
    assert forall h :: h in n ==> h in m;
  }

  lemma NewestConcat(m: Pool, a: seq<SeedAccount>, n: Pool, b: seq<SeedAccount>)
    requires NewestIn(m, a) && NewestIn(n, b)
    ensures NewestIn(Merged(m, n), a + b)
  {
  }

  lemma NewestAppend(m: Pool, pool: seq<SeedAccount>, h: Holder, e: Entry)
    requires NewestIn(m, pool)
    ensures NewestIn(Merged(m, map[h := e]), pool + [SeedAccount(h, e)])
  {
    NewestConcat(m, pool, map[h := e], [SeedAccount(h, e)]);
  }

  /** `m` holds the newest amount of every account seen with one. */
  ghost predicate IsLatest(m: Pool, seen: set<Sighting>)
  {
    && (forall o :: o in seen && o.status.Held? ==> o.holder in m && !Newer(EntryOf(o), m[o.holder]))
    && (forall h :: h in m ==> SightingOf(h, m[h]) in seen)
  }

  /******* The `k` largest *******/

  ghost predicate Within(part: Pool, pool: Pool)
  {
    forall h :: h in part ==> h in pool && part[h] == pool[h]
  }

  /** The given `k` accounts all exceed the account. */
  ghost predicate Exceeds(larger: set<Holder>, m: Pool, h: Holder, k: nat)
    requires h in m
  {
    |larger| == k && forall g :: g in larger ==> g in m && Below(RowOf(m, h), RowOf(m, g))
  }

  ghost predicate Exceeded(m: Pool, h: Holder, k: nat)
    requires h in m
  {
    exists larger :: Exceeds(larger, m, h, k)
  }

  /** The `k` largest accounts of a pool: those that no `k` others exceed. */
  ghost function Cut(m: Pool, k: nat): Pool
  {
    map h | h in m && !Exceeded(m, h, k) :: m[h]
  }

  /** `kept` is at most `k` accounts, `k` unless it is all of them, and exceeds the rest. */
  ghost predicate Largest(kept: Pool, pool: Pool, k: nat)
  {
    && Within(kept, pool)
    && |kept| <= k
    && (forall c :: c in pool && c !in kept ==> |kept| == k)
    && (forall h, c :: h in kept && c in pool && c !in kept ==> Below(RowOf(pool, c), RowOf(pool, h)))
  }

  lemma SameSize<V>(m: map<Holder, V>)
    ensures |m| == |m.Keys|
  {
  }

  /** The two descriptions agree. */
  lemma LargestIsCut(kept: Pool, pool: Pool, k: nat)
    requires Largest(kept, pool, k)
    ensures kept == Cut(pool, k)
  {
    SameSize(kept);
    forall h | h in kept
      ensures !Exceeded(pool, h, k)
    {
      if larger :| Exceeds(larger, pool, h, k) {
        assert larger <= kept.Keys - {h};
        SubsetSize(larger, kept.Keys - {h});
      }
    }
    forall c | c in pool && c !in kept
      ensures Exceeded(pool, c, k)
    {
      assert Exceeds(kept.Keys, pool, c, k);
    }
  }

  lemma {:induction false} SomeLargest(m: Pool, k: nat) returns (kept: Pool)
    ensures Largest(kept, m, k)
  {
    kept := map[];
    if k > 0 {
      kept := SomeLargest(m, k - 1);
      var left := set c | c in m && c !in kept;
      if c :| c in m && c !in kept {
        assert c in left;
        var x := SomeMaximum(m, left);
        kept := OneMoreKept(kept, m, k - 1, x);
      }
    }
  }

  lemma OneMoreKept(kept: Pool, m: Pool, k: nat, x: Holder) returns (more: Pool)
    requires Largest(kept, m, k) && |kept| == k && x in m && x !in kept
    requires forall c :: c in m && c !in kept && c != x ==> Below(RowOf(m, c), RowOf(m, x))
    ensures Largest(more, m, k + 1)
  {
    more := kept[x := m[x]];
    SameSize(kept);
    SameSize(more);
    assert more.Keys == kept.Keys + {x};
  }

  lemma CutIsLargest(m: Pool, k: nat)
    ensures Largest(Cut(m, k), m, k)
  {
    var kept := SomeLargest(m, k);
    LargestIsCut(kept, m, k);
  }

  /** The accounts that exceed a given one. */
  ghost function Above(m: Pool, h: Holder): set<Holder>
    requires h in m
  {
    set g | g in m && Below(RowOf(m, h), RowOf(m, g))
  }

  lemma InCutIff(m: Pool, k: nat, h: Holder)
    requires h in m
    ensures h in Cut(m, k) <==> |Above(m, h)| < k
  {
    CutIsLargest(m, k);
    RankIff(Cut(m, k), m, k, h);
  }

  lemma RankIff(kept: Pool, pool: Pool, k: nat, h: Holder)
    requires Largest(kept, pool, k) && h in pool
    ensures h in kept <==> |Above(pool, h)| < k
  {
    SameSize(kept);
    if h in kept {
      assert Above(pool, h) <= kept.Keys - {h};
      SubsetSize(Above(pool, h), kept.Keys - {h});
    } else {
      assert kept.Keys <= Above(pool, h);
      SubsetSize(kept.Keys, Above(pool, h));
    }
  }

  lemma SmallIsUncut(m: Pool, k: nat)
    requires |m| <= k
    ensures Cut(m, k) == m
  {
    assert Largest(m, m, k);
    LargestIsCut(m, m, k);
  }

  /******* What the seed computes *******/

  /** The vector of a pool: its newest versions, and its length with the versions they supersede. */
  datatype PoolState = PoolState(newest: Pool, length: nat)

  /** `observe` over the first `n` accounts of a file: the pool is cut when it reaches eight times its size. */
  ghost function FilePool(file: File, n: nat, k: nat): PoolState
    requires n <= |file|
  {
    if n == 0 then PoolState(map[], 0)
    else Observed(FilePool(file, n - 1, k), file[n - 1], k)
  }

  ghost function Observed(p: PoolState, o: Sighting, k: nat): PoolState
  {
    if !o.status.Held? then p
    else
      var m := Merged(p.newest, map[o.holder := EntryOf(o)]);
      if p.length + 1 >= k * 8 then PoolState(Cut(m, k), |Cut(m, k)|) else PoolState(m, p.length + 1)
  }

  /** The pool of a file never holds eight times its size. */
  lemma {:induction false} PoolStaysSmall(file: File, n: nat, k: nat)
    requires n <= |file| && k > 0
    ensures FilePool(file, n, k).length < 8 * k
  {
    if n > 0 {
      PoolStaysSmall(file, n - 1, k);
      if file[n - 1].status.Held? {
        CutIsLargest(Merged(FilePool(file, n - 1, k).newest, map[file[n - 1].holder := EntryOf(file[n - 1])]), k);
      }
    }
  }

  /** What the seed of a file contributes. */
  ghost function SeedOf(file: File, k: nat): Pool
  {
    FilePool(file, |file|, k).newest
  }

  ghost function Seeds(files: seq<File>, k: nat): (pools: seq<Pool>)
    ensures |pools| == |files| && forall i :: 0 <= i < |files| ==> pools[i] == SeedOf(files[i], k)
  {
    seq(|files|, i requires 0 <= i < |files| => SeedOf(files[i], k))
  }

  /** The reservoir after the first `n` seeds were merged. */
  ghost function Gathered(pools: seq<Pool>, n: nat, k: nat): Pool
    requires n <= |pools|
  {
    if n == 0 then map[] else Cut(Merged(Gathered(pools, n - 1, k), pools[n - 1]), k)
  }

  /** The reservoir after all files. */
  ghost function Reservoir(files: seq<File>, k: nat): Pool
  {
    Gathered(Seeds(files, k), |files|, k)
  }

  /******* The code *******/

  /** The vector lists the map, each account once. */
  ghost predicate Lists(pool: seq<SeedAccount>, m: Pool)
  {
    NewestIn(m, pool) && |pool| == |m|
  }

  /** The first sort and `dedup_by_key`. */
  method Dedup(pool: seq<SeedAccount>) returns (m: Pool)
    ensures NewestIn(m, pool)
  {
    m := map[];
    for i := 0 to |pool|
      invariant NewestIn(m, pool[..i])
    {
      var h, e := pool[i].holder, pool[i].entry;
      NewestAppend(m, pool[..i], h, e);
      assert pool[..i + 1] == pool[..i] + [SeedAccount(h, e)];
      MergedOne(m, h, e);
      if h !in m || Newer(e, m[h]) {
        m := m[h := e];
      }
    }
    assert pool[..|pool|] == pool;
  }

  lemma MergedOne(m: Pool, h: Holder, e: Entry)
    ensures Merged(m, map[h := e]) == if h !in m || Newer(e, m[h]) then m[h := e] else m
  {
  }

  /** The loop of the second sort and `truncate`: what is taken exceeds what is left. */
  ghost predicate Taking(kept: seq<SeedAccount>, taken: Pool, left: set<Holder>, m: Pool)
  {
    && Lists(kept, taken) && Within(taken, m) && left == m.Keys - taken.Keys
    && (forall h, c :: h in taken && c in left ==> Below(RowOf(m, c), RowOf(m, h)))
  }

  lemma TakingNext(kept: seq<SeedAccount>, taken: Pool, left: set<Holder>, m: Pool, h: Holder)
    requires Taking(kept, taken, left, m) && IsLargest(m, left, h)
    ensures Taking(kept + [SeedAccount(h, m[h])], taken[h := m[h]], left - {h}, m)
  {
    ListsNext(kept, taken, h, m[h]);
  }

  lemma ListsNext(pool: seq<SeedAccount>, m: Pool, h: Holder, e: Entry)
    requires Lists(pool, m) && h !in m
    ensures Lists(pool + [SeedAccount(h, e)], m[h := e])
  {
    NewestAppend(m, pool, h, e);
    MergedOne(m, h, e);
    assert m[h := e].Keys == m.Keys + {h};
    SameSize(m);
    SameSize(m[h := e]);
  }

  /** `shrink`: the newest version of each account, then the `k` largest of those. */
  method Shrink(pool: seq<SeedAccount>, k: nat) returns (kept: seq<SeedAccount>)
    ensures forall m :: NewestIn(m, pool) ==> Lists(kept, Cut(m, k))
  {
    var m := Dedup(pool);
    kept := [];
    var taken: Pool := map[];
    var left := m.Keys;
    while |kept| < k && left != {}
      invariant |kept| <= k && Taking(kept, taken, left, m)
      decreases left
    {
      var h := LargestOf(m, left);
      TakingNext(kept, taken, left, m, h);
      kept, taken, left := kept + [SeedAccount(h, m[h])], taken[h := m[h]], left - {h};
    }
    TakenAreLargest(kept, taken, left, m, k);
    forall n | NewestIn(n, pool)
      ensures Lists(kept, Cut(n, k))
    {
      NewestIsUnique(m, n, pool);
    }
  }

  lemma TakenAreLargest(kept: seq<SeedAccount>, taken: Pool, left: set<Holder>, m: Pool, k: nat)
    requires Taking(kept, taken, left, m) && |kept| <= k && (|kept| == k || left == {})
    ensures taken == Cut(m, k)
  {
    assert forall c :: c in m && c !in taken ==> c in left;
    LargestIsCut(taken, m, k);
  }

  /** The vector of a pool in a given state. */
  ghost predicate InState(pool: seq<SeedAccount>, p: PoolState)
  {
    NewestIn(p.newest, pool) && |pool| == p.length
  }

  /** `observe`: only holdings enter the pool. */
  method Observe(pool: seq<SeedAccount>, o: Sighting, k: nat, ghost p: PoolState) returns (next: seq<SeedAccount>)
    requires InState(pool, p)
    ensures InState(next, Observed(p, o, k))
  {
    next := pool;
    if o.status.Held? {
      NewestAppend(p.newest, pool, o.holder, EntryOf(o));
      next := pool + [SeedAccount(o.holder, EntryOf(o))];
      if |next| >= k * 8 {
        next := Shrink(next, k);
      }
    }
  }

  /** The accounts of one file. */
  method SeedFile(file: File, k: nat) returns (pool: seq<SeedAccount>)
    ensures InState(pool, FilePool(file, |file|, k))
  {
    pool := [];
    for i := 0 to |file|
      invariant InState(pool, FilePool(file, i, k))
    {
      pool := Observe(pool, file[i], k, FilePool(file, i, k));
    }
  }

  lemma MergeNothing(m: Pool, k: nat)
    requires |m| <= k
    ensures Cut(Merged(m, map[]), k) == m
  {
    assert Merged(m, map[]) == m;
    SmallIsUncut(m, k);
  }

  /** `merge_seed`: a seed that saw the mint joins the reservoir, which is cut again. */
  method MergeSeed(
    reservoir: seq<SeedAccount>, seed: seq<SeedAccount>, k: nat, ghost r: Pool, ghost p: PoolState)
    returns (kept: seq<SeedAccount>)
    requires Lists(reservoir, r) && |r| <= k && InState(seed, p)
    ensures Lists(kept, Cut(Merged(r, p.newest), k))
  {
    if seed == [] {
      MergeNothing(r, k);
      return reservoir;
    }
    NewestConcat(r, reservoir, p.newest, seed);
    kept := Shrink(reservoir + seed, k);
  }

  /** The vector lists the reservoir after the first `i` seeds. */
  ghost predicate Holding(reservoir: seq<SeedAccount>, pools: seq<Pool>, i: nat, k: nat)
  {
    i <= |pools| && Lists(reservoir, Gathered(pools, i, k)) && |Gathered(pools, i, k)| <= k
  }

  method GatherSeed(
    reservoir: seq<SeedAccount>, file: File, ghost pools: seq<Pool>, ghost i: nat, k: nat)
    returns (kept: seq<SeedAccount>)
    requires i < |pools| && Holding(reservoir, pools, i, k) && pools[i] == SeedOf(file, k)
    ensures Holding(kept, pools, i + 1, k)
  {
    var seed := SeedFile(file, k);
    kept := MergeSeed(reservoir, seed, k, Gathered(pools, i, k), FilePool(file, |file|, k));
    GatheredNext(kept, pools, i, k);
  }

  lemma GatheredNext(kept: seq<SeedAccount>, pools: seq<Pool>, i: nat, k: nat)
    requires i < |pools| && Lists(kept, Cut(Merged(Gathered(pools, i, k), pools[i]), k))
    ensures Holding(kept, pools, i + 1, k)
  {
    CutIsLargest(Merged(Gathered(pools, i, k), pools[i]), k);
  }

  lemma HoldingNothing(pools: seq<Pool>, k: nat)
    ensures Holding([], pools, 0, k)
  {
  }

  /** All files, in the order in which their workers finish. */
  method SeedFiles(files: seq<File>, k: nat) returns (reservoir: seq<SeedAccount>)
    ensures Lists(reservoir, Reservoir(files, k))
  {
    reservoir := GatherAll(files, Seeds(files, k), k);
  }

  method GatherAll(files: seq<File>, ghost pools: seq<Pool>, k: nat) returns (reservoir: seq<SeedAccount>)
    requires |pools| == |files| && forall i :: 0 <= i < |files| ==> pools[i] == SeedOf(files[i], k)
    ensures Holding(reservoir, pools, |files|, k)
  {
    reservoir := [];
    HoldingNothing(pools, k);
    for i := 0 to |files|
      invariant Holding(reservoir, pools, i, k)
    {
      reservoir := GatherSeed(reservoir, files[i], pools, i, k);
    }
  }
}
