/** The snapshot ingest pipeline: account chunks of one file, and the batched insert of account versions. */
module SnapshotIngest {
  import opened Basics
  import opened Programs
  import opened SnapshotRecords

  const DB_ACCOUNTS_BATCH_SIZE: nat := 200
  const VERSIONS_BATCH_SIZE: nat := 1_000
  const MAX_IN_FLIGHT: nat := 10

  datatype AccountVersion = AccountVersion(pubkey: Pubkey, slot: nat, owner: Pubkey)

  /******* Chunks of one account file *******/

  /** The selected accounts among the first `n`, in file order. */
  function SelectedAccounts(accounts: seq<Account>, n: nat, programs: AccountSelector): seq<Account>
    requires n <= |accounts|
  {
    if n == 0 then []
    else
      SelectedAccounts(accounts, n - 1, programs)
      + if programs.IsSelected(accounts[n - 1].owner) then [accounts[n - 1]] else []
  }

  /** Every account of the file has a version, selected or not. */
  function VersionsOf(accounts: seq<Account>, slot: nat): (vs: seq<AccountVersion>)
    ensures |vs| == |accounts|
  {
    seq(|accounts|, i requires 0 <= i < |accounts| => AccountVersion(accounts[i].pubkey, slot, accounts[i].owner))
  }

  /** The owners a selector lets through, from its two lists. */
  predicate Admits(programs: AccountSelector, owner: Pubkey)
  {
    if programs.included != [] then owner in programs.included else owner !in programs.excluded
  }

  /** `stored` is the accounts at the positions `picked`: those of the admitted owners, in file order. */
  ghost predicate PickedInOrder(picked: seq<nat>, accounts: seq<Account>, programs: AccountSelector, stored: seq<Account>)
  {
    && |picked| == |stored|
    && (forall k :: 0 <= k < |picked| ==> picked[k] < |accounts| && stored[k] == accounts[picked[k]])
    && (forall k, l :: 0 <= k < l < |picked| ==> picked[k] < picked[l])
    && (forall i: nat :: i in picked <==> i < |accounts| && Admits(programs, accounts[i].owner))
  }

  /** Each account is stored as often as the file has it when its owner is admitted, and not at all otherwise. */
  ghost predicate StoresAdmitted(accounts: seq<Account>, programs: AccountSelector, stored: seq<Account>)
  {
    && (exists picked :: PickedInOrder(picked, accounts, programs, stored))
    && forall a :: multiset(stored)[a] == if Admits(programs, a.owner) then multiset(accounts)[a] else 0
  }

  lemma {:induction false} SelectedInOrder(accounts: seq<Account>, n: nat, programs: AccountSelector)
    returns (picked: seq<nat>)
    requires n <= |accounts|
    ensures PickedInOrder(picked, accounts[..n], programs, SelectedAccounts(accounts, n, programs))
  {
    picked := [];
    if n > 0 {
      picked := SelectedInOrder(accounts, n - 1, programs);
      PickedNext(picked, accounts[..n - 1], accounts[n - 1], programs, SelectedAccounts(accounts, n - 1, programs));
      assert accounts[..n] == accounts[..n - 1] + [accounts[n - 1]];
      if Admits(programs, accounts[n - 1].owner) {
        picked := picked + [n - 1];
      }
    }
  }

  lemma PickedNext(picked: seq<nat>, accounts: seq<Account>, a: Account, programs: AccountSelector, stored: seq<Account>)
    requires PickedInOrder(picked, accounts, programs, stored)
    ensures if Admits(programs, a.owner) then
        PickedInOrder(picked + [|accounts|], accounts + [a], programs, stored + [a])
      else PickedInOrder(picked, accounts + [a], programs, stored)
  {
  }

  lemma {:induction false} SelectedCount(accounts: seq<Account>, n: nat, programs: AccountSelector, a: Account)
    requires n <= |accounts|
    ensures multiset(SelectedAccounts(accounts, n, programs))[a] ==
      if Admits(programs, a.owner) then multiset(accounts[..n])[a] else 0
  {
    if n > 0 {
      SelectedCount(accounts, n - 1, programs, a);
      assert accounts[..n] == accounts[..n - 1] + [accounts[n - 1]];
      CountNext(accounts[..n - 1], SelectedAccounts(accounts, n - 1, programs), accounts[n - 1], programs, a);
    }
  }

  lemma CountNext(accounts: seq<Account>, stored: seq<Account>, x: Account, programs: AccountSelector, a: Account)
    requires multiset(stored)[a] == if Admits(programs, a.owner) then multiset(accounts)[a] else 0
    ensures multiset(if Admits(programs, x.owner) then stored + [x] else stored)[a] ==
      if Admits(programs, a.owner) then multiset(accounts + [x])[a] else 0
  {
  }

  lemma SelectedAreAdmitted(accounts: seq<Account>, programs: AccountSelector)
    ensures StoresAdmitted(accounts, programs, SelectedAccounts(accounts, |accounts|, programs))
  {
    var picked := SelectedInOrder(accounts, |accounts|, programs);
    assert accounts[..|accounts|] == accounts;
    forall a
      ensures multiset(SelectedAccounts(accounts, |accounts|, programs))[a] ==
        if Admits(programs, a.owner) then multiset(accounts)[a] else 0
    {
      SelectedCount(accounts, |accounts|, programs, a);
    }
  }

  /** Version `i` is the address and owner of account `i` at the slot of the file. */
  predicate VersionOfEach(accounts: seq<Account>, slot: nat, versions: seq<AccountVersion>)
  {
    && |versions| == |accounts|
    && forall i :: 0 <= i < |accounts| ==>
      versions[i].pubkey == accounts[i].pubkey && versions[i].slot == slot && versions[i].owner == accounts[i].owner
  }

  /** All chunks are full but the last, and none is empty. */
  predicate WellChunked<T>(chunks: seq<seq<T>>)
  {
    && (forall i :: 0 <= i < |chunks| ==> 1 <= |chunks[i]| <= DB_ACCOUNTS_BATCH_SIZE)
    && (forall i :: 0 <= i < |chunks| - 1 ==> |chunks[i]| == DB_ACCOUNTS_BATCH_SIZE)
  }

  predicate AllFull<T>(chunks: seq<seq<T>>)
  {
    forall i :: 0 <= i < |chunks| ==> |chunks[i]| == DB_ACCOUNTS_BATCH_SIZE
  }

  /** The scan of one account file. */
  method ChunkAccounts(accounts: seq<Account>, slot: nat, programs: AccountSelector)
    returns (chunks: seq<seq<Account>>, versions: seq<AccountVersion>)
    ensures Concat(chunks) == SelectedAccounts(accounts, |accounts|, programs)
    ensures StoresAdmitted(accounts, programs, Concat(chunks))
    ensures WellChunked(chunks)
    ensures versions == VersionsOf(accounts, slot) && VersionOfEach(accounts, slot, versions)
  {
    chunks, versions := ScanAccounts(accounts, slot, programs);
    SelectedAreAdmitted(accounts, programs);
  }

  method ScanAccounts(accounts: seq<Account>, slot: nat, programs: AccountSelector)
    returns (chunks: seq<seq<Account>>, versions: seq<AccountVersion>)
    ensures Concat(chunks) == SelectedAccounts(accounts, |accounts|, programs)
    ensures WellChunked(chunks)
    ensures versions == VersionsOf(accounts, slot)
  {
    chunks, versions := [], [];
    var current: seq<Account> := [];
    for i := 0 to |accounts|
      invariant versions == VersionsOf(accounts, slot)[..i]
      invariant AllFull(chunks) && |current| < DB_ACCOUNTS_BATCH_SIZE
      invariant Concat(chunks) + current == SelectedAccounts(accounts, i, programs)
    {
      var account := accounts[i];
      versions := versions + [AccountVersion(account.pubkey, slot, account.owner)];
      if programs.IsSelected(account.owner) {
        current := current + [account];
        if |current| >= DB_ACCOUNTS_BATCH_SIZE {
          ConcatAppend(chunks, current);
          chunks, current := chunks + [current], [];
        }
      }
    }
    if current != [] {
      ConcatAppend(chunks, current);
      chunks := chunks + [current];
    }
  }

  /** The outcomes of the first `n` writes. */
  predicate AllSucceed(succeeds: nat -> bool, n: nat)
  {
    forall k: nat :: k < n ==> succeeds(k)
  }

  /**
   The worker of one file: it writes the chunks in order and stops at the first failure, and only a worker
   whose chunks are all written sends the file's versions.
   */
  method IngestFile(accounts: seq<Account>, slot: nat, programs: AccountSelector, succeeds: nat -> bool)
    returns (stored: seq<Account>, sent: Option<seq<AccountVersion>>, ghost chunks: seq<seq<Account>>)
    ensures Concat(chunks) == SelectedAccounts(accounts, |accounts|, programs) && WellChunked(chunks)
    ensures sent == if AllSucceed(succeeds, |chunks|) then Some(VersionsOf(accounts, slot)) else None
    ensures sent.Some? ==> StoresAdmitted(accounts, programs, stored) && VersionOfEach(accounts, slot, sent.value)
    ensures sent.Some? ==> stored == SelectedAccounts(accounts, |accounts|, programs)
    ensures sent.None? ==>
      exists k: nat :: k < |chunks| && stored == Concat(chunks[..k]) && AllSucceed(succeeds, k) && !succeeds(k)
  {
    var all, versions := ScanAccounts(accounts, slot, programs);
    chunks := all;
    var failed;
    stored, failed := WriteChunks(all, succeeds);
    SelectedAreAdmitted(accounts, programs);
    sent := if failed then None else Some(versions);
  }

  /** The writes, in order, up to the first failure; the chunk at index `k` is the `k`-th write, as none is empty. */
  method WriteChunks(chunks: seq<seq<Account>>, succeeds: nat -> bool) returns (stored: seq<Account>, failed: bool)
    requires WellChunked(chunks)
    ensures failed <==> !AllSucceed(succeeds, |chunks|)
    ensures !failed ==> stored == Concat(chunks)
    ensures failed ==>
      exists k: nat :: k < |chunks| && stored == Concat(chunks[..k]) && AllSucceed(succeeds, k) && !succeeds(k)
  {
    stored := [];
    for k := 0 to |chunks|
      invariant stored == Concat(chunks[..k]) && AllSucceed(succeeds, k)
    {
      if chunks[k] == [] {
        assert false;
      }
      if !succeeds(k) {
        return stored, true;
      }
      ConcatAppend(chunks[..k], chunks[k]);
      assert chunks[..k] + [chunks[k]] == chunks[..k + 1];
      stored := stored + chunks[k];
    }
    assert chunks[..|chunks|] == chunks;
    failed := false;
  }

  /******* The insert handler *******/

  /** What the handler has submitted, and what it still buffers, after the first `n` messages. */
  datatype Buffered<T> = Buffered(batches: seq<seq<T>>, rest: seq<T>)

  function AfterMessages<T>(received: seq<seq<T>>, n: nat): Buffered<T>
    requires n <= |received|
  {
    if n == 0 then Buffered([], [])
    else
      var before := AfterMessages(received, n - 1);
      var rest := before.rest + received[n - 1];
      if |rest| >= VERSIONS_BATCH_SIZE then Buffered(before.batches + [rest], []) else Buffered(before.batches, rest)
  }

  lemma Rebatched<T>(b: Buffered<T>, message: seq<T>)
    ensures Concat(b.batches + [b.rest + message]) == Concat(b.batches) + b.rest + message
    ensures Concat(b.batches) + (b.rest + message) == Concat(b.batches) + b.rest + message
  {
    ConcatAppend(b.batches, b.rest + message);
  }

  /** Every received version is in exactly one batch, in the order received. */
  lemma {:induction false} BatchesConserve<T>(received: seq<seq<T>>, n: nat)
    requires n <= |received|
    ensures Concat(AfterMessages(received, n).batches) + AfterMessages(received, n).rest == Concat(received[..n])
  {
    if n > 0 {
      BatchesConserve(received, n - 1);
      assert received[..n] == received[..n - 1] + [received[n - 1]];
      ConcatAppend(received[..n - 1], received[n - 1]);
      Rebatched(AfterMessages(received, n - 1), received[n - 1]);
    }
  }

  /** No batch is submitted short, and none is held back. */
  lemma {:induction false} BatchSizes<T>(received: seq<seq<T>>, n: nat)
    requires n <= |received|
    ensures |AfterMessages(received, n).rest| < VERSIONS_BATCH_SIZE
    ensures forall b :: b in AfterMessages(received, n).batches ==> |b| >= VERSIONS_BATCH_SIZE
  {
    if n > 0 {
      BatchSizes(received, n - 1);
    }
  }

  /** `e[i]` is the batch reaped to make room for batch `MAX_IN_FLIGHT + i`: any one still in flight. */
  predicate ReapOrder(e: seq<nat>, submitted: nat)
  {
    && |e| == Max(0, submitted - MAX_IN_FLIGHT)
    && (forall i :: 0 <= i < |e| ==> e[i] < MAX_IN_FLIGHT + i)
    && (forall i, j :: 0 <= i < j < |e| ==> e[i] != e[j])
  }

  /** The batches whose result is looked at. */
  ghost predicate WatchedSucceed(succeeds: nat -> bool, early: seq<nat>, submitted: nat)
  {
    forall k: nat :: k < submitted && k !in early ==> succeeds(k)
  }

  /** When the handler reports success; the remainder is its last submission. */
  ghost predicate Reported<T>(b: Buffered<T>, succeeds: nat -> bool, early: seq<nat>)
  {
    WatchedSucceed(succeeds, early, |b.batches|) && (b.rest != [] ==> succeeds(|b.batches|))
  }

  /** The ids in flight after `n` submissions. */
  ghost function InFlight(early: seq<nat>, n: nat): set<nat>
  {
    set k: nat | k < n && k !in early
  }

  /** `inFlight` is what `n` submissions and the reaps `early` leave, at most ten of them. */
  ghost predicate Watching(inFlight: set<nat>, early: seq<nat>, n: nat)
  {
    ReapOrder(early, n) && inFlight == InFlight(early, n) && |inFlight| == Min(n, MAX_IN_FLIGHT)
  }

  lemma ReapKeepsWatching(inFlight: set<nat>, early: seq<nat>, n: nat, done: nat)
    requires Watching(inFlight, early, n) && |inFlight| >= MAX_IN_FLIGHT && done in inFlight
    ensures Watching(inFlight - {done} + {n}, early + [done], n + 1)
  {
    assert |inFlight - {done}| == |inFlight| - 1;
  }

  /** Submission `n`: with ten in flight, one of them is reaped first and its result dropped. */
  method Submit(inFlight: set<nat>, ghost early: seq<nat>, n: nat) returns (after: set<nat>, ghost reaped: seq<nat>)
    requires Watching(inFlight, early, n)
    ensures Watching(after, reaped, n + 1)
  {
    if |inFlight| >= MAX_IN_FLIGHT {
      var done :| done in inFlight;
      after, reaped := inFlight - {done} + {n}, early + [done];
      ReapKeepsWatching(inFlight, early, n, done);
    } else {
      after, reaped := inFlight + {n}, early;
    }
  }

  /** The loop over the channel: submit each full batch. */
  method ReceiveAll<T>(received: seq<seq<T>>)
    returns (batches: seq<seq<T>>, rest: seq<T>, inFlight: set<nat>, ghost early: seq<nat>, ghost peak: nat)
    ensures Buffered(batches, rest) == AfterMessages(received, |received|)
    ensures Watching(inFlight, early, |batches|) && |inFlight| <= peak <= MAX_IN_FLIGHT
  {
    batches, rest, inFlight, early, peak := [], [], {}, [], 0;
    for n := 0 to |received|
      invariant Buffered(batches, rest) == AfterMessages(received, n)
      invariant Watching(inFlight, early, |batches|) && |inFlight| <= peak <= MAX_IN_FLIGHT
    {
      rest := rest + received[n];
      if |rest| >= VERSIONS_BATCH_SIZE {
        inFlight, early := Submit(inFlight, early, |batches|);
        batches, rest := batches + [rest], [];
        peak := Max(peak, |inFlight|);
      }
    }
  }

  /** The final drain, in any completion order, stops at the first failure. */
  method DrainInFlight(inFlight: set<nat>, succeeds: nat -> bool) returns (result: Result<(), nat>)
    ensures result.Success? <==> forall k :: k in inFlight ==> succeeds(k)
    ensures result.Failure? ==> result.error in inFlight && !succeeds(result.error)
  {
    var left := inFlight;
    while left != {}
      invariant left <= inFlight
      invariant forall k :: k in inFlight && k !in left ==> succeeds(k)
      decreases left
    {
      var k :| k in left;
      if !succeeds(k) {
        return Failure(k);
      }
      left := left - {k};
    }
    result := Success(());
  }

  /**
   The whole handler. Submission `k` has the outcome `succeeds(k)`. The remainder is submitted only after a
   clean drain, so a failing batch also leaves it unwritten.
   */
  method InsertVersions<T>(received: seq<seq<T>>, succeeds: nat -> bool)
    returns (result: Result<(), nat>, submitted: seq<seq<T>>, ghost early: seq<nat>, ghost peak: nat)
    ensures var b := AfterMessages(received, |received|);
      && ReapOrder(early, |b.batches|)
      && (result.Success? <==> Reported(b, succeeds, early))
      && (result.Failure? ==> !succeeds(result.error) && result.error !in early && result.error < |submitted|)
      && submitted == b.batches
        + if b.rest != [] && WatchedSucceed(succeeds, early, |b.batches|) then [b.rest] else []
    ensures peak <= MAX_IN_FLIGHT
    ensures result.Success? ==> Concat(submitted) == Concat(received)
  {
    var batches, rest, inFlight;
    batches, rest, inFlight, early, peak := ReceiveAll(received);
    submitted := batches;
    BatchesConserve(received, |received|);
    assert received[..|received|] == received;
    assert forall k: nat :: k in inFlight <==> k < |batches| && k !in early;
    result := DrainInFlight(inFlight, succeeds);
    if result.Failure? {
      return;
    }
    if rest != [] {
      submitted := batches + [rest];
      ConcatAppend(batches, rest);
      if !succeeds(|batches|) {
        result := Failure(|batches|);
      }
    }
  }

  /******* What a reported success means *******/

  function Submissions<T>(b: Buffered<T>): nat
  {
    |b.batches| + if b.rest == [] then 0 else 1
  }

  /** Success is reported although some submission was lost. */
  ghost predicate SilentLoss<T>(b: Buffered<T>, succeeds: nat -> bool, early: seq<nat>)
  {
    ReapOrder(early, |b.batches|) && Reported(b, succeeds, early) && !AllSucceed(succeeds, Submissions(b))
  }

  /**
   Success can hide a lost batch exactly when more than ten full batches were formed: then a batch that is
   reaped early may fail unseen.
   */
  lemma SuccessIsTrustworthyIff<T>(b: Buffered<T>)
    ensures (forall succeeds, early :: !SilentLoss(b, succeeds, early)) <==> |b.batches| <= MAX_IN_FLIGHT
  {
    var n := |b.batches|;
    if n > MAX_IN_FLIGHT {
      var early := seq(n - MAX_IN_FLIGHT, i => i);
      var succeeds := (k: nat) => k != 0;
      assert early[0] == 0 && !succeeds(0);
      assert SilentLoss(b, succeeds, early);
    } else {
      forall succeeds: nat -> bool, early: seq<nat>
        ensures !SilentLoss(b, succeeds, early)
      {
        if ReapOrder(early, n) && Reported(b, succeeds, early) {
          assert early == [];
          assert AllSucceed(succeeds, Submissions(b));
        }
      }
    }
  }

  /** Whatever is lost was reaped early: every other submission of a reported success was stored. */
  lemma LostWasReapedEarly<T>(b: Buffered<T>, succeeds: nat -> bool, early: seq<nat>, k: nat)
    requires Reported(b, succeeds, early) && k < Submissions(b) && !succeeds(k)
    ensures k in early
  {
  }

  /** Fewer than 11,000 versions never fill an eleventh batch. */
  lemma SmallSnapshotsAreTrustworthy<T>(received: seq<seq<T>>, succeeds: nat -> bool, early: seq<nat>)
    requires |Concat(received)| < (MAX_IN_FLIGHT + 1) * VERSIONS_BATCH_SIZE
    ensures !SilentLoss(AfterMessages(received, |received|), succeeds, early)
  {
    var b := AfterMessages(received, |received|);
    BatchesConserve(received, |received|);
    BatchSizes(received, |received|);
    assert received[..|received|] == received;
    ConcatSize(b.batches, VERSIONS_BATCH_SIZE);
    SuccessIsTrustworthyIff(b);
  }

  lemma {:induction false} ConcatSize<T>(parts: seq<seq<T>>, least: nat)
    requires forall p :: p in parts ==> |p| >= least
    ensures |Concat(parts)| >= |parts| * least
  {
    if parts != [] {
      ConcatSize(parts[..|parts| - 1], least);
      assert |parts| * least == (|parts| - 1) * least + least;
    }
  }
}
