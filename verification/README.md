# Verified model of Cloudbreak's hashing, publication and tracking logic

Cloudbreak indexes Solana accounts into Postgres and serves them over JSON-RPC. This project models the parts
of it whose correctness is hard to see from one function, and proves what they guarantee for all inputs, all
interleavings or all reachable states.

Code that updates state in place is modelled as methods and classes with loops and invariants, each proved
against a specification function or predicate. Protocols with several actors are step relations, and their
theorems range over every run.

`dafny verify dfyconfig.toml` checks the whole project.

## Components

| files | what they model |
|---|---|
| `Basics`, `Programs` | shared types; the program selector |
| `LatticeHash`, `SnapshotRecords`, `SnapshotHash`, `AccountHashes`, `FilteredHash` | the accounts lattice hash of SIMD-0215 (1024 wrapping 16-bit lanes) and the three ways of hashing a filtered snapshot |
| `SlotRows`, `SlotPublication`, `SlotHistory`, `SlotGuarantees` | the slot publication protocol: `slots` upserts, the change trigger, the listener, the mint cache feed and the anchor |
| `QueryBuffer`, `QueryFlushing`, `QueryGuarantees`, `QueryFingerprints` | the query tracker client under concurrent buffering and flushing: demand, and value fingerprints |
| `Radix`, `Base58` | the PL/pgSQL base58 functions, against the rules of draft-msporny-base58, sections 2 to 4 |
| `DiffRecords`, `KeySpace`, `SnapshotDiff`, `DiffTotals` | the snapshot diff: record codec, deduplication, prefix partition, database side, counters, whole run |
| `SnapshotIngest`, `GapFilling` | account chunks, the batched insert of account versions, the gap-filling filter |
| `LargestTops`, `LargestRuns` | the largest-accounts reservoir: its updates in any block order, the rows it serves, and exactly when they can be trusted |
| `LargestSeed`, `LargestArrangements`, `LargestBootstrap`, `LargestExamples` | its snapshot seed: stamped versions in any files and any order, tombstones, going live, when the seeded tracker is sound, and snapshots on which it is not |
| `Bandwidth`, `SampleThrottle` | the zero-burst token bucket; the compare-and-swap sampling throttle |
| `AccountComparison`, `SlotCompensation` | the comparison of account responses; the retry loop that looks for a common slot |
| `FilterStore` | the saved program filter: mode plus comma-joined text |

## Where the code and its promises differ

Each of these is a theorem that says exactly when the promise holds, with a run or an input that breaks it.

- **The query buffer is not bounded by `max-buffered-identities`** (crates/api/src/query_tracker_client.rs:17-21).
  Merging failed batches back has no capacity check: after f failed cycles in a row the buffer holds at most
  (f + 1) times the limit, and that is reached for every f (`BufferBound`, `BoundIsReached`).
- **The two-pass and single-pass hashes can differ in include mode**: the first filters by owner before it
  chooses the winning record, the second after. They agree if and only if no account left the selected programs
  (`IncludeModeAgreement`, `IncludeModeCanDisagree`).
- **The filtered hash reports a count of 0 when no filter is set**, whatever the snapshot holds
  (`EmptySelectorCountsNothing`, `EmptySelectorMiscounts`).
- **A reported success of the version insert can hide a lost batch**, exactly when more than ten full batches were
  formed, because the results of batches reaped early are dropped (`SuccessIsTrustworthyIff`).
- **The seed of the largest accounts does not keep the newest state and then the top k**
  (crates/core/src/modules/largest_accounts/tracker.rs:374-376, 442-443). Given files in a given order leave the k
  largest newest versions if and only if the seed of its file brings each of those and at no later merge do k others
  exceed it (`SeedIsRightInOrderIff`). It is enough, in every order of any files, that no superseded version of an
  account outside the k largest exceeds one of those (`OrderlySeedIsRight`), as with at most k accounts
  (`FewAccountsAreOrderly`). When every version has a stamp, and so a file, of its own, that is also necessary
  (`SeedIsRightIff`); in general it is not (`TwoSmallFilesAreRight`, `OrderlyIsNotNeeded`). If k other accounts have, in
  some files, a newest version above that of an account, those files newest first lose it (`NewestFirstFilesLose`); it
  can also be lost otherwise, when an older version returns after the newer one was cut (`OlderVersionReturns`).
- **A largest-accounts top can serve a wrong answer after its bootstrap** (line 832 of the repository's README promises
  that it is dropped instead). The seed cuts accounts off without raising the floor that marks a mint stale, and it does
  not notice an account that is alive under another mint or owner by now. Whatever was seeded, absorbed from blocks or
  trimmed, the tracker is never wrong in any later run if and only if each member is right as far as it can show, at a
  version that no late block can slip behind, and every holder above the floor is a member (`NeverWrongIff`,
  `SeedIsSoundIff`, `BootstrapIsSoundIff`). With at most `accounts-per-mint` accounts that is: none left the mint
  unnoticed (`FewAccountsAreSafeIff`, `MovedAccountIsServed`). From an orderly snapshot that no account is gone from it
  is: no more funded holders than `accounts-per-mint` (`SafeIffFundedFit`); from others that is not enough
  (`FundedFitIsNotEnough`). With nothing cut off every answer is right, in any order of blocks (`ReportedRowsAreTrue`).
- **A snapshot diff counts files that an earlier run left behind** (crates/command/src/hash_check.rs:87-91, 335-338,
  361-364): `./snapshot_diff_tmp` is not emptied, a file is truncated only when its prefix has a record, and any file
  that exists is loaded. The totals are right for every database if and only if no prefix without records has a
  left-over file with a live account; the empty database already shows it (`TotalsAreRightIff`, `LeftoverIsCounted`).
- **`bs58_decode` drops leading zero bytes**: it inverts `bs58_encode` if and only if the bytes do not start with
  zero (`RoundTripIsExactIff`).
- **`bs58_decode` accepts a blank as a `1`**: a blank `char(1)` becomes an empty text, which `position` finds at 1. It
  fails if and only if some character is neither in the alphabet nor a blank (`DecodeFailsIff`, `BlankDecodesAsOne`).
- **`find_slot_match` need not return the first pair that shares a slot**, as its comment promises: it does if and only
  if rpc2 answered that slot once (`MatchIsFirstPairIff`). The retry loop reaches the other case (`ChosenIsFirstIff`,
  `LaterResponseWins`).
- **Nor does it always prefer earlier slots**: it does, whatever rpc2 answers, if and only if rpc1's slots, each where
  it was first answered, come in order (`PrefersEarlierSlotsIff`, `LaterSlotIsChosen`). The retry loop ends on the
  smallest shared slot if and only if rpc1's last answer is not of a smaller shared one (`ChosenSlotIsSmallestIff`,
  `SwappedSlotsChooseLater`).
- **The array comparison is symmetric only on consistent responses**: with two differing entries of one pubkey it
  depends on the order of its arguments (`SymmetricIffConsistent`, `DuplicatesBreakSymmetry`).
- **A slots row at slot 0 is never read into memory**, so its block time can differ from the table's
  (`DrainedSlotsAgree`, `BranchesAgreeExactly`, `SlotZeroIsNotRead`).
- **Gap filling can report an account alive that is not, or no longer selected**: exactly when the newest record of an
  account is held back and an older live one is sent (`GapFillingIsRightIff`). With an include list that is an account
  that went, alive, to another owner (`MovedIsReportedAlive`); with an exclude list any account whose newest record has
  an excluded owner, closed ones too (`ClosedIsSafeIff`, `ClosedIsReportedAlive`).

## Model

| member | source | states |
|---|---|---|
| `LatticeHash.MixOutCancels` | crates/snapshot/src/lt_hash.rs:299-302 | mixing out undoes mixing in, on both sides, over wrapping lanes |
| `LatticeHash.SetSumTake` | crates/snapshot/src/lt_hash.rs:163-166 | the group sum over a set does not depend on the order of its elements |
| `LatticeHash.SetSumUnion` | crates/snapshot/src/lt_hash.rs:299-302 | the sum over a disjoint union is the sum of the sums |
| `SnapshotRecords.FlattenPermutation` | crates/snapshot/src/lt_hash.rs:183-188 | reordering files reorders records and changes nothing else |
| `SnapshotRecords.PermutationKeepsUnique` | crates/snapshot/src/lt_hash.rs:183-188 | the set of records and the uniqueness of versions survive any file order |
| `SnapshotHash.FirstPass` | crates/snapshot/src/lt_hash.rs:44-92 | the version map holds exactly the tracked accounts, each at the newest version among its tracked records |
| `SnapshotHash.SecondPass` | crates/snapshot/src/lt_hash.rs:98-151 | hash and count are the sum and size of the records that pass the version, owner and balance tests |
| `SnapshotHash.ContributorsAreKept` | crates/snapshot/src/lt_hash.rs:122-149 | the records that pass are the live selected newest ones among the tracked records |
| `SnapshotHash.ComputeTwoPass` | crates/snapshot/src/lt_hash.rs:156-169 | the two passes together compute the sum and count of that set |
| `SnapshotHash.SortNewestFirst` | crates/snapshot/src/lt_hash.rs:183-188 | a permutation of the files in descending (slot, write_version) order |
| `SnapshotHash.ScanRecord` | crates/snapshot/src/lt_hash.rs:223-247 | one record: after each record the totals are those of the newest live records scanned so far |
| `SnapshotHash.ScanInOrder` | crates/snapshot/src/lt_hash.rs:192-249 | over the whole newest-first scan each account counts once, at its newest record |
| `SnapshotHash.ComputeSinglePass` | crates/snapshot/src/lt_hash.rs:173-256 | fails exactly for an empty selector; otherwise hashes the right side of the selector and counts the kept accounts, and the saturating subtraction never saturates |
| `AccountHashes.OneRecordHash` | crates/snapshot/src/lt_hash.rs:19-36 | a snapshot of one account: its hash over lamports, data, executable, owner and pubkey with a count of 1, or the identity and 0 when it is closed |
| `AccountHashes.ClosedAddNothing` | crates/snapshot/src/lt_hash.rs:26-28 | closed accounts add nothing to a hash |
| `AccountHashes.NewerFileDecides` | crates/snapshot/src/lt_hash.rs:44-92 | of an account stored twice the higher slot decides and, at one slot, the higher write version, in either file order and in both forms |
| `AccountHashes.TwoAccountsAreMixed` | crates/snapshot/src/lt_hash.rs:141-149 | two live accounts: the lanes of their hashes are added, and the count is 2 |
| `AccountHashes.ReplacedTwoPass` | crates/snapshot/src/lt_hash.rs:122-149 | replacing a kept record by another live one of its account mixes out the hash of the old fields and mixes in that of the new ones |
| `AccountHashes.ReplacedSinglePass` | crates/snapshot/src/lt_hash.rs:223-247 | the same of the single pass, on the side of the selector that is hashed |
| `FilteredHash.ExtractLtHash` | crates/snapshot/src/lt_hash.rs:258-275 | lane i is the little-endian number of the two bytes at 2i of the last 2048, or the error when the file is shorter |
| `FilteredHash.ExtractInvertsEncode` | crates/snapshot/src/lt_hash.rs:269-274 | whatever precedes it, an encoded hash is read back |
| `FilteredHash.ComputeFiltered` | crates/snapshot/src/lt_hash.rs:277-303 | every branch: include mode, the System program refusal, short metadata, no filter, total minus excluded; exactly when each error is returned |
| `FilteredHash.ExcludeModeEqualsTwoPass` | crates/snapshot/src/lt_hash.rs:277-303 | total minus excluded has the hash and the count of the two-pass form |
| `FilteredHash.EmptySelectorCountsNothing` | crates/snapshot/src/lt_hash.rs:295-297 | without a filter the hash agrees with the two-pass form and the count does if and only if nothing is alive |
| `FilteredHash.EmptySelectorMiscounts` | crates/snapshot/src/lt_hash.rs:295-297 | a snapshot of one live account: count 0 against 1 |
| `FilteredHash.OneNewestRecord` | crates/snapshot/src/lt_hash.rs:183-227 | every account has exactly one newest record |
| `FilteredHash.IncludeModeAgreement` | crates/snapshot/src/lt_hash.rs:46-91 | the two forms agree in include mode if and only if no account left the selected programs |
| `FilteredHash.FilteredIncludeAgreement` | crates/snapshot/src/lt_hash.rs:277-283 | the filtered hash of an include list is that of the two-pass form under the same condition, whatever the metadata |
| `FilteredHash.IncludeModeCanDisagree` | crates/snapshot/src/lt_hash.rs:224-247 | a snapshot of two records on which they differ, for every hash function |
| `FilteredHash.FileOrderIsIrrelevant` | crates/snapshot/src/lt_hash.rs:39-303 | no form depends on the order of the input files |
| `SlotRows.SlotsTable.InsertSlot` | crates/index/src/db_queries.rs:145-174 | a new commitment gets its row; a higher slot replaces slot, block time and blockhash, keeps the health and sends one notification; anything else changes and sends nothing |
| `SlotRows.SlotsTable.UpdateServiceHealth` | crates/core/src/modules/service_health.rs:37-71 | the health row is set, every slots row keeps all but its health, and only rows that change are notified, in the order touched |
| `SlotRows.HealthNotesAreChanges` | crates/core/src/modules/service_health.rs:37-71 | the notifications of a health write are the rows whose health changes, each once |
| `SlotRows.SlotSyncronizer.Apply` | crates/api/src/slot_syncronizer.rs:149-186 | the whole new in-memory state, the anchor sent, and exactly when the task panics |
| `SlotRows.SlotSyncronizer.Handle` | crates/api/src/slot_syncronizer.rs:118-141 | one iteration: on a confirmed advance the mint cache is fed the row's slot, blockhash and health, then the row is applied |
| `SlotPublication.IterationIsHandle` | crates/api/src/slot_syncronizer.rs:133-140 | the three separate steps of the protocol do what one call of Handle does |
| `SlotPublication.CachedIsMax` | crates/api/src/slot_syncronizer.rs:165-172 | the cached slot is the maximum delivered for its commitment |
| `SlotPublication.AdvancesIncrease` | crates/api/src/slot_syncronizer.rs:143-146 | confirmed advances have strictly increasing slots and end at the cached slot |
| `SlotPublication.LogStep` | crates/migration/src/m20220101_000001_create_slots_table.rs:40-62 | no notification is lost, duplicated or reordered by any step |
| `SlotPublication.StepKeepsInv` | crates/api/src/slot_syncronizer.rs:118-186 | every step of every actor keeps the protocol invariant |
| `SlotPublication.TraceKeepsInv` | crates/api/src/slot_syncronizer.rs:118-186 | the invariant holds in every state of every run |
| `SlotHistory.TableHoldsHighestInsert` | crates/index/src/db_queries.rs:160-166 | after any run a row has the largest slot it started with or was inserted with, and the block time and blockhash of the start or of the first insert of that slot |
| `SlotHistory.HigherInsertReplaces` | crates/index/src/db_queries.rs:160-166 | in any state a higher insert sets slot, block time and blockhash, keeps the health and is notified once, and nothing else changes |
| `SlotHistory.HealthIsLastWritten` | crates/index/src/db_queries.rs:158-159 | after any run the health of a row is the last one the health service wrote, or the one the row came with |
| `SlotGuarantees.NeverPanics` | crates/api/src/slot_syncronizer.rs:161-180 | neither panic of apply is reachable from what the indexer writes |
| `SlotGuarantees.CachedSlotIsMaxAndInTable` | crates/api/src/slot_syncronizer.rs:154-172 | in every reachable state a cached slot is the largest delivered and not ahead of the table |
| `SlotGuarantees.SlotsGrowAlongTheRun` | crates/api/src/slot_syncronizer.rs:148-172 | cached slots never decrease over a run |
| `SlotGuarantees.DrainedSlotsAgree` | crates/index/src/db_queries.rs:158-166 | once drained, slot and block time equal the table for each notified row, the block time exactly unless the row is at slot 0 |
| `SlotGuarantees.UnnotifiedRowReadsZero` | crates/api/src/slot_syncronizer.rs:94-94 | a row not notified since listening began reads as slot 0 |
| `SlotGuarantees.DrainedHealthAgrees` | crates/api/src/slot_syncronizer.rs:157-157 | once drained, the health seen is that of the row changed last |
| `SlotGuarantees.HealthStaysUniform` | crates/core/src/modules/service_health.rs:55-62 | rows keep one common health when inserts carry it |
| `SlotGuarantees.FedBeforePublished` | crates/api/src/slot_syncronizer.rs:133-140 | between any two steps, the confirmed slot a reader can pick was passed to on_confirmed |
| `SlotGuarantees.FedSequence` | crates/api/src/slot_syncronizer.rs:133-146 | the slots, blockhashes and health given to the mint cache are those of the confirmed advances, strictly increasing, with at most one more about to be stored |
| `SlotGuarantees.AnchorSequence` | crates/api/src/slot_syncronizer.rs:174-185 | the anchors are the advances in order, at most one behind, each with its own row's blockhash |
| `SlotGuarantees.AnchorsFollowFeeds` | crates/api/src/slot_syncronizer.rs:133-185 | feeds and anchors form one sequence, the anchors at most one behind |
| `SlotGuarantees.BranchesAgreeExactly` | crates/api/src/http/mod.rs:202-234 | the cached and the direct branch agree on a drained state if and only if the row changed last has the health of the row asked for and, when healthy, that row is not at slot 0 with a block time |
| `SlotGuarantees.LookupFailsIff` | crates/api/src/http/mod.rs:202-234 | exactly when each branch refuses, and with which error |
| `SlotGuarantees.UnhealthyNodeIsRefused` | crates/api/src/http/mod.rs:202-234 | once an unhealthy table was delivered both branches answer that the node is unhealthy |
| `SlotGuarantees.SlotZeroIsNotRead` | crates/api/src/slot_syncronizer.rs:163-169 | a run after which the table has a block time that memory answers with 0 |
| `SlotGuarantees.BranchesAgreeAlongTheRun` | crates/api/src/http/mod.rs:202-234 | after any run of writes with positive slots and carried health, both branches give one answer |
| `SlotGuarantees.ProcessedHasNoRow` | crates/api/src/slot_syncronizer.rs:48-62 | Processed reads the confirmed slot in memory and is an internal error on the table |
| `QueryBuffer.SaturationIsStable` | crates/core/src/modules/query_tracker_api.rs:88-91 | clipping early or late gives the same counters |
| `QueryBuffer.Merge` | crates/core/src/modules/query_tracker_api.rs:88-98 | each counter is the clipped sum; the fingerprints are a union cut at the cap, neither lost nor invented |
| `QueryBuffer.Observe` | crates/api/src/query_tracker_client.rs:117-129 | one query adds one call, its cost and its failure with saturation, and a fingerprint below the cap |
| `QueryBuffer.QueryTrackerClient.BufferQuery` | crates/api/src/query_tracker_client.rs:112-130 | dropped, and counted, if and only if the identity is new and the buffer full; otherwise one call, its cost and its failure are added with clipping, every other entry unchanged |
| `QueryBuffer.QueryTrackerClient.Drain` | crates/api/src/query_tracker_client.rs:158-176 | everything is taken and the drop counter reset |
| `QueryBuffer.QueryTrackerClient.RequeueEntries` | crates/api/src/query_tracker_client.rs:229-245 | merging back adds each entry's demand to what arrived meanwhile, and its fingerprints up to the cap, in any order of iteration |
| `QueryBuffer.SendInBatches` | crates/api/src/query_tracker_client.rs:178-194 | every entry is in exactly one batch of size 1 to the maximum, and the failed batches are kept whole and in order, and no others |
| `QueryFlushing.IdealStepConserves` | crates/api/src/query_tracker_client.rs:158-205 | each step, in ideal arithmetic, keeps buffered plus in flight plus delivered equal to accepted |
| `QueryGuarantees.FollowsStep` | crates/api/src/query_tracker_client.rs:112-130 | the saturating program is the ideal one with every counter clipped, step by step |
| `QueryGuarantees.IdealRun` | crates/api/src/query_tracker_client.rs:158-245 | every run of the program follows a conserving ideal run |
| `QueryGuarantees.DemandIsConserved` | crates/api/src/query_tracker_client.rs:112-245 | in every state of every interleaving no demand is invented and none lost but by clipping; without overflow it is equal |
| `QueryGuarantees.QueryIsAcceptedIff` | crates/api/src/query_tracker_client.rs:112-130 | in any run a query is refused if and only if its identity is new and the buffer full; an accepted one is logged with one call, its cost and its failure |
| `QueryGuarantees.AcceptedIsAsked` | crates/api/src/query_tracker_client.rs:112-130 | what is logged as accepted is the count, cost and failures of the queries that found their identity buffered, or room |
| `QueryGuarantees.AskedIsKept` | crates/api/src/query_tracker_client.rs:112-245 | that demand is buffered, in flight or delivered in every state of every interleaving, but for what the counters cannot hold |
| `QueryGuarantees.ChunkIsDeliveredIff` | crates/api/src/query_tracker_client.rs:178-194 | in any run a POST that succeeds delivers exactly its chunk, and one that fails keeps exactly its chunk |
| `QueryGuarantees.CycleFailsIff` | crates/api/src/query_tracker_client.rs:176-205 | a cycle counts as failed if and only if something is kept, and an empty buffer starts none |
| `QueryGuarantees.CallsAreAccountedFor` | crates/api/src/query_tracker_client.rs:112-115 | accepted, dropped and reported drops add up to all indexable calls |
| `QueryGuarantees.BufferBound` | crates/api/src/query_tracker_client.rs:17-21 | the real size bound: (f + 1) times the limit after f failed cycles |
| `QueryGuarantees.BoundIsReached` | crates/api/src/query_tracker_client.rs:229-245 | for every f a reachable state holds exactly that many identities |
| `QueryFingerprints.StepKeepsEnough` | crates/api/src/query_tracker_client.rs:112-245 | each critical section or POST: no fingerprint is invented, and one is missing only from an identity that holds as many as the cap |
| `QueryFingerprints.FingerprintsAreKept` | crates/api/src/query_tracker_client.rs:112-245 | in every state of every interleaving: what is buffered, in flight or delivered was observed, it is as much as was observed up to the cap, and nothing is lost of an identity with at most 256 |
| `QueryFingerprints.ChunkIsDeliveredIff` | crates/api/src/query_tracker_client.rs:178-194 | the same delivery rule for the entries with their fingerprints |
| `QueryFingerprints.EntriesAreCapped` | crates/core/src/modules/query_tracker_api.rs:88-98 | no buffered, in-flight or delivered entry ever carries more than 256 fingerprints |
| `QueryFingerprints.OnlyTheCapIsKept` | crates/api/src/query_tracker_client.rs:125-129 | for every n from 256 on, a run with n fingerprints that keeps exactly 256: the bound is reached |
| `Radix.ValueOfDigits` | crates/migration/src/m20250714_055019_add_bs58_functions.rs:43-48 | writing a number in a base and reading it gives it back |
| `Radix.DigitsOfValue` | crates/migration/src/m20250714_055019_add_bs58_functions.rs:78-87 | reading digits and writing the number drops leading zeros and nothing else |
| `Base58.Decode` | crates/migration/src/m20250714_055019_add_bs58_functions.rs:34-51 | both loops: the bytes of the number, a blank read as '1', or the first character refused |
| `Base58.DecodeFailsIff` | crates/migration/src/m20250714_055019_add_bs58_functions.rs:36-39 | decoding fails if and only if some character is neither in the alphabet nor a blank, and names the first |
| `Base58.BlankDecodesAsOne` | crates/migration/src/m20250714_055019_add_bs58_functions.rs:30-36 | a single blank decodes like a '1' |
| `Base58.Encode` | crates/migration/src/m20250714_055019_add_bs58_functions.rs:73-103 | the three loops: one '1' for each leading zero byte, then the digits of the number |
| `Base58.DecodeOfEncode` | crates/migration/src/m20250714_055019_add_bs58_functions.rs:34-102 | decode of encode is the input without its leading zero bytes |
| `Base58.RoundTripIsExactIff` | crates/migration/src/m20250714_055019_add_bs58_functions.rs:34-102 | the round trip is exact if and only if the input does not start with zero |
| `Base58.EncodeOfDecode` | crates/migration/src/m20250714_055019_add_bs58_functions.rs:34-102 | encode of decode is the text without its leading '1's |
| `Base58.EncodeOfAccepted` | crates/migration/src/m20250714_055019_add_bs58_functions.rs:34-102 | for every accepted text, encode of decode is the text with blanks as '1's and without leading '1's |
| `Base58.StandardDecodeOfEncode` | crates/migration/src/m20250714_055019_add_bs58_functions.rs:73-103 | a decoder that follows the draft reads every encoding back |
| `Base58.EncodeIsInjective` | crates/migration/src/m20250714_055019_add_bs58_functions.rs:73-103 | different byte strings have different encodings |
| `Base58.KnownTexts` | crates/migration/src/m20250714_055019_add_bs58_functions.rs:73-103 | three texts that fix the alphabet, the order of the digits and the order of the bytes |
| `DiffRecords.RecordRoundTrip` | crates/command/src/hash_check.rs:339-343 | the 88-byte record is read back |
| `DiffRecords.RecordLayout` | crates/command/src/hash_check.rs:340-344 | the bytes of a record: address, three little-endian numbers of 8 bytes, hash |
| `DiffRecords.ParseInvertsEncode` | crates/command/src/hash_check.rs:366-378 | chunks_exact(88) inverts the writer, also with a trailing partial record |
| `DiffRecords.NewestMapIsUnique` | crates/command/src/hash_check.rs:379-386 | the deduplicated map is determined by the set of records |
| `DiffRecords.LoadDeduped` | crates/command/src/hash_check.rs:360-402 | the loop over the chunks of any file gives the hash of the newest record of every account whose newest record is not closed |
| `DiffRecords.FirstNewestStays` | crates/command/src/hash_check.rs:380-385 | of the newest records of an account the first in the file is kept, whatever the records |
| `DiffRecords.ScanOrderIsIrrelevant` | crates/command/src/hash_check.rs:360-402 | files with the same records in any order load to the same map |
| `KeySpace.IntervalsPartitionKeys` | crates/command/src/hash_check.rs:410-415 | a pubkey is in the interval of a prefix exactly when its first two bytes name that prefix |
| `KeySpace.LexLessIsTotal` | crates/command/src/hash_check.rs:404-431 | the bytewise order orders any two different byte strings |
| `SnapshotDiff.RecordsAreSelected` | crates/command/src/hash_check.rs:312-344 | a prefix file holds the records of the selected accounts of its prefix and no others, each with its own fields, and a hash of zeros when closed |
| `SnapshotDiff.PrefixFileRepresents` | crates/command/src/hash_check.rs:282-402 | written and loaded back, a prefix file gives the newest live selected version of every account |
| `SnapshotDiff.OwnerFilterDenotesSelector` | crates/command/src/hash_check.rs:246-264 | the SQL owner clause admits exactly the selected owners |
| `SnapshotDiff.CollectRows` | crates/command/src/hash_check.rs:444-461 | the row loop, on any rows; on an answer of `DISTINCT ON` it gives the newest live version of every matching account |
| `SnapshotDiff.QuerySeesSelectedPrefix` | crates/command/src/hash_check.rs:404-431 | the query sees exactly the selected versions of its prefix up to the target slot |
| `SnapshotDiff.RepresentationIsUnique` | crates/command/src/hash_check.rs:360-461 | both sides compute one function of the stored versions |
| `DiffTotals.DiffAccounting` | crates/command/src/hash_check.rs:94-164 | every key is counted once on each side, and only matches are counted if and only if the maps are equal |
| `DiffTotals.CleanDiffIff` | crates/command/src/hash_check.rs:178-181 | the printed totals are clean if and only if snapshot and database hold the same newest live accounts, and they add up to both sizes |
| `DiffTotals.TotalsAdd` | crates/command/src/hash_check.rs:104-109 | the counters of disjoint parts of the key space add up |
| `DiffTotals.CountPrefix` | crates/command/src/hash_check.rs:109-164 | the two loops of one prefix, in any iteration order, add its four counters |
| `DiffTotals.ScanToPrefixFiles` | crates/command/src/hash_check.rs:282-352 | in a directory with any files: a wanted prefix file is the encoding of its records in scan order, or what was there before when it has none; other prefixes are not written |
| `DiffTotals.RunDiff` | crates/command/src/hash_check.rs:54-189 | the totals add up over the prefixes; without left-over files they compare the newest live selected accounts of snapshot and database, over one prefix or, without one, over all accounts |
| `DiffTotals.TotalsAreRightIff` | crates/command/src/hash_check.rs:87-91 | the totals are those of an empty directory, for every database, if and only if no wanted prefix without records has a file that loads a live account |
| `DiffTotals.LeftoverIsCounted` | crates/command/src/hash_check.rs:361-364 | an empty snapshot, an empty database and one left-over record: one account is reported as only in the snapshot |
| `DiffTotals.JoinedRepresents` | crates/command/src/hash_check.rs:99-109 | the loaded sides of the prefixes, put together, hold the newest live accounts of their range |
| `DiffTotals.EveryKeyIsCompared` | crates/command/src/hash_check.rs:99-102 | the prefixes of a full run leave no account out |
| `SnapshotIngest.ChunkAccounts` | crates/snapshot/src/lib.rs:308-396 | the chunks hold each account as often as the file when its owner is in the include list or, without one, not in the exclude list, and no other, in file order; all full but the last, none empty; version i is of account i |
| `SnapshotIngest.IngestFile` | crates/snapshot/src/lib.rs:308-422 | versions are sent exactly when every chunk was written, and then exactly the admitted accounts are stored; otherwise the chunks before the first failure are |
| `SnapshotIngest.SelectedAreAdmitted` | crates/snapshot/src/lib.rs:360-366 | what is selected: the positions of the admitted owners, in strictly increasing order, and the count of every account |
| `SnapshotIngest.BatchesConserve` | crates/snapshot/src/lib.rs:461-488 | every received version is in exactly one batch, in the order received |
| `SnapshotIngest.BatchSizes` | crates/snapshot/src/db_queries.rs:25-25 | batches hold at least 1000 versions and the remainder fewer |
| `SnapshotIngest.ReceiveAll` | crates/snapshot/src/lib.rs:461-488 | at most ten batches are in flight, and each early reap takes one still in flight |
| `SnapshotIngest.InsertVersions` | crates/snapshot/src/lib.rs:453-519 | success if and only if every watched batch and the remainder succeed; a failing batch leaves the remainder unsubmitted |
| `SnapshotIngest.SuccessIsTrustworthyIff` | crates/snapshot/src/lib.rs:473-475 | success can hide a lost batch if and only if more than ten full batches were formed |
| `SnapshotIngest.LostWasReapedEarly` | crates/snapshot/src/lib.rs:473-505 | under a reported success only early reaped batches can be lost |
| `SnapshotIngest.SmallSnapshotsAreTrustworthy` | crates/snapshot/src/lib.rs:466-475 | with fewer than 11,000 versions a reported success loses nothing |
| `GapFilling.FillGaps` | crates/snapshot/src/lib.rs:557-656 | the blocks sent hold exactly the kept records of the files in the gaps |
| `GapFilling.SentRecordsSuffice` | crates/snapshot/src/lib.rs:608-616 | the newest live records kept are the newest live selected ones if and only if no newest record is held back behind a live one |
| `GapFilling.GapFillingIsRightIff` | crates/snapshot/src/lib.rs:557-656 | what the blocks say of each account of the gaps is right if and only if no account is outdated |
| `GapFilling.ClosedIsSafeIff` | crates/snapshot/src/lib.rs:609-616 | a closing record never leaves its account reported alive if and only if an include list is set or its owner is not excluded |
| `GapFilling.ClosedIsReportedAlive` | crates/snapshot/src/lib.rs:614-616 | an account closed under an excluded owner is reported alive |
| `GapFilling.MovedIsReportedAlive` | crates/snapshot/src/lib.rs:609-613 | with an include list an account that went to another owner is reported alive |
| `LargestTops.MinEntry` | crates/core/src/modules/largest_accounts/tracker.rs:62-67 | the minimum by (amount, pubkey) |
| `LargestTops.MintTop.RemoveMember` | crates/core/src/modules/largest_accounts/tracker.rs:131-155 | only a newer stamp removes, the cached minimum stays the true one, and the mint is touched exactly when it changed |
| `LargestTops.MintTop.ApplyUpdate` | crates/core/src/modules/largest_accounts/tracker.rs:158-248 | every branch: hidden by a tombstone while seeding, replaced, dropped under the floor, displacing the true minimum, inserted; touched exactly when something changed |
| `LargestTops.FullReservoirUpdate` | crates/core/src/modules/largest_accounts/tracker.rs:158-248 | a new holder enters a full reservoir if and only if some member has less; then the smallest member goes, and the floor remembers what stayed outside |
| `LargestTops.RoomyUpdate` | crates/core/src/modules/largest_accounts/tracker.rs:158-248 | the other cases: a member takes only a newer stamp, an old block adds nobody and raises the floor, and otherwise the holder enters |
| `LargestTops.MintTop.Trim` | crates/core/src/modules/largest_accounts/tracker.rs:250-277 | the k largest members stay, the floor rises to the largest amount dropped, and the cached minimum stays the true one |
| `LargestTops.MintTop.Emit` | crates/core/src/modules/largest_accounts/tracker.rs:342-364 | what is served afterwards is the reported rows or nothing; which of unchanged, newly stale, cleared or a record is emitted, and the stale latch |
| `LargestTops.ComputeTop` | crates/core/src/modules/largest_accounts/tracker.rs:73-90 | the first rows of the reservoir in descending order, and whether they are reported |
| `LargestTops.ReportsIffProvable` | crates/core/src/modules/largest_accounts/tracker.rs:81-89 | rows are reported if and only if they are a top by amount whatever the unseen holders are |
| `LargestTops.ExactIff` | crates/core/src/modules/largest_accounts/tracker.rs:79-89 | ties are right too, whatever the unseen holders are, if and only if the last of all rows is above the floor |
| `LargestRuns.NextKeepsInv` | crates/core/src/modules/largest_accounts/tracker.rs:593-683 | each change keeps: members have their true amount, or it and the truth are too low to show, and every other holder has at most the floor |
| `LargestRuns.ReportedRowsAreTrue` | crates/core/src/modules/largest_accounts/tracker.rs:593-683 | in every run, with blocks in any order, what is served is the true top by amount |
| `LargestRuns.NeverWrongIff` | crates/core/src/modules/largest_accounts/tracker.rs:593-683 | a tracker that goes live with any floor never serves a wrong row, in any run, if and only if each member is right as far as it can show, at a version nothing can slip behind, and every holder above the floor is a member |
| `LargestRuns.WrongMemberIsServed` | crates/core/src/modules/largest_accounts/tracker.rs:352-360 | a member with a wrong amount at or above the floor is served once the others are closed and enough new ones arrive |
| `LargestRuns.HiddenMemberIsWrong` | crates/core/src/modules/largest_accounts/tracker.rs:352-360 | a member under the floor whose true amount is above it is missing from the rows served in some run |
| `LargestRuns.SlipBehind` | crates/core/src/modules/largest_accounts/tracker.rs:180-204 | a late block replaces a member that is not at its newest version although its amount was right |
| `LargestRuns.MissingIsWrong` | crates/core/src/modules/largest_accounts/tracker.rs:352-360 | a holder above the floor outside the reservoir is missing from the rows served in some run |
| `LargestSeed.LargestIsCut` | crates/core/src/modules/largest_accounts/tracker.rs:452-455 | the accounts that no k others exceed are the k largest |
| `LargestSeed.Dedup` | crates/core/src/modules/largest_accounts/tracker.rs:445-451 | the newest version of each account, by (slot, write_version, amount) |
| `LargestSeed.Shrink` | crates/core/src/modules/largest_accounts/tracker.rs:444-456 | the k largest of the newest versions, each account once |
| `LargestSeed.SeedFile` | crates/core/src/modules/largest_accounts/tracker.rs:422-436 | the pool of a file, cut when it reaches eight times its size |
| `LargestSeed.PoolStaysSmall` | crates/core/src/modules/largest_accounts/tracker.rs:433-435 | the pool of a file never holds eight times its size |
| `LargestSeed.MergeSeed` | crates/core/src/modules/largest_accounts/tracker.rs:582-590 | a seed joins the reservoir, which is cut again |
| `LargestSeed.SeedFiles` | crates/core/src/modules/largest_accounts/tracker.rs:559-591 | the reservoir after all files in the order their workers finish |
| `LargestArrangements.SeedIsRightInOrderIff` | crates/core/src/modules/largest_accounts/tracker.rs:559-591 | given files in a given order leave the k largest newest versions if and only if each of those is brought by the seed of its file and never exceeded by k others at a later merge |
| `LargestArrangements.OrderlySeedIsRight` | crates/core/src/modules/largest_accounts/tracker.rs:374-376 | an orderly snapshot leaves the k largest newest versions, whatever the files and their order |
| `LargestArrangements.DisorderlySeedIsWrong` | crates/core/src/modules/largest_accounts/tracker.rs:444-456 | when all stamps differ, any other snapshot has an order of its files that loses one of its largest accounts |
| `LargestArrangements.SeedIsRightIff` | crates/core/src/modules/largest_accounts/tracker.rs:442-456 | when all stamps differ, the seed keeps newest state and then top k in every order if and only if the snapshot is orderly |
| `LargestArrangements.NewestFirstLoses` | crates/core/src/modules/largest_accounts/tracker.rs:444-456 | if k others have among some seeds a newest version above an account's, those seeds newest first lose it, whatever comes later |
| `LargestArrangements.NewestFirstFilesLose` | crates/snapshot/src/sidecar.rs:474-524 | the same of files, each with a stamp of its own: one of the k largest is not in the reservoir |
| `LargestArrangements.TwoSmallFilesAreRight` | crates/core/src/modules/largest_accounts/tracker.rs:444-456 | two files of at most k accounts are right in either order, orderly or not |
| `LargestArrangements.FewAccountsAreOrderly` | crates/core/src/modules/largest_accounts/tracker.rs:444-456 | a snapshot of at most k accounts is orderly |
| `LargestArrangements.SomeLatest` | crates/core/src/modules/largest_accounts/tracker.rs:445-450 | every snapshot has newest versions |
| `LargestArrangements.LatestIsUnique` | crates/core/src/modules/largest_accounts/tracker.rs:445-450 | and only one set of them |
| `LargestBootstrap.CollectTombstones` | crates/core/src/modules/largest_accounts/tracker.rs:124-129 | the newest close of each account |
| `LargestBootstrap.FinishBootstrap` | crates/core/src/modules/largest_accounts/tracker.rs:687-726 | whatever blocks left while seeding, the seed without the accounts closed since is absorbed, newer stamps win, and the result is trimmed to the k largest |
| `LargestBootstrap.SeededAlone` | crates/core/src/modules/largest_accounts/tracker.rs:687-726 | when no block came while seeding, the result is the seed without the accounts closed since, untrimmed and with floor zero |
| `LargestBootstrap.SomeSeeded` | crates/core/src/modules/largest_accounts/tracker.rs:687-726 | every snapshot seeds a tracker |
| `LargestBootstrap.SeedIsSoundIff` | crates/core/src/modules/largest_accounts/tracker.rs:559-726 | the tracker built from any files never serves a wrong row if and only if each member is harmless and every funded holder was kept; accounts now elsewhere count as gone |
| `LargestBootstrap.BootstrapIsSoundIff` | crates/core/src/modules/largest_accounts/tracker.rs:602-726 | the same with blocks applied while seeding and whatever was trimmed, for holders above the floor |
| `LargestBootstrap.RightSeedIsSoundIff` | crates/core/src/modules/largest_accounts/tracker.rs:398-420 | from a snapshot that was seeded right: if and only if none of the k largest left the mint unnoticed and fewer than k accounts, gone ones included, were last seen above any funded holder |
| `LargestBootstrap.OrderlySeedIsSoundIff` | crates/core/src/modules/largest_accounts/tracker.rs:559-726 | the same from an orderly snapshot in any files and order |
| `LargestBootstrap.FewAccountsAreSafeIff` | crates/core/src/modules/largest_accounts/tracker.rs:559-726 | a snapshot of at most k accounts is safe, in any files, if and only if no account left the mint unnoticed |
| `LargestBootstrap.SafeIffFundedFit` | crates/core/src/modules/largest_accounts/tracker.rs:559-726 | with no account closed or elsewhere by now, an orderly snapshot is safe if and only if its funded holders fit the reservoir |
| `LargestExamples.SupersededCutsFunded` | crates/core/src/modules/largest_accounts/tracker.rs:444-456 | k + 1 accounts, then a newer empty version of the first: the last is not in the reservoir |
| `LargestExamples.FundedFitIsNotEnough` | crates/core/src/modules/largest_accounts/tracker.rs:559-726 | on that input only k holders are funded and the tracker is not sound |
| `LargestExamples.MovedAccountIsServed` | crates/core/src/modules/largest_accounts/tracker.rs:398-420 | one account, alive under another mint in the later file, is in the top of the first mint and the tracker is not sound |
| `LargestExamples.OrderlyIsNotNeeded` | crates/core/src/modules/largest_accounts/tracker.rs:444-456 | two files, for every k from 2 on, that are not orderly and are seeded right in both orders |
| `LargestExamples.OlderVersionReturns` | crates/core/src/modules/largest_accounts/tracker.rs:559-591 | two files, newest first, that lose an account although fewer than k others are above it |
| `Bandwidth.TokenBucket.Refill` | crates/integration_tests/src/bandwidth.rs:44-50 | elapsed time pays the debt, and no budget accrues |
| `Bandwidth.TokenBucket.TryCharge` | crates/integration_tests/src/bandwidth.rs:94-102 | the locked block: charged exactly when there is no debt, else the seconds to wait |
| `Bandwidth.ChargeLeavesEstimate` | crates/integration_tests/src/bandwidth.rs:94-99 | in every run tokens never exceed 0 and a charge leaves exactly minus its estimate |
| `Bandwidth.ChargedIffPaid` | crates/integration_tests/src/bandwidth.rs:92-101 | with any number of callers, an attempt is charged, and joins the dispatches, if and only if the time since the last charge paid for it |
| `Bandwidth.RateBound` | crates/integration_tests/src/bandwidth.rs:86-106 | between any two dispatches of any run the estimates are at most rate times the time between them |
| `Bandwidth.RateIsReached` | crates/integration_tests/src/bandwidth.rs:86-106 | attempts that come as soon as the one before is paid for are all charged, and reach that bound exactly |
| `Bandwidth.SomeJustPaid` | crates/integration_tests/src/bandwidth.rs:86-106 | for any estimates there are such attempts |
| `Bandwidth.BwMeter.AcquireFor` | crates/integration_tests/src/bandwidth.rs:86-106 | a lone caller's sleep loop ends, not before the debt is paid and, with exact sleeps, less than a millisecond after |
| `SampleThrottle.SampleCell.TryClaimSampleSlot` | crates/integration_tests/src/utils.rs:776-790 | an undisturbed call claims exactly when an interval has passed |
| `SampleThrottle.UndisturbedCall` | crates/integration_tests/src/utils.rs:776-790 | the three atomic steps of one caller do what one undisturbed call does |
| `SampleThrottle.StepKeepsInv` | crates/integration_tests/src/utils.rs:776-790 | every atomic step of every caller keeps the claims spaced |
| `SampleThrottle.ClaimsAreSpaced` | crates/integration_tests/src/utils.rs:776-790 | in every interleaving and with any clocks, claims i and j are at least (j - i) intervals apart |
| `SampleThrottle.OneClaimPerWindow` | crates/integration_tests/src/utils.rs:773-776 | a window of one interval holds at most one claim |
| `SampleThrottle.ExchangeSucceedsIff` | crates/integration_tests/src/utils.rs:787-789 | a caller past the check wins if and only if nobody claimed since its load |
| `SampleThrottle.ClaimsGrowIff` | crates/integration_tests/src/utils.rs:787-789 | in any run a step adds a claim if and only if it is such an exchange, and the claim is the time that caller read |
| `SampleThrottle.UndisturbedInRun` | crates/integration_tests/src/utils.rs:776-790 | in any run a caller whose three steps come in a row claims exactly when an interval has passed |
| `SampleThrottle.OthersStay` | crates/integration_tests/src/utils.rs:776-790 | a step of one caller leaves the others where they are |
| `AccountComparison.AccountsEqualIsEquivalence` | crates/integration_tests/src/response_comparison.rs:96-133 | accounts_equal is reflexive, symmetric and transitive for every encoding |
| `AccountComparison.AccountsEqualIff` | crates/integration_tests/src/response_comparison.rs:96-133 | equal as JSON or, under a zstd encoding, same lamports, owner, executable and rentEpoch, same decompressed bytes and same tag; equal accounts always share the four fields |
| `AccountComparison.RecompressedIsEqual` | crates/integration_tests/src/response_comparison.rs:94-95 | accounts that differ only in compressed texts of the same bytes are equal |
| `AccountComparison.ZstdEncodings` | crates/integration_tests/src/response_comparison.rs:100-102 | which encodings are compared by their decompressed bytes |
| `AccountComparison.CompareItems` | crates/integration_tests/src/response_comparison.rs:357-409 | the two loops compute the tests on pubkey-keyed maps |
| `AccountComparison.CompareAccountArrayResponses` | crates/integration_tests/src/response_comparison.rs:342-410 | the whole comparison, with the fallback for responses that are not arrays |
| `AccountComparison.BothFormsAreRead` | crates/integration_tests/src/utils.rs:84-89 | items are found under `result.value` and in a bare `result` array |
| `AccountComparison.OthersHaveNoItems` | crates/integration_tests/src/utils.rs:84-89 | no other response has items |
| `AccountComparison.BothFormsAgree` | crates/integration_tests/src/response_comparison.rs:342-355 | both forms give the same verdict, on either side |
| `AccountComparison.OneAccountEach` | crates/integration_tests/src/response_comparison.rs:357-409 | responses of one account each match if and only if pubkeys and accounts are the same |
| `AccountComparison.DifferentBalancesDoNotMatch` | crates/integration_tests/src/response_comparison.rs:104-108 | endpoints that disagree on a balance never match, whatever the encoding |
| `AccountComparison.PassesIff` | crates/integration_tests/src/response_comparison.rs:357-409 | for all responses: what a passing comparison means for the two maps |
| `AccountComparison.WellFormedComparison` | crates/integration_tests/src/response_comparison.rs:340-410 | with distinct pubkeys: true if and only if the maps agree, and symmetric |
| `AccountComparison.OrderIsIrrelevant` | crates/integration_tests/src/response_comparison.rs:340-341 | with distinct pubkeys the order of items does not matter on either side |
| `AccountComparison.SymmetricIffConsistent` | crates/integration_tests/src/response_comparison.rs:357-409 | a passing comparison passes reversed if and only if the second response is consistent |
| `AccountComparison.DuplicatesBreakSymmetry` | crates/integration_tests/src/response_comparison.rs:361-389 | two entries of one pubkey on which the two directions differ |
| `SlotCompensation.FindSlotMatch` | crates/integration_tests/src/response_comparison.rs:604-631 | a pair if and only if a slot is shared: the earliest rpc1 response, the latest rpc2 response of its slot |
| `SlotCompensation.MatchIsFirstPairIff` | crates/integration_tests/src/response_comparison.rs:602-631 | the match is the first pair that shares a slot if and only if rpc2 answered that slot once |
| `SlotCompensation.ChosenIsFirstIff` | crates/integration_tests/src/response_comparison.rs:497-585 | the same of the pair the retry loop ends on |
| `SlotCompensation.LaterResponseWins` | crates/integration_tests/src/response_comparison.rs:497-612 | a run of the loop whose second endpoint answers one slot twice: the pair it ends on is not the first |
| `SlotCompensation.PrefersEarlierSlotsIff` | crates/integration_tests/src/response_comparison.rs:602-616 | the smallest shared slot is chosen whatever rpc2 answers if and only if rpc1's slots come in order |
| `SlotCompensation.LaterSlotIsChosen` | crates/integration_tests/src/response_comparison.rs:614-616 | for any other rpc1 responses, rpc2 answers on which a later slot is chosen |
| `SlotCompensation.ChosenSlotIsSmallestIff` | crates/integration_tests/src/response_comparison.rs:497-585 | the loop ends on the smallest shared slot if and only if rpc1's last answer is not of a smaller shared one |
| `SlotCompensation.OrderedSlotsAreSafe` | crates/integration_tests/src/response_comparison.rs:497-585 | rpc1 slots that come in order are enough for that |
| `SlotCompensation.SwappedSlotsChooseLater` | crates/integration_tests/src/response_comparison.rs:543-573 | endpoints that swap their slots in the first round: the later slot is chosen |
| `SlotCompensation.Compensate` | crates/integration_tests/src/response_comparison.rs:497-585 | at most the allowed rounds; stops at the first round with a shared slot, else takes the latest responses |
| `SlotCompensation.CompareWithSlotCompensation` | crates/integration_tests/src/response_comparison.rs:467-600 | when the loop is entered; the verdict, responses and durations are those of the chosen pair, the context that of the first |
| `SlotCompensation.CollectedIff` | crates/integration_tests/src/response_comparison.rs:543-561 | what is collected is the seed and exactly the answers that carry a slot, each with its own duration |
| `SlotCompensation.OutcomeWasAnswered` | crates/integration_tests/src/response_comparison.rs:497-585 | the responses and durations of the outcome were answered by their own endpoint in one of its rounds |
| `SlotCompensation.OutcomeIsUnique` | crates/integration_tests/src/response_comparison.rs:497-585 | the answers determine the outcome |
| `SlotCompensation.MatchedIffSharedInTime` | crates/integration_tests/src/response_comparison.rs:497-585 | the final pair has equal slots if and only if some slot is shared within the allowed rounds |
| `SlotCompensation.LastRoundCloses` | crates/integration_tests/src/response_comparison.rs:543-573 | a chosen pair always uses an answer of the last round |
| `FilterStore.SplitOfJoin` | crates/core/src/config.rs:180-184 | splitting inverts joining |
| `FilterStore.JoinOfSplit` | crates/core/src/config.rs:210-211 | joining inverts splitting |
| `FilterStore.SavedFilterIsKept` | crates/core/src/config.rs:171-228 | a loaded filter selects the same programs and gives the same supports_* answers, also with both lists set; getVoteAccounts needs both programs, simulateTransaction an empty filter |
| `FilterStore.SavedFilterIsExactIff` | crates/core/src/config.rs:171-228 | saving loses nothing if and only if at most one list is set |
| `FilterStore.LoadTolerates` | crates/core/src/config.rs:208-228 | white space, empty parts and trailing commas do not change a list; an unknown mode is an error |
| `FilterStore.LoadFailsOnBadText` | crates/core/src/config.rs:208-217 | loading fails on a text that is not a key, whatever the mode, and names the first one |
| `FilterStore.Base58IsFaithful` | crates/core/src/config.rs:180-184 | the base58 text of keys meets what the filter store assumes of key text |
| `FilterStore.SystemProgramText` | crates/snapshot/src/lt_hash.rs:286-291 | the System program is the key written as 32 ones |
| `FilterStore.WhitespaceIs` | crates/core/src/config.rs:210-211 | the 25 characters that trimming removes |

## Left out

- I/O, timeouts, process exits, lock poisoning and the listener's idle panic: a failing connection ends a run.
- blake3, zstd and base64: functions that are not interpreted.
- Two records of one account with equal (slot, write_version): the snapshot theorems assume there are none.
- Slots, block times and balances of 2^63 and above, where the casts to signed columns wrap.
- NULL input of the base58 functions; PL/pgSQL numerics are unbounded integers here.
- That the bytes of the Vote and Stake program keys spell their base58 texts: they are constants here.
- JSON numbers other than integers, and the response shapes that are compared value by value.
- The class sentinels of the largest-accounts tracker, the index from holders to mints, and how `apply_block` routes an account to mints and classes: one top is modelled at a time, with pubkeys as numbers of the same order. Blocks applied while seeding are modelled by what they leave in the top.
- LargestTops.ComputeTop: sorts by repeated selection; the library sort is not modelled.
- LargestTops.MintTop.Trim: takes the smallest member out one at a time; the library sort is not modelled.
- LargestRuns.NeverWrongIff: a version of an account that arrives twice is taken to say the same twice.
- LargestTops.MintTop.ApplyUpdate: the index from holders to mints is not modelled.
- SampleThrottle.ClaimsAreSpaced: intervals and clocks that do not fit 63 bits of nanoseconds are not modelled.
- Bandwidth.RateBound: over real numbers; rounding of f64 is not modelled.
- SnapshotDiff.CollectRows: the answer of `DISTINCT ON` is any sequence that SQL allows; hex printing of the owner clause is not modelled.
- FilterStore.SavedFilterIsKept: a row whose mode column is NULL is not modelled.
- The finalizer, self-healing, supply and non-circulating trackers, mint cache internals, GPA cache, eviction, metrics, configuration defaults and the remaining migrations.
