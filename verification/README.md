# Fluxora backend: a verified model

A Dafny 4.11 model of the parts of the backend whose correctness depends on
interleavings, crashes, traversal order or bit arithmetic, with proofs of what
they keep. `dafny verify dfyconfig.toml` checks everything.

| file | models |
|---|---|
| `ReplayTables.dfy`, `ReplayProtocol.dfy`, `ReplayBatches.dfy`, `ReplayService.dfy` | the crash-resumable replay: any number of interleaved runners, the batches they leave behind, and one runner as the code runs it |
| `ProgressCheckpoints.dfy` | the monotone progress checkpoints of the in-memory store |
| `LeaderElection.dfy` | the Redis lease, its fencing tokens and the heartbeat's clock |
| `BackfillScheduler.dfy` | the worker pool with a shared pause gate |
| `WaveScheduler.dfy` | the wave-based ordered scheduler |
| `IntegrityCheck.dfy` | the chunked, concurrent post-replay integrity check |
| `EventStore.dfy`, `CursorWalk.dfy` | the two contract event stores and cursor pagination |
| `Ingestion.dfy`, `RateLimiter.dfy` | reorg handling in ingests, and the limiters |
| `Bits.dfy`, `StrKey.dfy` | the StrKey codec and its CRC-16/XMODEM checksum (SEP-0023; base32 of section 6 of RFC 4648) |
| `GraphQlScoring.dfy`, `GraphQlSurcharge.dfy`, `GraphQlDepth.dfy`, `GraphQlSites.dfy`, `GraphQlReordering.dfy` | query complexity and depth over possibly cyclic fragments (GraphQL, October 2021, sections 2.7 and 2.8) |
| `Text.dfy`, `RetentionTable.dfy` | the published retention table: printing, splicing, parsing, checking |
| `Numbers.dfy`, `Options.dfy`, `Sorting.dfy` | shared vocabulary |

## How the code is modelled

A protocol whose processes interleave is a state machine: `Next` is one atomic
step (what runs between two awaits, or one database or Redis command) and the
theorems are about every run. The outcome of a wait (a stop request, an error, a
lost lease, a COMMIT, of a batch or of a completion, whose result is unknown, a
late or failing command) is chosen by the environment. Code that updates
variables or fields step by step is a method or a class with the same fields,
proved against a specification.

Numbers are unbounded except where the code wraps: the base32 accumulator and
the checksum register are 32-bit words. Event ids are ranks in the order that
sorts them, so that the in-memory comparison and the database's agree. Strings
are sequences of characters.

Assumptions the proofs rest on, as the code's callers keep them:

* The replayed source table does not change, has one block range per contract
  and ledger, and nothing else writes the target; `batchSize` is at least 1.
* `ReplayService.dfy` follows one runner whose COMMITs are settled, applied or
  not, before its run ends. `ReplayProtocol.dfy` and `ReplayBatches.dfy` drop
  that: there a COMMIT may land at any later time.
* An instance runs one election operation at a time. In the code a heartbeat's
  `renew` can overlap `tryAcquire` or `release`.
* Backfill batches are sorted by distinct indices (`backfillScheduler.ts:196`
  pairs a sorted index with the batch at the same position), `retryLimit` is at
  least 1, and `onYield`, `onResume`, `sleep` and the wave scheduler's
  `onCheckpoint` do not throw.
* Event ids are unique in the SQL rows, although the table's key is
  (happened_at, event_id); page limits and offsets are not negative.
* Ingests run one after the other, with a clock that does not go back.

## What the proofs found

* A replay that loses its lease leaves the loop without setting
  `stoppedByRequest` (service.ts:230-239) and marks its cursor completed;
  `LostLeadershipCompletes` is such a run for every non-empty job. A single
  runner's completed run has copied everything if and only if it led at every
  guard (`ReplayEvents`). Among several runners only one half holds: leading at
  every guard is enough (`LedCompletionCopiedAll`), but another runner may have
  copied what a deposed one did not (`DeposedCompletionCopiedAll`).
* A COMMIT whose outcome was unknown can land after the next run has fetched the
  same page, so that one row lies in two committed batches, even with a single
  runner (`LateCommitRepeatsRows`). The batches of a cursor tile its rows if and
  only if each started at the offset durable when it was applied
  (`BatchesTileIff`), as when nothing of the cursor is in flight at a resume.
* As long as no expiry and no error splits the holder's own command sequence, its
  token is the greatest (`HolderIsFenced`); a step makes it possible for a leader
  to be overtaken from there on if and only if it splits one
  (`SplitIffOvertaken`). Five lemmas give a run for each way to split it. An INCR that fails, or a SET NX that is
  applied but reported as failed, does harm only while another instance carries
  the current token.
* A Redis outage alone does not revoke leadership, though the comment at
  leaderElection.ts:272-274 says so: `renew` refreshes its own time stamp before
  it contacts Redis (line 250). An outage revokes it if and only if two
  consecutive attempts lie more than a lease apart (`OutageRevokesIff`), so that
  regular ticks outlast any outage (`OutageAloneKeepsLeadership`).
* White space around a contract address is not part of the checked text: a change
  to one character of an accepted string goes unnoticed if and only if it turns
  white space into other white space (`TypoIsAcceptedIff`), which is possible for
  every address (`PaddingIsNotChecked`) and leaves the address as it was.
* A failed chunk query with an empty message counts as answered at the retry
  test (replayIntegrity.ts:225): it is not retried, and its empty error is kept
  (`EmptyMessageIsKept`).
* An integrity result with an `error` can have `hasIssues` true
  (`ErrorWithIssues`), where the comment at replayIntegrity.ts:161-162 says
  false; it does if and only if some answered chunk has an issue (`IssuesIff`).
* The complexity surcharge counts from a field's second *aliased* use; the
  comment (gateway.ts:234-235) says beyond the field's first occurrence. They
  agree if and only if no field is first met without an alias and met with one
  later (`DocumentAgreesIff`); `{ a  x: a }` scores 2 where the comment says 4
  (`PlainUseIsFree`).
* The depth of a query with a shared fragment can depend on the order of its
  selections (`SharedFragmentHidesDepth`); the complexity never does
  (`ComplexityIgnoresOrder`). A reordering leaves the expanded query's depths alone
  (`ExpansionIgnoresOrder`), so that from an order whose depth is exact every other
  order gives at most that depth, and the same if and only if it is exact there too
  (`DepthUnderReordering`). Without shared fragments the depth never depends on the
  order (`UnsharedDepthIgnoresOrder`). It is exact if and only if no skipped spread
  hides a longer chain (`DocumentExactIff`), as when every fragment is entered at
  its deepest spread (`EnteredDeepestIsExact`).
* A manifest entry with the id `id` is taken for the heading and never parsed
  (`ParseRow`).

## Model

| member | source | states |
|---|---|---|
| ReplayProtocol.StepKeeps | src/indexer/replayBatchRunner.ts:123-186 | every step of any runner, crash, rollback or late COMMIT keeps every row below each cursor's offset in the target, and undoes nothing |
| ReplayProtocol.ApplyKeeps | src/indexer/replayCursorRepository.ts:68-79 | a batch transaction, even one that lands after other runners moved the cursor on, keeps the invariant and never moves the offset back |
| ReplayProtocol.EveryRunIsSafe | src/indexer/service.ts:207-319 | in every interleaving of any number of runners, offsets never decrease, target rows are never lost or changed, and every source row ranked below an offset is in the target |
| ReplayProtocol.NothingInvented | src/indexer/replayBatchRunner.ts:265-304 | the target never holds anything but its original rows and source rows |
| ReplayProtocol.LedCompletionCopiedAll | src/indexer/service.ts:348-358 | a cursor completed by a run that led at every guard has had all its rows copied, whatever the other runners did |
| ReplayProtocol.LostLeadershipCompletes | src/indexer/service.ts:230-239 | for any non-empty job, a run that loses the lease at its first guard completes its cursor with nothing copied |
| ReplayProtocol.DeposedCompletionCopiedAll | src/indexer/service.ts:225-358 | for any non-empty job, there is a run whose only completion is a deposed runner's and in which another runner has copied every row |
| ReplayTables.InsertIgnoreGains | src/indexer/replayBatchRunner.ts:265-304 | inserting with ON CONFLICT DO NOTHING makes every id present, overwrites nothing and adds only the given rows |
| ReplayTables.BatchExtendsPrefix | src/indexer/replayBatchRunner.ts:123-186 | a batch starting at or below the copied prefix extends the prefix to its own end or leaves it |
| ReplayService.ApplyBatchKeepsValid | src/indexer/replayBatchRunner.ts:123-186 | one committed batch keeps copied prefixes of all cursors and extends this cursor's tiling by batches |
| ReplayTables.TilesIffSequential | src/indexer/replayCursorRepository.ts:68-79 | a cursor's applied batches tile its rows up to the offset if and only if each started at the offset then durable |
| ReplayBatches.BatchesTileIff | src/indexer/replayBatchRunner.ts:123-186 | the same for every cursor at every moment of every interleaved run, late COMMITs included |
| ReplayBatches.LateCommitRepeatsRows | src/indexer/replayBatchRunner.ts:82-113 | for any non-empty job, a single runner's COMMIT that lands late leaves two applied batches with the same rows |
| ReplayBatches.SettledRunsTile | src/indexer/service.ts:146-411 | when a cursor is resumed only once nobody works on it and nothing of it is in flight, its batches tile its rows |
| ReplayBatches.EachRowInOneBatch | src/indexer/service.ts:207-319 | over any chain of one runner's stopped, crashed and resumed runs with nothing of the cursor in flight at a resume, a row below the offset lies in exactly one applied batch |
| ReplayService.EachRowInOneBatch | src/indexer/service.ts:207-319 | the same for the runner as the code runs it, whose COMMITs are settled before a run ends |
| ReplayService.LastActive | src/indexer/replayCursorRepository.ts:20-37 | the last started incomplete cursor of the job, and none only if every cursor of the job is complete |
| ReplayService.Database.FindActive | src/indexer/replayCursorRepository.ts:20-37 | finds that cursor |
| ReplayService.Database.FindMostRecentInProgress | src/indexer/replayCursorRepository.ts:163-189 | the cursor of the checkpoint started last among those in progress |
| ReplayService.Transaction.InsertEvents | src/indexer/replayBatchRunner.ts:265-304 | the row-by-row insert equals the batch's effect on the target |
| ReplayService.Transaction.AdvanceOffset | src/indexer/replayCursorRepository.ts:68-79 | moves this cursor's offset to the greater of the old and new value, nothing else |
| ReplayService.ReplayState.StartReplay | src/indexer/replayRuntimeState.ts:116-135 | progress starts at the resume point, rows replayed equal to the offset |
| ReplayService.ReplayState.UpdateProgress | src/indexer/replayRuntimeState.ts:137-151 | the offset shown never decreases, rows replayed grow by the same amount, and the two stay equal |
| ReplayService.IndexerService.ProcessBatch | src/indexer/replayBatchRunner.ts:123-186 | commits exactly the next page of the source, or nothing; an abort changes nothing; after an error the page is committed or not, never in part |
| ReplayService.IndexerService.ResolveOrCreateCursor | src/indexer/service.ts:422-466 | resumes the job's active cursor unchanged, or creates one; touches no other cursor |
| ReplayService.IndexerService.CopyBatches | src/indexer/service.ts:207-319 | the loop terminates; progress shown equals the durable offset at every guard and never runs ahead of it; leaving the loop has reached the total exactly when leadership held |
| ReplayService.IndexerService.Replay | src/indexer/service.ts:183-410 | also after a failure, the progress shown is no further than the durable offset |
| ReplayService.IndexerService.ReplayEvents | src/indexer/service.ts:146-411 | a completed run has copied all rows if and only if it led at every guard; a stopped run stays resumable; after a failure the progress shown is consistent and not ahead; the lock is always released, and the stop flag consumed once the run has begun |
| ReplayService.IndexerService.ResumeIncompleteReplay | src/indexer/service.ts:516-566 | replays the job of the incomplete cursor whose checkpoint was started last; works on that very cursor if and only if no later cursor of the job is incomplete |
| ReplayService.IndexerService.CompleteOrFail | src/indexer/service.ts:471-488 | marks cursor and checkpoint together or, on an error, both or neither |
| ProgressCheckpoints.SavesKeepGreatest | src/indexer/store.ts:236-251 | over any series of saves, accepted or refused, a cursor's checkpoint holds the greatest offset ever offered and never goes back |
| ProgressCheckpoints.CheckpointStore.SaveCheckpoint | src/indexer/store.ts:236-251 | refuses exactly the regressing checkpoints, leaving the table unchanged |
| LeaderElection.StepKeepsInv | src/indexer/leaderElection.ts:159-276 | every unsplit step keeps the holder's token equal to the counter and all others strictly smaller |
| LeaderElection.HolderIsFenced | src/indexer/leaderElection.ts:159-232 | in every run without a split sequence, a leading holder's token is the counter and every other instance's is smaller |
| LeaderElection.SplitIffOvertaken | src/indexer/leaderElection.ts:159-276 | a step makes it possible for a holding leader to be overtaken, without further splits, if and only if it splits a sequence |
| LeaderElection.IssuedTokensIncrease | src/indexer/leaderElection.ts:159-200 | in every run at all, values from INCR strictly increase and no token runs ahead of the counter |
| LeaderElection.OthersWait | src/indexer/leaderElection.ts:159-232 | while an instance is inside its own sequence, no other instance's step moves the key or the counter |
| LeaderElection.ExpiryBeforeIncr | src/indexer/leaderElection.ts:159-175 | an expiry between SET NX and INCR gives the loser the larger token |
| LeaderElection.ExpiryBeforeFenceRead | src/indexer/leaderElection.ts:176-190 | an expiry between confirming the key and reading the counter gives two leaders one token |
| LeaderElection.ExpiryBeforeDel | src/indexer/leaderElection.ts:218-232 | an expiry between check and DEL on release removes the next holder's key mid-acquisition |
| LeaderElection.FailedIncr | src/indexer/leaderElection.ts:159-200 | an INCR that fails without effect lets an instance adopt the current token of another |
| LeaderElection.FailedSetNx | src/indexer/leaderElection.ts:159-200 | so does a SET NX applied but reported as failed |
| LeaderElection.RedisIndexerLeaderElection.TryAcquire | src/indexer/leaderElection.ts:159-200 | success means the key is held with the counter's value, above every earlier one when freshly acquired; any error means not leader |
| LeaderElection.RedisIndexerLeaderElection.Release | src/indexer/leaderElection.ts:218-232 | gives up leadership and leaves a key seen to be another's as it was |
| LeaderElection.RedisIndexerLeaderElection.Renew | src/indexer/leaderElection.ts:238-276 | is one tick of the clock model: resigns without touching Redis if and only if more than a lease has passed since the stamp, refreshes the stamp before Redis answers, and loses leadership otherwise only on an answer that the key is not ours |
| LeaderElection.OutageRevokesIff | src/indexer/leaderElection.ts:238-276 | over any ticks with every Redis command failing, leadership is kept if and only if no two consecutive attempts are more than a lease apart |
| LeaderElection.OutageAloneKeepsLeadership | src/indexer/leaderElection.ts:238-276 | ticks at any interval up to a lease keep leadership through an outage of any length |
| BackfillScheduler.Advanced | src/indexer/backfillScheduler.ts:180-183 | the end of the contiguous run of done batches behind the checkpoint |
| BackfillScheduler.CheckpointsAreSafe | src/indexer/backfillScheduler.ts:180-215 | at every moment of every run each index above the initial checkpoint up to the checkpoint had its handler succeed; checkpoints, reports and claims only grow |
| BackfillScheduler.OneWorkerPerBatch | src/indexer/backfillScheduler.ts:185-211 | no two workers ever work on one batch, and claims never exceed the batches |
| BackfillScheduler.StepKeepsClaims | src/indexer/backfillScheduler.ts:191-193 | positions are claimed once each in ascending order, each by the worker that holds it |
| BackfillScheduler.StepKeepsAccounts | src/indexer/backfillScheduler.ts:186-211 | a claimed batch is done or in some worker's hands unless the run is stopping |
| BackfillScheduler.FinishIsMaximal | src/indexer/backfillScheduler.ts:213-215 | an error-free unaborted finish has every batch done and leaves the checkpoint maximal |
| BackfillScheduler.PausesAreSingle | src/indexer/backfillScheduler.ts:146-178 | at most one pause gate is open, pauses and resumes alternate, and the gauge is their difference |
| BackfillScheduler.ClaimsWaitForLiveIndexing | src/indexer/backfillScheduler.ts:148-193 | with yielding on, every claim followed the worker's own read below the threshold or a wait on a gate that has closed |
| BackfillScheduler.Scheduler.WaitForLiveIndexing | src/indexer/backfillScheduler.ts:148-153 | the code up to the lag read is the model's step |
| BackfillScheduler.Scheduler.LagRead | src/indexer/backfillScheduler.ts:153-178 | the code behind the lag read, opening the gate, is the model's step, also under abort |
| BackfillScheduler.Scheduler.GatePolled | src/indexer/backfillScheduler.ts:163-175 | one turn of the gate's loop is the model's step |
| BackfillScheduler.Scheduler.ClaimNext | src/indexer/backfillScheduler.ts:188-193 | claiming is the model's step |
| BackfillScheduler.Scheduler.HandlerSettled | src/indexer/backfillScheduler.ts:194-205 | marking, committing and reporting, or the catch block, is the model's step |
| BackfillScheduler.Scheduler.CallbackSettled | src/indexer/backfillScheduler.ts:198-205 | what follows onCheckpoint, or its throwing, is the model's step |
| BackfillScheduler.Scheduler.RetryDue | src/indexer/backfillScheduler.ts:206-207 | what follows the back-off is the model's step |
| BackfillScheduler.Scheduler.Commit | src/indexer/backfillScheduler.ts:180-183 | the loop stops at the end of the contiguous done run |
| WaveScheduler.BatchesPartition | src/indexer/backfill.ts:135-146 | the batches are numbered, full but for the last, disjoint, in order, and cover the range exactly |
| WaveScheduler.OrderedBackfillScheduler.BuildBatches | src/indexer/backfill.ts:135-146 | the loop builds those batches |
| WaveScheduler.OrderedBackfillScheduler.ProcessWithRetries | src/indexer/backfill.ts:148-171 | succeeds if and only if some attempt within the budget does; otherwise returns every attempt's error in order |
| WaveScheduler.OrderedBackfillScheduler.Run | src/indexer/backfill.ts:78-133 | range errors, and otherwise a result that the first failing batch alone determines, with checkpoints reported at the wave ends before it |
| WaveScheduler.DescribedOnce | src/indexer/backfill.ts:91-132 | with success a function of the batch, the result is the same for any concurrency |
| WaveScheduler.ReportsIncrease | src/indexer/backfill.ts:118-125 | reported checkpoints strictly increase and never pass the returned one |
| WaveScheduler.SuccessReportsEnd | src/indexer/backfill.ts:118-132 | a run without a failure reports its last ledger last |
| IntegrityCheck.FindGapsAnswers | src/indexer/replayIntegrity.ts:71-81 | the gap query's answer is exactly the absent ledgers in ascending order |
| IntegrityCheck.FindDuplicates | src/indexer/replayIntegrity.ts:83-89 | exactly the repeated (id, ledger) groups with their counts, ordered by ledger and id |
| IntegrityCheck.ChunkAnswered | src/indexer/replayIntegrity.ts:220-234 | a chunk is answered if and only if an attempt within the budget succeeds after attempts that failed with a message |
| IntegrityCheck.EmptyMessageIsKept | src/indexer/replayIntegrity.ts:223-227 | a failure without a message ends the retries and stays the chunk's error |
| IntegrityCheck.CheckChunk | src/indexer/replayIntegrity.ts:220-234 | the retry loop keeps the first attempt without a message, or the last |
| IntegrityCheck.MapWithConcurrency | src/indexer/replayIntegrity.ts:96-114 | whichever worker finishes next, every item gets its own outcome at its own place |
| IntegrityCheck.AddChunk | src/indexer/replayIntegrity.ts:238-247 | appending a chunk's lists keeps the merged lists exact and ordered up to the chunk's end |
| IntegrityCheck.QueryRange | src/indexer/replayIntegrity.ts:90-93 | the least and greatest ledger present in the range, or none |
| IntegrityCheck.CheckReplayIntegrity | src/indexer/replayIntegrity.ts:164-341 | lists exactly the gaps and duplicates of the answered chunks, in order, with the first failed chunk's error |
| IntegrityCheck.ChunkedIsWhole | src/indexer/replayIntegrity.ts:208-251 | without an error the chunked check equals one query over the whole range |
| IntegrityCheck.PartialIsSound | src/indexer/replayIntegrity.ts:238-251 | an unreadable chunk sets the error, and the lists are subsets of the truth |
| IntegrityCheck.IssuesIff | src/indexer/replayIntegrity.ts:253-324 | the result has issues if and only if some answered chunk has a gap or a repeat, error or not |
| IntegrityCheck.ErrorWithIssues | src/indexer/replayIntegrity.ts:315-324 | a database for which the check reports an error and issues |
| EventStore.InMemoryContractEventStore.InsertMany | store.ts:118-136 | appends the events whose ids are new, reports each event as inserted or duplicate, and keeps ids unique |
| EventStore.InMemoryContractEventStore.RollbackBeforeLedger | store.ts:138-150 | removes exactly the records at or above the fork, in place order, and logs them with the evicted hash |
| EventStore.InMemoryContractEventStore.GetLedgerHash | store.ts:152-157 | the hash of the ledger's first record |
| EventStore.InMemoryContractEventStore.GetEvents | store.ts:159-236 | the page of all matching events beyond the cursor, ordered by ledger and id; stale exactly when the cursor's event is gone |
| EventStore.PostgresContractEventStore.GetEvents | store.ts:370-464 | the same page from conditions, COUNT, ORDER BY and LIMIT/OFFSET |
| EventStore.SamePage | store.ts:159-464 | two stores with the same events give the same events, total, offset, cursor and stale outcome |
| CursorWalk.InsertKeepsAndAdds | store.ts:118-136 | stored records stay first and unchanged, every event is present afterwards, only new ids are added |
| CursorWalk.InsertIdempotent | src/indexer/store.ts:129-147 | inserting a batch again changes nothing and reports every event as a duplicate |
| CursorWalk.InsertAccounts | store.ts:118-136 | inserted and duplicate events together are the batch, each once |
| CursorWalk.NextPage | store.ts:201-235 | following the cursor into a grown store never goes stale, continues in order and skips nothing stored at the start |
| CursorWalk.WalkMissesNothing | src/indexer/store.ts:170-234 | with any inserts between pages, keys strictly increase, and a walk that ends has returned every matching event stored when it began |
| CursorWalk.QuietWalk | store.ts:159-236 | without inserts a walk ends after at most one page more than there are matches, with the whole listing |
| RateLimiter.YoungOfYoung | src/indexer/ingestion.ts:352-364 | pruning at one time loses nothing that counts later |
| RateLimiter.IngestRateLimiter.EnforceRateLimit | src/indexer/ingestion.ts:352-364 | admits if and only if fewer than 30 of the actor's admitted requests are under 60,000 ms old, as the full history says |
| RateLimiter.AdmitKeepsSpaced | src/indexer/ingestion.ts:352-364 | an admission keeps any 31 consecutive ones at least a window apart |
| RateLimiter.WindowBound | src/indexer/ingestion.ts:352-364 | more than 30 admissions always span a window |
| RateLimiter.ConcurrencyLimiter.Acquire | src/indexer/ingestion.ts:26-42 | grants a place if and only if one is free, else queues the caller last |
| RateLimiter.ConcurrencyLimiter.Release | src/indexer/ingestion.ts:43-47 | hands the place to the longest-waiting caller; nobody waits while a place is free |
| Ingestion.HandleLedger | src/indexer/ingestion.ts:380-392 | one turn of the reorg loop keeps what survives equal to everything below the lowest conflict handled |
| Ingestion.SurvivorsIgnoreOrder | src/indexer/ingestion.ts:378-392 | the surviving old records depend only on each ledger's first hash in the batch, not on its order |
| Ingestion.FirstHashesIgnoreOrder | src/indexer/ingestion.ts:381-381 | with one hash per ledger the first hashes are the same in every order |
| Ingestion.IngestKeepsOneHash | src/indexer/ingestion.ts:376-398 | a batch with one hash per ledger keeps one hash per stored ledger |
| Ingestion.EveryIngestRunHasOneHash | src/indexer/ingestion.ts:376-398 | over any series of ingests whose batches have one hash per ledger, no stored ledger ever has two |
| Ingestion.NewBatchKeepsOneHash | src/indexer/ingestion.ts:376-398 | for a batch of new ids that holds if and only if the batch has one hash per ledger |
| Ingestion.IndexerIngestionService.Ingest | src/indexer/ingestion.ts:370-455 | every refusal leaves the store untouched; otherwise exactly the old records below the lowest conflict survive, the new events are added, and the counters follow; a failed insert leaves the rollback in place |
| Ingestion.IndexerIngestionService.RollBackReorgs | src/indexer/ingestion.ts:378-392 | the loop over the ledgers leaves what survives and remembers the lowest fork |
| StrKey.DecodeStellarBase32 | src/config/stellarContracts.ts:35-54 | the unmasked wrapping accumulator yields the leading octets of the spelled bits, or fails on a foreign symbol |
| StrKey.OctetsValue | src/config/stellarContracts.ts:35-54 | those octets are the floor(5n/8) leading bytes of the big-endian number the n characters spell |
| StrKey.DecodeUndoesEncode | src/config/stellarContracts.ts:35-54 | decoding undoes base32 encoding |
| StrKey.EncodeUndoesDecode | src/config/stellarContracts.ts:35-54 | on whole groups encoding undoes decoding, so decoding is injective there |
| StrKey.Crc16XModem | src/config/stellarContracts.ts:56-68 | the 32-bit loop computes the 16-bit shift-register checksum |
| StrKey.CrcLinear | src/config/stellarContracts.ts:56-68 | the checksum is linear over exclusive or |
| StrKey.CrcShiftInjective | src/config/stellarContracts.ts:56-68 | the zero-byte step is injective |
| StrKey.CrcResidue | src/config/stellarContracts.ts:56-68 | data followed by its checksum leaves register zero |
| StrKey.BurstDetected | src/config/stellarContracts.ts:56-68 | sequences that differ within two adjacent bytes have different checksums |
| StrKey.StraddlingCharacter | src/config/stellarContracts.ts:70-91 | changing the character that spans payload and checksum breaks their agreement |
| StrKey.IsValidStellarContractAddress | src/config/stellarContracts.ts:70-91 | valid if and only if the trimmed text is the address of some 32-byte id |
| StrKey.StellarContractIdBytes | src/config/stellarContracts.ts:99-108 | returns exactly the id whose address the trimmed text is |
| StrKey.SingleSubstitution | src/config/stellarContracts.ts:70-91 | two valid addresses never differ in exactly one character |
| StrKey.SingleTypo | src/config/stellarContracts.ts:70-91 | two accepted strings that differ in at most one character hold the same address |
| StrKey.TypoIsAcceptedIff | src/config/stellarContracts.ts:70-91 | an accepted string with one character changed is still accepted if and only if white space was changed into white space |
| StrKey.PaddingIsNotChecked | src/config/stellarContracts.ts:70-91 | accepted strings that differ in one white-space character exist for every address |
| GraphQlScoring.WalkCovers | src/graphql/gateway.ts:154-183 | a traversal from any visited set meets its own selections and each newly visited fragment once, and follows every known spread |
| GraphQlScoring.WalkReaches | src/graphql/gateway.ts:154-183 | every fragment it newly visits is reached by a chain of spreads |
| GraphQlScoring.WalkOperation | src/graphql/gateway.ts:154-183 | from scratch it visits exactly the reachable fragments and meets the traversal-free total |
| GraphQlScoring.GetQueryFragments | src/graphql/gateway.ts:144-152 | the last definition of each fragment name |
| GraphQlScoring.ComplexityScorer.ChargeField | src/graphql/gateway.ts:252-264 | one per field, and the alias cost from the second aliased use of a name on |
| GraphQlScoring.ComplexityScorer.VisitSelectionSet | src/graphql/gateway.ts:154-183 | the recursive visit terminates on any fragment graph and charges what the traversal meets |
| GraphQlScoring.ComputeQueryComplexity | src/graphql/gateway.ts:247-275 | equals the traversal-free closed form over reachable fragments |
| GraphQlSurcharge.ComplexityIsCoded | src/graphql/gateway.ts:252-264 | the complexity is one per field met plus the surcharge for each aliased use after an aliased use, along the traversal |
| GraphQlSurcharge.CommentAgreesIff | src/graphql/gateway.ts:233-235 | along any traversal the comment's charge is at least the code's, and equal if and only if no name is first met plain and later aliased |
| GraphQlSurcharge.DocumentAgreesIff | src/graphql/gateway.ts:233-275 | the same for every document |
| GraphQlSurcharge.PlainUseIsFree | src/graphql/gateway.ts:247-275 | a document that scores 2 where the comment says 4 |
| GraphQlReordering.ComplexityIgnoresOrder | src/graphql/gateway.ts:247-275 | reordering selections at any nesting leaves the complexity unchanged |
| GraphQlReordering.SharedFragmentHidesDepth | src/graphql/gateway.ts:185-229 | one document in which the depth met falls short of the nesting depth and changes with the order of the selections |
| GraphQlReordering.ExpansionIgnoresOrder | src/graphql/gateway.ts:185-229 | reordering selections at any nesting, in operations and fragments, keeps the nesting depths of the expanded document |
| GraphQlReordering.DepthUnderReordering | src/graphql/gateway.ts:185-229 | when the depth of a document is exact, no reordering has a greater one, and those with an equal one are exactly those whose depth is exact |
| GraphQlReordering.UnsharedDepthIgnoresOrder | src/graphql/gateway.ts:185-229 | a document in which no operation spreads a fragment twice has the same depth in every order |
| GraphQlDepth.DepthIsReached | src/graphql/gateway.ts:196-222 | the depth met is the length of a nesting chain of the expanded operation, cyclic or not |
| GraphQlDepth.OperationDepth | src/graphql/gateway.ts:196-222 | when no known fragment is spread twice, no chain is longer |
| GraphQlSites.ExactIff | src/graphql/gateway.ts:196-222 | no chain of the expansion exceeds the bound if and only if no skipped spread hides one that does |
| GraphQlSites.EnteredDeepestIsExact | src/graphql/gateway.ts:205-215 | with shared fragments each entered at its deepest spread, the depth met is the depth of the expansion |
| GraphQlSites.DocumentExactIff | src/graphql/gateway.ts:185-229 | a document's result is exact if and only if no skipped spread of an operation hides a longer chain |
| GraphQlDepth.DepthProbe.Visit | src/graphql/gateway.ts:196-222 | the recursive visit terminates on any fragment graph and raises the maximum to the depth met |
| GraphQlDepth.ComputeQueryDepth | src/graphql/gateway.ts:185-229 | is the greatest depth the operations' traversals meet; never exceeds the expanded nesting depth, and equals it when no operation spreads a fragment twice |
| RetentionTable.RenderScheduleTable | scripts/check-retention-schedule.ts:531-549 | the loop renders the markers, the headings and one row per rule |
| RetentionTable.ParseDocumentTable | scripts/check-retention-schedule.ts:558-575 | the loop collects what the rows between the markers state |
| RetentionTable.ParseRow | scripts/check-retention-schedule.ts:563-572 | a rendered row gives back its rule's id, period and enforcement, unless the id is the word id |
| RetentionTable.ParseRendered | scripts/check-retention-schedule.ts:558-575 | parsing any document around a rendered table gives back exactly what the manifest publishes |
| RetentionTable.PublishedStates | scripts/check-retention-schedule.ts:531-556 | with unique ids, exactly the manifest's ids are published, each with its own period and enforcement |
| RetentionTable.SpliceKeepsOutside | scripts/check-retention-schedule.ts:709-721 | a write keeps all text outside the markers, and the markers stay findable |
| RetentionTable.SpliceTwice | scripts/check-retention-schedule.ts:709-721 | a second write alone decides the table, and writing the same table again changes nothing |
| RetentionTable.WrittenDocumentStatesManifest | scripts/check-retention-schedule.ts:709-721 | after a write the document states exactly the manifest |
| RetentionTable.CheckDocument | scripts/check-retention-schedule.ts:578-637 | reports a problem if and only if it is due: missing markers or rows, an unlisted, differing or unknown entry, a missing heading |
| RetentionTable.WrittenDocumentPasses | scripts/check-retention-schedule.ts:578-637 | a document just written from a non-empty manifest can only lack prose headings |

## Left out

- Express, gRPC, Redis and Postgres plumbing, metrics, logging and audit writes: only the effect of each command is modelled.
- Timers, back-off delays, deadlines as real time, and floating-point throughput and ETA figures.
- HMAC, hashing, API keys, write fences, mTLS and scope checks.
- Migrations, environment schema, configuration mapping, health, readiness and deprecation code.
- Column-level typing of rows; `ingestedAt` stamps; negative page limits, which the routes refuse.
- The SQL cursor of src/indexer/store.ts:379-382 compares the event id alone and is not equivalent; the model takes the one of store.ts.
- Concurrent ingests racing between the hash check and the insert, and reorg rollbacks during a replay.
- The set of rolled-back ledgers and the catch-up telemetry of src/indexer/ingestion.ts.
- Request validation at the start of `replayEvents` (service.ts:161-162), which throws before anything is touched.
- ReplayService.EachRowInOneBatch: does not cover a COMMIT that lands after its run has ended; ReplayBatches does.
- ReplayService.IndexerService.ProcessBatch: the forced-stop timer is a free choice of outcome, as its deadline plays no part.
- WaveScheduler.OrderedBackfillScheduler.Run: the batches of a wave run one after the other, since nothing the result shows depends on how they overlap.
- IntegrityCheck.CheckReplayIntegrity: the audit entry is not modelled; its failure is swallowed by the code.
- RetentionTable.ToLower: lower-cases ASCII letters only, which are all that a kebab-case id can hold.
- Liveness that depends on fair scheduling, such as a pause gate that is eventually polled.
