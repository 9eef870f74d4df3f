# Verified model of the commerce data platform's core protocols

This project models the parts of the platform whose correctness spans more than one function or one call,
and proves what each of them promises. `dafny verify dfyconfig.toml` checks everything.

What is modelled, in the platform's own terms:

- **Incremental transforms** (`IncrementalTransform.dfy`, `TransformJob.dfy`): jobs read a watermark window with
  a lookback and a forward-slice cap, deduplicate by primary key, MERGE, and advance the watermark. The fast
  form is compared with the plain latest-row-per-key fold. `ColumnSplit.dfy` is the column-block splitter used
  for additive schema evolution.
- **Analytics cache** (`CacheKeys.dfy`, `BigintCodec.dfy`, `AnalyticsCache.dfy`, `CacheAdapter.dfy`): keys, the
  bigint-safe JSON codec, and `getOrSet` as a state machine of many processes over one Redis, with in-process
  coalescing, the SET-NX lock, its two-command release, polling, faults, expiry and eviction.
- **Contract generator** (`JsonSchema.dfy`, `SchemaCompiler.dfy`, `SchemaPreservation.dfy`, `PropertyNames.dfy`):
  the Zod to JSON Schema compiler, the meaning of both languages, and the guard that keeps `brand_id` out of
  tool inputs.
- **Audit log** (`JsonText.dfy`, `CanonicalJson.dfy`, `StoredJson.dfy`, `AuditEntries.dfy`, `AuditLog.dfy`,
  `AuditCheckpoints.dfy`): canonical serialization, the payload column, the per-brand hash chain and the linked
  checkpoints.
- **Ad spend** (`BreakdownKey.dfy`, `SpendSeed.dfy`, `MinorUnits.dfy`): breakdown keys, event-id seeds and money
  conversion.
- **Tenant sessions** (`RlsSession.dfy`): every business query inside one row-level-security transaction.
- **Orchestration** (`LeaderLock.dfy`, `ResidentLoop.dfy`, `TierRun.dfy`): the leader lock of the resident
  workers, the loop itself, lanes and multi-pass convergence, and the shared connection's function registry.
- **Reads** (`RevenueIdentity.dfy`, `Resp.dfy`, `ExactRatio.dfy`, `CampaignRoas.dfy`): never-guess identity
  resolution, the RESP2 exchange of a feature-flag read, and campaign ROAS with its exact ratio.

`Texts.dfy`, `Segments.dfy` and `Decimals.dfy` hold what these share: UTF-16 texts and their order, sorting by
key, joined segments, decimal printing and reading.

A JavaScript string is a sequence of UTF-16 code units; JSON strings in the schema files are sequences of
Unicode characters, because JSON Schema counts characters where JavaScript's `length` counts code units. Digest
functions are arbitrary functions into 64 hex digits: no injectivity is assumed of them, the tamper-evidence
theorems ask instead that the texts actually hashed do not collide.

## Results that qualify what the code or its comments say

- A MERGE updates unconditionally, so a windowed run after a full scan can put an older row back
  (`IncrementalTransform.FullThenIncrementalRegresses`): it leaves the fold of the rows folded before and those it
  reads if and only if each key it reads has a row in the window that no folded row outside it outranks
  (`IncrementalTransform.WindowedRunExact`). Over purely incremental runs every run leaves the fold if and only if
  that holds, in every window, against the rows below it (`IncrementalTransform.IncrementalRunsExact`); and over any
  mix of runs that same condition decides whether every run leaves no target row older than one it saw below its
  upper edge (`IncrementalTransform.MixedRunsExact`). Jobs that
  order by the window column first, such as db/iceberg/duckdb/silver/silver_payment.py:116-117, always meet that
  condition (`IncrementalTransform.ClockFirstIsOrdered`, `IncrementalTransform.IncrementalRefinesFold`). A job that
  reads an arrival-time window directly, keeps one row of a re-emitted id and orders by event time, such as
  db/iceberg/duckdb/silver/silver_fulfillment.py:67-89, need not, and can regress whatever its lookback
  (`IncrementalTransform.RankOffClockRegresses`).
- A metric key built with metric `q` and version `lock` is the lock key of an ask; nothing else collides
  (`CacheKeys.ValueKeyIsLockKey`).
- The two-command lock release deletes another call's lock only if that lock replaced the caller's own between the
  check and the delete (`AnalyticsCache.LocksGoToOwners`); where the delete directly follows the check no successor
  is unlocked, however early locks expire (`AnalyticsCache.OnlyOwnersUnlock`).
- `invalidate` during a live flight lets a second leader start (`AnalyticsCache.EvictionAllowsTwoLeaders`); it
  keeps single flight exactly when it does not hit one (`AnalyticsCache.ForgetKeepsSingleFlight`).
- The comment on `canonicalize` says function members are omitted; the code prints them as null. NaN prints as
  null and a Date as `{}` (`CanonicalJson.LeavesThatCollide`).
- The audit log hashes `canonicalize(payload)` and stores `JSON.stringify(payload)`. A walk over the stored rows finds
  every chain valid if and only if no accepted payload holds a function member or a Date
  (`AuditLog.StoredChainsAreValid`, `StoredJson.StoredTextsDiffer`).
- Zod counts string length in UTF-16 code units, JSON Schema in characters: a minimum length above 1 rejects
  values that Zod accepts (`SchemaPreservation.LengthsMustBeShort`). A later `min` or `max` overwrites an earlier
  one, tighter or not (`SchemaPreservation.LaterBoundOverwrites`); nothing refused for its length gets in if and only
  if no bound is overwritten by a looser one or the emitted bounds exclude each other
  (`SchemaPreservation.BoundsExact`).
- The guard against `brand_id` passes if and only if the name is declared at most beneath a class the compiler has
  no branch for and is no property name inside a constant or default (`PropertyNames.BrandIdAbsent`). A refined
  object, an intersection or a discriminated union may therefore declare it unseen
  (`PropertyNames.RefinedObjectPasses`), and a default may be refused for it (`PropertyNames.NameInDefaultIsRefused`).
- A checkpoint anchors the chain of the brand that wrote the head row and no other brand's
  (`AuditCheckpoints.CheckpointAnchorsPrefix`, `AuditCheckpoints.OtherBrandsAreNotAnchored`), where the comment
  speaks of the whole chain.
- A level id that holds a colon shares its event id with a breakdown of a shorter level id
  (`SpendSeed.ColonInLevelIdCollides`).
- A ROLLBACK lost on a connection that lives on leaves `app.role` to the next caller
  (`RlsSession.LostRollbackLeaksEscape`).
- A lock acquisition whose answer is lost on a live session is never matched by a release
  (`LeaderLock.LostAnswerPinsLeadership`), and a release refused on a live session keeps the lock
  (`LeaderLock.RefusedReleasePinsLeadership`); without either the lock is always given back
  (`LeaderLock.LockIsGivenBack`).
- With no enabled brand the resolver still answers for a brand literally named `__no_brand__`
  (`RevenueIdentity.FailsClosed`, `RevenueIdentity.PlaceholderIsAnswered`).
- The rows are the outer join on campaign and currency if and only if no campaign id and no currency holds the
  separator U+241F (`CampaignRoas.ComputeCampaignRoas`, `CampaignRoas.SeparatedIdsMisjoin`). For any ids there is
  one row for each map key, and the totals of each currency are those of the amounts filed under it.

## Model

| member | source | states |
|---|---|---|
| `Lexicographic.BelowMeans` | db/iceberg/duckdb/_base.py:157-164 | rows are ranked, and keys sorted, like words in a dictionary: by the first difference, a prefix first |
| `IncrementalTransform.WindowMergeExact` | db/iceberg/duckdb/_base.py:131-182 | a windowed MERGE over a correct fold is the correct fold of both row sets if and only if no earlier row outranks the window's winner of its key |
| `IncrementalTransform.LatestIsUnique` | db/iceberg/duckdb/_base.py:157-164 | without rank ties the latest-row-per-key table is unique |
| `IncrementalTransform.WatermarkForward` | db/iceberg/duckdb/_base.py:247-319 | no event moves the watermark back or past the newest source row |
| `IncrementalTransform.FullScans` | db/iceberg/duckdb/_base.py:283-308 | a run reads everything if and only if its tier or refresh flag asks for it, it has neither watermark nor cap, or the source is empty; its edge is then the pinned newest row |
| `IncrementalTransform.FullScanExact` | db/iceberg/duckdb/_base.py:131-200 | whatever the target held, a full scan leaves the latest-per-key fold of all rows it saw if and only if it sheds over rows it found, or the target held no key that the source lacks |
| `IncrementalTransform.UnreadKeysKeep` | db/iceberg/duckdb/_base.py:131-200 | after a merged run a key that was read has a latest row of those read; a key that was not keeps its row, unless a full scan shed it |
| `IncrementalTransform.FailedRunKeeps` | db/iceberg/duckdb/_base.py:380-386 | a failed run leaves the watermark; before its MERGE it leaves the target, before its DELETE it sheds nothing |
| `IncrementalTransform.RetryAbsorbsFailure` | db/iceberg/duckdb/_base.py:136-139 | replay: after a failed run the next clean run of the same mode leaves exactly what it would have left had the failed one only seen its rows land |
| `IncrementalTransform.RunsKeepWatermark` | db/iceberg/duckdb/_base.py:333-392 | the watermark never goes back over any run of an append-only source, however rows are ranked and whatever lands when |
| `IncrementalTransform.MergeCovers` | db/iceberg/duckdb/_base.py:131-182 | after a merged run of any mode whose window holds its winners, every row seen below its upper edge is in the target or no later than the target row of its key |
| `IncrementalTransform.MergeCoversExactly` | db/iceberg/duckdb/_base.py:131-182 | a run of any mode covers every row it saw below its upper edge if and only if its window, if it reads one, holds its winners |
| `IncrementalTransform.CompletedRunCovers` | db/iceberg/duckdb/_base.py:369-392 | a completed run whose window holds its winners covers every row it saw below the new watermark |
| `IncrementalTransform.StepKeepsSafe` | db/iceberg/duckdb/_base.py:351-392 | arrivals, full and windowed runs, raising builds and failed watermark writes all keep, while windows hold their winners: rows the next window skips are covered |
| `IncrementalTransform.RunsKeepSafe` | db/iceberg/duckdb/_base.py:351-392 | the same over any run, with the watermark never going back |
| `IncrementalTransform.MixedRunsExact` | db/iceberg/duckdb/_base.py:247-392 | over any mix of full and windowed runs and faults, every run leaves no target row older than one it saw below its upper edge if and only if every window holds its winners |
| `IncrementalTransform.MixedRunSafety` | db/iceberg/duckdb/_base.py:247-392 | from a job's first run on, under any mix of runs and faults: watermark monotone, and, where the windows hold their winners, no target row older than a row seen below the watermark |
| `IncrementalTransform.ClockOrderedMixedRuns` | db/iceberg/duckdb/_base.py:247-392 | with ranks that follow the clock every mixed run covers what it saw |
| `IncrementalTransform.NothingSkipped` | db/iceberg/duckdb/_base.py:38-54 | the settled prefix and the half-open window together are exactly the rows below the upper edge |
| `IncrementalTransform.ClockFirstIsOrdered` | db/iceberg/duckdb/silver/silver_payment.py:116-117 | ranks that start with the window column follow the clock |
| `IncrementalTransform.WindowWinsItsKeys` | db/iceberg/duckdb/_base.py:314-319 | no folded row outranks the batch's row of its key if and only if the window holds its winners against them |
| `IncrementalTransform.WindowedRunExact` | db/iceberg/duckdb/_base.py:131-182 | a windowed run over any folded rows leaves the fold of them and the rows it reads if and only if each key it reads has a row in the window that no folded row outside outranks |
| `IncrementalTransform.IncrementalRunFolds` | db/iceberg/duckdb/_base.py:131-182 | one purely incremental run leaves the fold of all rows it saw below its edge if and only if its window holds its winners |
| `IncrementalTransform.IncrementalRunSettles` | db/iceberg/duckdb/_base.py:247-319 | such a run reads a window whose edge is the pinned one and leaves the agreeing state again |
| `IncrementalTransform.IncrementalRunsStaySettled` | db/iceberg/duckdb/_base.py:351-392 | agreement survives any purely incremental trace with arrivals and faults whose windows hold their winners |
| `IncrementalTransform.IncrementalRunsExact` | db/iceberg/duckdb/_base.py:247-392 | over any purely incremental trace every run leaves the fold of the rows it saw if and only if every window holds its winners |
| `IncrementalTransform.IncrementalRefinesFold` | db/iceberg/duckdb/_base.py:247-392 | with ranks that follow the clock, after any purely incremental runs the target equals the latest-per-key fold of all rows the run saw below its upper edge |
| `IncrementalTransform.FirstRunIsSettled` | db/iceberg/duckdb/_base.py:296-309 | a never-run job with an empty target is an agreeing state |
| `IncrementalTransform.AdvanceInSteps` | db/iceberg/duckdb/_base.py:307-318 | k capped steps reach min(newest, start + k * cap), and newest exactly when k * cap spans the distance |
| `IncrementalTransform.CatchUp` | db/iceberg/duckdb/_base.py:296-319 | over a fixed source the watermark after k runs is min(newest, oldest + k * cap), across any gap |
| `IncrementalTransform.CaughtUpIsFixpoint` | db/iceberg/duckdb/_base.py:369-386 | once caught up a further run changes nothing, and the target is the fold strictly below the newest timestamp |
| `IncrementalTransform.FullThenIncrementalRegresses` | db/iceberg/duckdb/_base.py:173-182 | for any two rows of a key within the lookback, a full scan followed by a windowed run restores the older one |
| `IncrementalTransform.RankOffClockRegresses` | db/iceberg/duckdb/silver/silver_fulfillment.py:67-89 | for any two rows of a re-emitted id whose event order is against their arrival order, and any lookback, purely incremental runs from the first run on replace the later state by the earlier one |
| `IncrementalTransform.LateRowIsSkipped` | db/iceberg/duckdb/_base.py:214-218 | a row landing below the lookback margin stays out of the target |
| `TransformJob.Job.Dedup` | db/iceberg/duckdb/_base.py:157-164 | the row_number dedup yields the latest-per-key table of the staged rows |
| `TransformJob.Job.MergeOnPk` | db/iceberg/duckdb/_base.py:131-200 | insert into an empty target or MERGE, then shed: over a non-empty batch shedding leaves the fold of the staged rows whatever the target held, otherwise every key outside the batch keeps its row |
| `TransformJob.Job.IncrementalWindow` | db/iceberg/duckdb/_base.py:283-319 | the window and the overwritten pinned edge, branch by branch |
| `TransformJob.Job.RunJob` | db/iceberg/duckdb/_base.py:369-392 | one run is one protocol step, the pinned edge is cleared on every path |
| `ColumnSplit.SplitTopLevelCommas` | db/iceberg/duckdb/_base.py:57-77 | the character loop cuts exactly at the commas of depth zero |
| `ColumnSplit.PartsJoinBack` | db/iceberg/duckdb/_base.py:57-77 | the parts joined by commas are the input |
| `ColumnSplit.SplitIsUnique` | db/iceberg/duckdb/_base.py:57-77 | there is one such cutting |
| `ColumnSplit.ColumnsReadBack` | db/iceberg/duckdb/_base.py:57-62 | well-formed column definitions, composite types included, come back as written |
| `ColumnSplit.TypesStayWhole` | db/iceberg/duckdb/_base.py:57-77 | for definitions written with parenthesized groups, commas inside them included, the only splitting of their joined text is the list of their texts |
| `CacheKeys.KeysAreInjective` | packages/metric-engine/src/analytics-cache.ts:71-112 | metric and query keys of colon-free segments are equal only for equal names |
| `CacheKeys.KeysAreSpelled` | packages/metric-engine/src/analytics-cache.ts:71-112 | the brand leads every key, an ask has the segment q, a lock the suffix :lock |
| `CacheKeys.ValueKeyIsLockKey` | packages/metric-engine/src/analytics-cache.ts:169-170 | a value key equals a lock key in exactly one case: metric q, version lock |
| `CacheKeys.KeysAreSeparate` | packages/metric-engine/src/analytics-cache.ts:71-112 | with that case excluded no value key is a lock key |
| `CacheKeys.BrandScan` | packages/metric-engine/src/analytics-cache.ts:4-10 | the prefix scan of a brand finds exactly its value and lock keys |
| `BigintCodec.RevivedReplaced` | packages/metric-engine/src/analytics-cache.ts:44-58 | reviving the replaced tree gives it back if and only if no object has a string under the reserved key |
| `BigintCodec.CodecRoundTrip` | packages/metric-engine/src/analytics-cache.ts:205-222 | decoding the stored text gives the tree back exactly for tag-free trees |
| `BigintCodec.TagIsSpelled` | packages/metric-engine/src/analytics-cache.ts:42 | the tag of an encoded bigint |
| `BigintCodec.TagTextMeans` | packages/metric-engine/src/analytics-cache.ts:48-58 | the tagged text of an object is the string under the reserved key and under no other |
| `BigintCodec.StoredValueIsAHit` | packages/metric-engine/src/analytics-cache.ts:205-214 | a stored value is served as itself exactly when tag-free and not null |
| `BigintCodec.DecimalReadingIsEnough` | packages/metric-engine/src/analytics-cache.ts:55 | plain decimal reading meets what is assumed of BigInt(text) |
| `AnalyticsCache.Attempts` | packages/metric-engine/src/analytics-cache.ts:335-336 | a lock loser polls once, or as often as whole poll intervals fit into the time it may poll |
| `AnalyticsCache.StepKeepsProvenance` | packages/metric-engine/src/analytics-cache.ts:230-331 | every step keeps: what reads as a value under a value key, and every outcome, comes from a compute of the same key |
| `AnalyticsCache.RunsKeepProvenance` | packages/metric-engine/src/analytics-cache.ts:230-348 | the same over any interleaving, faults, expiries and evictions included |
| `AnalyticsCache.ServedValuesWereComputed` | packages/metric-engine/src/analytics-cache.ts:230-348 | every value getOrSet returns was produced by some compute for that key, possibly passed through the codec |
| `AnalyticsCache.StepKeepsSingleFlight` | packages/metric-engine/src/analytics-cache.ts:240-257 | every step without an eviction of a live flight keeps: the in-flight map holds exactly the live leaders |
| `AnalyticsCache.RunsKeepSingleFlight` | packages/metric-engine/src/analytics-cache.ts:230-257 | the same over any such run |
| `AnalyticsCache.OneLeaderAndItsFollowers` | packages/metric-engine/src/analytics-cache.ts:240-257 | at most one live leader per process and key, and a joiner ends with its leader's outcome |
| `AnalyticsCache.ForgetKeepsSingleFlight` | packages/metric-engine/src/analytics-cache.ts:224-228 | an eviction keeps single flight if and only if it hits no live flight |
| `AnalyticsCache.EvictionAllowsTwoLeaders` | packages/metric-engine/src/analytics-cache.ts:224-228 | the run in which it does not |
| `AnalyticsCache.StepKeepsLock` | packages/metric-engine/src/analytics-cache.ts:268-331 | every step keeps the holder's token under the lock key, while locks outlive their holders |
| `AnalyticsCache.LockIsExclusive` | packages/metric-engine/src/analytics-cache.ts:318-331 | across processes at most one call computes a key under the lock, despite the two-command release |
| `AnalyticsCache.ReleaseComparesTokens` | packages/metric-engine/src/analytics-cache.ts:323-331 | a release deletes the lock if and only if the check was answered and found its own token, and the delete arrives; otherwise the store is unchanged |
| `AnalyticsCache.HoldingIsBracketed` | packages/metric-engine/src/analytics-cache.ts:275-300 | a call holds the lock only from an answered SET-NX on the free lock, and until its release or a check that fails or finds another token |
| `AnalyticsCache.LocksGoToOwners` | packages/metric-engine/src/analytics-cache.ts:318-331 | over any run, locks expiring under their holders included: a lock goes by an expiry or by the delete of a call whose check found its own token, and a deleted lock of another call replaced that token between check and delete |
| `AnalyticsCache.OnlyOwnersUnlock` | packages/metric-engine/src/analytics-cache.ts:318-331 | where each delete directly follows its check, a lock is removed only by an expiry or by the call whose token it holds |
| `AnalyticsCache.ExpiredLockIsTakenAndKept` | packages/metric-engine/src/analytics-cache.ts:318-331 | the run that the token check is for: a lock that expires under its holder is taken by a second process, and the release of the first leaves it alone |
| `AnalyticsCache.ComputedIsReturned` | packages/metric-engine/src/analytics-cache.ts:302-316 | what compute returned or threw is what the call ends with, whatever becomes of the store, the check and the delete |
| `AnalyticsCache.OutageComputes` | packages/metric-engine/src/analytics-cache.ts:230-316 | with Redis out of reach a call computes at once, returns that value and leaves the store alone, locks enabled or not |
| `AnalyticsCache.ComputeUnlocked` | packages/metric-engine/src/analytics-cache.ts:273-316 | a call that computes without the lock stores its value all the same |
| `AnalyticsCache.LoserWaits` | packages/metric-engine/src/analytics-cache.ts:294-300 | a lock loser polls Attempts times while the value is missing, and only then computes |
| `AnalyticsCache.OwnStepLowersRank` | packages/metric-engine/src/analytics-cache.ts:230-348 | each own step of a call brings it closer to its end |
| `AnalyticsCache.OwnStepsBounded` | packages/metric-engine/src/analytics-cache.ts:334-348 | a call takes at most Attempts + 9 steps in any run |
| `AnalyticsCache.NeverStuck` | packages/metric-engine/src/analytics-cache.ts:230-348 | an unfinished call or its leader can always step, even if every Redis command fails |
| `AnalyticsCache.UndisturbedMiss` | packages/metric-engine/src/analytics-cache.ts:268-331 | an undisturbed miss computes once, stores the value and leaves no lock and no in-flight entry |
| `AnalyticsCache.StoredValueIsServed` | packages/metric-engine/src/analytics-cache.ts:230-238 | the next read of that key is a hit and changes nothing else |
| `AnalyticsCache.LoserServesWinner` | packages/metric-engine/src/analytics-cache.ts:296-299 | a lock loser serves the winner's write |
| `CacheAdapter.PollForValue` | packages/metric-engine/src/analytics-cache.ts:334-348 | the polling loop returns the first hit after misses, gives up on a fault or after the last attempt, and agrees with the state machine |
| `CacheAdapter.Process.JoinOrRegister` | packages/metric-engine/src/analytics-cache.ts:240-257 | the in-flight map of one process follows the state machine when a call joins or leads |
| `CacheAdapter.Process.Clear` | packages/metric-engine/src/analytics-cache.ts:244-254 | and when a promise settles |
| `CacheAdapter.Process.Invalidate` | packages/metric-engine/src/analytics-cache.ts:224-228 | and when a key is evicted |
| `CacheAdapter.TokenIsAMiss` | packages/metric-engine/src/analytics-cache.ts:276-277 | a lock token that stands under a value key is no JSON and reads as a miss |
| `CacheAdapter.ServedTreesWereComputed` | packages/metric-engine/src/analytics-cache.ts:205-348 | with the real keys, tokens and codec and tag-free values, a returned value is exactly one that compute returned for that key, the colliding name included |
| `SchemaCompiler.ZodToJsonSchema` | packages/contracts/scripts/codegen.ts:55-130 | the recursive compiler with its loops computes the emitted schema |
| `SchemaCompiler.RenderedMeans` | packages/contracts/scripts/codegen.ts:55-130 | the written JSON is valid for exactly the values its shape admits, under JSON Schema 2020-12 |
| `SchemaPreservation.Forward` | packages/contracts/scripts/codegen.ts:55-130 | nothing Zod accepts is lost on the handled fragment |
| `SchemaPreservation.Backward` | packages/contracts/scripts/codegen.ts:55-130 | nothing is gained on the fragment without ignored checks |
| `SchemaPreservation.AcceptedValuesAreValid` | packages/contracts/scripts/codegen.ts:55-130 | every JSON value a handled Zod schema accepts is valid against the written JSON Schema |
| `SchemaPreservation.CompiledMeansTheSame` | packages/contracts/scripts/codegen.ts:55-130 | on the exact fragment, uuid and date-time checks included, the two accept the same values |
| `SchemaPreservation.UnionNeedsDisjointness` | packages/contracts/scripts/codegen.ts:125-127 | oneOf keeps what some option admits if and only if the emitted options are disjoint |
| `SchemaPreservation.NullableNeedsRejection` | packages/contracts/scripts/codegen.ts:103-106 | a nullable admits null if and only if the wrapped emission rejects it, and every other value as the wrapped one does |
| `SchemaPreservation.FieldsAreRequired` | packages/contracts/scripts/codegen.ts:60-65 | a field not optional and without default must be present |
| `SchemaPreservation.RequiredIsListed` | packages/contracts/scripts/codegen.ts:60-68 | the written list of required members is there if and only if there are any, and lists exactly the fields neither optional nor defaulted |
| `SchemaPreservation.TextKeywords` | packages/contracts/scripts/codegen.ts:72-81 | the written format, minLength and maxLength are there if and only if a check asks for them, and carry the last such check: uuid, date-time, its bound |
| `SchemaPreservation.DefaultIsWritten` | packages/contracts/scripts/codegen.ts:108-111 | the written default is the value Zod puts in for a missing member |
| `SchemaPreservation.LengthsMustBeShort` | packages/contracts/scripts/codegen.ts:78-79 | minimum lengths agree exactly up to 1, maximum lengths only for 0 |
| `SchemaPreservation.BoundsExact` | packages/contracts/scripts/codegen.ts:72-81 | the emitted bounds let in nothing that a bound refuses if and only if no bound is overwritten by a looser one, or they exclude each other |
| `SchemaPreservation.LaterBoundOverwrites` | packages/contracts/scripts/codegen.ts:72-81 | a later looser bound lets in a text that Zod refuses |
| `PropertyNames.NameCollector.Collect` | packages/contracts/scripts/codegen.ts:312-322 | the walk adds exactly the collected names to its accumulator |
| `PropertyNames.EmitDeclares` | packages/contracts/scripts/codegen.ts:55-130 | compiling keeps exactly the property names declared where the compiler has a branch |
| `PropertyNames.WalkMissesNothing` | packages/contracts/scripts/codegen.ts:312-322 | every name declared at any depth is collected, unless it stands beneath a class the compiler has no branch for |
| `PropertyNames.WalkIsExact` | packages/contracts/scripts/codegen.ts:312-322 | a name that is no schema keyword is collected if and only if it is declared where the compiler has a branch, or is a property name inside a constant or default |
| `PropertyNames.ArrayKeys` | packages/contracts/scripts/codegen.ts:312-322 | the own keys of an array are the decimal texts of its indices |
| `PropertyNames.BrandIdAbsent` | packages/contracts/scripts/codegen.ts:338-346 | the guard passes if and only if brand_id is declared at most beneath a class without a branch and is no property name inside a constant or default |
| `PropertyNames.DeclaredIsVisibleOrHidden` | packages/contracts/scripts/codegen.ts:55-130 | a declared name is one the compiler looks at or one beneath a class without a branch |
| `PropertyNames.RefinedObjectPasses` | packages/contracts/scripts/codegen.ts:129 | a refined object with a field brand_id declares it and passes the guard |
| `PropertyNames.NameInDefaultIsRefused` | packages/contracts/scripts/codegen.ts:109-112 | a default that holds brand_id under properties is refused although nothing declares it |
| `JsonText.ReadBack` | packages/audit/src/index.ts:71-88 | a parser undoes the compact JSON printer on every printable tree |
| `JsonText.PrintInjective` | packages/audit/src/index.ts:71-88 | equal JSON text means equal tree |
| `JsonText.PrintIsWellFormed` | packages/audit/src/index.ts:108 | the text has no lone surrogate, so UTF-8 encoding before hashing loses nothing |
| `JsonText.EscapeIsShortest` | packages/audit/src/index.ts:73 | a code unit is escaped if and only if it is a quote, a backslash, a control or a surrogate on its own, in the short form where there is one |
| `JsonText.PlainTextIsCopied` | packages/audit/src/index.ts:73 | a string is printed as it is if and only if nothing in it needs an escape |
| `JsonText.PrintIsSpelled` | packages/audit/src/index.ts:71-88 | the tokens as they are spelled, without a space between them |
| `JsonText.NumberIsForm` | packages/audit/src/index.ts:75 | the texts that count as numbers are exactly those of the grammar of RFC 8259, section 6 |
| `CanonicalJson.Canonicalize` | packages/audit/src/index.ts:71-88 | the recursive serializer with its parts loops prints the sorted tree |
| `CanonicalJson.SortCommutes` | packages/audit/src/index.ts:82-84 | sorting keys and dropping undefined members commute |
| `CanonicalJson.CanonicalParses` | packages/audit/src/index.ts:71-88 | the parser recovers the kept tree from the output |
| `CanonicalJson.CanonicalFaithful` | packages/audit/src/index.ts:71-88 | equal output if and only if equal kept tree, on every input |
| `CanonicalJson.CanonicalExact` | packages/audit/src/index.ts:55-57 | two finite JSON trees print alike if and only if they are the same up to member order at every depth |
| `CanonicalJson.LeavesThatCollide` | packages/audit/src/index.ts:66-76 | functions and NaN print as null, dates as empty objects, undefined members vanish |
| `StoredJson.StoredTextReadsBack` | packages/audit/src/index.ts:271 | parsing the stored text gives the restored payload |
| `StoredJson.RestoredExact` | packages/audit/src/index.ts:71-88 | a payload reads back with the same canonical tree if and only if it holds no function member and no Date |
| `StoredJson.StoredTextsDiffer` | packages/audit/src/index.ts:66-88 | a function member and a Date are stored and hashed as different texts |
| `AuditEntries.EntryTextDeterminesContent` | packages/audit/src/index.ts:246-255 | the canonical text of an entry determines every hashed field |
| `AuditEntries.HashedTextNamesFields` | packages/audit/src/index.ts:246-255 | the hashed text is a JSON object that holds every field of the entry under its own name |
| `AuditEntries.HashInputIsSpelled` | packages/audit/src/index.ts:107 | the previous hash or genesis, two bars, the canonical entry |
| `AuditEntries.HashInputInjective` | packages/audit/src/index.ts:103-109 | the hashed text determines the previous hash and the entry |
| `AuditEntries.ComputeEntryHash` | packages/audit/src/index.ts:103-109 | computes the digest of that text |
| `AuditLog.AppendKeepsChains` | packages/audit/src/index.ts:231-283 | an append keeps every brand's rows a valid chain |
| `AuditLog.RunKeepsChains` | packages/audit/src/index.ts:231-283 | so does any interleaving of brands, and the table only grows |
| `AuditLog.LogContents` | packages/audit/src/index.ts:258-263 | the table holds exactly the entries whose idempotency key was new, in order |
| `AuditLog.IdsNumberAttempts` | packages/audit/src/index.ts:257-284 | the id of a row is the number of the attempt that wrote it: a conflicting insert uses one up |
| `AuditLog.NewestHasGreatestId` | packages/audit/src/index.ts:234-243 | the previous hash is read from the row of the brand with the greatest id, whatever the order of the table |
| `AuditLog.SameHeadSameRows` | packages/audit/src/index.ts:231-283 | chains that end in the same hash agree row by row when equal hashes pin rows |
| `AuditLog.SameHeadSameChain` | packages/audit/src/index.ts:97-109 | two valid chains with the same head are the same entries in order, short of a collision of hashed texts |
| `AuditLog.DbAuditWriter.Append` | packages/audit/src/index.ts:231-283 | one append: the new row continues its brand's chain and keeps the stringified payload, a conflict changes no row and returns id 0 |
| `AuditLog.StoredRowRehashes` | packages/audit/src/index.ts:246-275 | a row read back hashes the same text if and only if its payload holds no function member and no Date |
| `AuditLog.StoredChainsAreValid` | packages/audit/src/index.ts:231-283 | after any appends every brand's chain is valid as read back if and only if no accepted payload holds a function member or a Date, short of a collision |
| `AuditCheckpoints.SealTextInjective` | packages/audit/src/index.ts:155-162 | the sealed text determines every field |
| `AuditCheckpoints.SealTextNamesFields` | packages/audit/src/index.ts:155-162 | the sealed text is a JSON object that holds every sealed field under its own name |
| `AuditCheckpoints.BuildExtendsLinks` | packages/audit/src/index.ts:150-164 | building on the last seal extends a linked, verifying list |
| `AuditCheckpoints.SameSealSameCheckpoints` | packages/audit/src/index.ts:150-177 | two linked, verifying lists with the same last seal are equal |
| `AuditCheckpoints.ChangedCheckpointFailsCheck` | packages/audit/src/index.ts:170-177 | a changed field fails the offline check |
| `AuditCheckpoints.CheckpointAnchorsPrefix` | packages/audit/src/index.ts:113-121 | a later valid log that still holds the anchored hash holds exactly the anchored rows of that brand up to it |
| `AuditCheckpoints.DisagreementIsTampering` | packages/audit/src/index.ts:113-121 | a table that disagrees with a checkpoint at its row count is the result of no sequence of appends |
| `AuditCheckpoints.OtherBrandsAreNotAnchored` | packages/audit/src/index.ts:113-121 | two valid logs with the same head row differ in the rows of another brand |
| `BreakdownKey.ThreePassesAreOne` | packages/ad-spend-mapper/src/index.ts:63-65 | the three replacements are one escaping pass |
| `BreakdownKey.CanonicalBreakdownKey` | packages/ad-spend-mapper/src/index.ts:72-82 | the loop over sorted names prints the key |
| `BreakdownKey.KeyReadBack` | packages/ad-spend-mapper/src/index.ts:72-82 | a parser recovers the pairs from a key |
| `BreakdownKey.KeyIsExact` | packages/ad-spend-mapper/src/index.ts:72-82 | equal keys if and only if the non-empty dimensions agree |
| `BreakdownKey.EmptyKey` | packages/ad-spend-mapper/src/index.ts:57 | the key is empty if and only if no dimension is present |
| `BreakdownKey.KeyTellsDimensions` | packages/ad-spend-mapper/src/index.ts:72-82 | read back, the key lists in the order of the names exactly the dimensions whose value is neither null nor empty |
| `BreakdownKey.PlainPairs` | packages/ad-spend-mapper/src/index.ts:640-641 | pairs without delimiters read a=x|b=y, as documented |
| `BreakdownKey.DelimitersAreEscaped` | packages/ad-spend-mapper/src/index.ts:63-65 | each delimiter gets a backslash in front |
| `SpendSeed.SeedsAgree` | packages/ad-spend-mapper/src/index.ts:606-619 | two seeds are equal if and only if the first four segments agree and level id and breakdown read the same together |
| `SpendSeed.SeedIsSpelled` | packages/ad-spend-mapper/src/index.ts:616-618 | five segments, the breakdown if there is one, the discriminator spend.live.v1 |
| `SpendSeed.SeedIsInjective` | packages/ad-spend-mapper/src/index.ts:606-619 | with colon-free segments the seed determines the grain and the breakdown |
| `SpendSeed.ColonInLevelIdCollides` | packages/ad-spend-mapper/src/index.ts:606-619 | a colon in the level id collides with a breakdown |
| `SpendSeed.RowSeedsAreExact` | packages/ad-spend-mapper/src/index.ts:606-619 | rows share a seed if and only if grain and non-empty dimensions agree |
| `MinorUnits.MajorIsTruncated` | packages/ad-spend-mapper/src/index.ts:679-694 | a decimal is accepted if and only if well formed, and becomes its whole number of hundredths, cut off |
| `MinorUnits.DecimalForm` | packages/ad-spend-mapper/src/index.ts:683 | the accepted texts are digits, or digits, a point and digits |
| `MinorUnits.MicrosAreTruncated` | packages/ad-spend-mapper/src/index.ts:655-665 | micros are accepted if and only if digits, and become their whole number of minor units |
| `MinorUnits.AbsentIsZero` | packages/ad-spend-mapper/src/index.ts:655-683 | an absent amount is zero, and so is an empty one in major units |
| `MinorUnits.MinorTextsAreCanonical` | packages/ad-spend-mapper/src/index.ts:655-694 | equal amounts are equal texts, whichever of the two parsers read them |
| `RlsSession.GucValueIsPlain` | packages/db/src/index.ts:197-201 | an interpolated id holds only hex digits and dashes |
| `RlsSession.UuidForm` | packages/db/src/index.ts:119-124 | an id is a uuid if and only if it is hex groups of 8, 4, 4, 4 and 12 digits with dashes between them |
| `RlsSession.AbortedRunsNothing` | packages/db/src/index.ts:320-332 | in an aborted transaction nothing runs and nothing is set until COMMIT or ROLLBACK ends it |
| `RlsSession.IdleKeepsNothing` | packages/db/src/index.ts:130-141 | outside a transaction a SET LOCAL leaves nothing behind |
| `RlsSession.OwnIdsOrNil` | packages/db/src/index.ts:175-201 | the settings are the caller's own ids, nil for each missing one; a malformed value throws |
| `RlsSession.Client.ExecuteInRlsTxn` | packages/db/src/index.ts:309-333 | set-up, query and COMMIT in turn, ROLLBACK on any failure; nothing is sent for a malformed context |
| `RlsSession.Client.BeginRlsTxn` | packages/db/src/index.ts:298-307 | one round trip with the same set-up; nothing is sent for a malformed context |
| `RlsSession.TransactionIsIsolated` | packages/db/src/index.ts:298-333 | whatever runs of a transaction's statements runs in order under exactly its own settings; the session is clean afterwards if and only if no needed ROLLBACK is lost on a live connection |
| `RlsSession.DeliveredQuerySucceeds` | packages/db/src/index.ts:320-325 | without faults the statement runs once and the session is unchanged |
| `RlsSession.CheckoutClearsIds` | packages/db/src/index.ts:402-408 | a checkout clears the three ids and nothing else: it makes an idle connection clean if and only if nothing but ids was left on it |
| `RlsSession.RunsAreIsolated` | packages/db/src/index.ts:402-421 | over any sequence of checkouts, transactions and faults the log is made of each call's own first statements, in turn and in order, each under its own context; nothing is left behind |
| `RlsSession.LostRollbackLeaksEscape` | packages/db/src/index.ts:325-332 | a lost ROLLBACK on a live connection leaks the escape past a checkout |
| `LeaderLock.StepKeepsLeaders` | db/iceberg/duckdb/run_all.py:603-624 | every event keeps: a ticking replica's own session holds the lock, while sessions outlive ticks |
| `LeaderLock.AtMostOneLeader` | db/iceberg/duckdb/run_all.py:838-881 | over any run at most one replica is inside a tick, and a live replica has attempted one release per tick left |
| `LeaderLock.StopDoesNotInterrupt` | db/iceberg/duckdb/run_all.py:812-814 | over any run a tick goes on until it ends or the process crashes, and a replica asked to stop begins no further tick |
| `LeaderLock.UndisturbedRound` | db/iceberg/duckdb/run_all.py:844-872 | an undisturbed round holds the lock during the tick and frees it afterwards |
| `LeaderLock.NotLeaderSkips` | db/iceberg/duckdb/run_all.py:864-865 | while the lock is held by no session of its own a round passes without a tick |
| `LeaderLock.LeaderShutsOthersOut` | db/iceberg/duckdb/run_all.py:838-865 | after any run, while a leader ticks another replica's round passes without a tick and leaves the leader and its lock alone |
| `LeaderLock.DeadSessionAllowsTwo` | db/iceberg/duckdb/run_all.py:567-577 | a session dying mid-tick lets a second replica lead beside it |
| `LeaderLock.ReleaseFrees` | db/iceberg/duckdb/run_all.py:616-624 | a delivered release frees the lock if and only if the session had taken it once |
| `LeaderLock.LostAnswerPinsLeadership` | db/iceberg/duckdb/run_all.py:609-614 | an acquisition whose answer is lost on a live session keeps the lock past later releases |
| `LeaderLock.RefusedReleasePinsLeadership` | db/iceberg/duckdb/run_all.py:616-624 | so does a release refused on a live session |
| `LeaderLock.LockIsGivenBack` | db/iceberg/duckdb/run_all.py:603-624 | over any run whose acquisitions are answered and whose releases on live sessions arrive, the lock is held once and only while its replica ticks or releases, and is free for any other round |
| `LeaderLock.LeavingFreesTheLock` | db/iceberg/duckdb/run_all.py:625-636 | a replica that crashes, or wakes to a stop request, leaves, and its session and its lock with it; no other lock is touched |
| `LeaderLock.DeadSessionHoldsNothing` | db/iceberg/duckdb/run_all.py:567-577 | a session that dies loses its lock, and nothing else changes |
| `ResidentLoop.RunResident` | db/iceberg/duckdb/run_all.py:806-883 | the loop performs exactly the rounds up to the first stop request, counts finished ticks, and shuts down |
| `ResidentLoop.RunBody` | db/iceberg/duckdb/run_all.py:840-872 | one attempt, tick and release |
| `ResidentLoop.SleepRemainder` | db/iceberg/duckdb/run_all.py:873-881 | the sliced sleep, which looks at the stop flag before each slice |
| `ResidentLoop.EveryTickIsReleased` | db/iceberg/duckdb/run_all.py:869-872 | every leader tick is followed by a release attempt on every path |
| `ResidentLoop.TicksAreLeaders` | db/iceberg/duckdb/run_all.py:842-872 | of the rounds that begin each tries the lock once; exactly those that lead tick, end and release once, and exactly the finished ticks are noted |
| `ResidentLoop.TicksFollowTries` | db/iceberg/duckdb/run_all.py:843-850 | a tick directly follows the attempt that won the lock |
| `ResidentLoop.StopDrains` | db/iceberg/duckdb/run_all.py:873-874 | a stop request lets the running round finish and no further one start |
| `ResidentLoop.SleepOnlySleeps` | db/iceberg/duckdb/run_all.py:877-881 | slices last at most a second, and none starts after a stop request |
| `ResidentLoop.SleepIsTheRemainder` | db/iceberg/duckdb/run_all.py:875-881 | an undisturbed sleep lasts the rest of the interval |
| `ResidentLoop.StopCutsSleep` | db/iceberg/duckdb/run_all.py:877-881 | a stop request ends the sleep after the slice then running and changes nothing before |
| `ResidentLoop.SharedConnection.CreateFunction` | db/iceberg/duckdb/run_all.py:357-375 | registration is idempotent, the first body stays, and a skipped name always exists |
| `ResidentLoop.SharedConnection.Refresh` | db/iceberg/duckdb/run_all.py:402-419 | a refresh forgets exactly what the fresh connection lacks; a failed attach changes nothing |
| `TierRun.LaneParts` | db/iceberg/duckdb/run_all.py:433-438 | each list of a lane is lane all's list filtered, although the skip set comes from filtered lists |
| `TierRun.LanesPartition` | db/iceberg/duckdb/run_all.py:433-485 | fast and heavy lanes together run every job of lane all, as often and in the same role |
| `TierRun.LanesAreDisjoint` | db/iceberg/duckdb/run_all.py:433-485 | the fast lane runs no heavy job and the heavy lane nothing else |
| `TierRun.RestIsExact` | db/iceberg/duckdb/run_all.py:470-479 | the soft jobs are exactly the listed ones that nothing excludes, jobs owned by the identity lane included in the exclusion |
| `TierRun.WholePlan` | db/iceberg/duckdb/run_all.py:427-479 | lane all runs the required and the ordered list as given, and an unexcluded listing in its own order |
| `TierRun.FailuresAreCounted` | db/iceberg/duckdb/run_all.py:463-493 | each failing job counts once |
| `TierRun.RunTier` | db/iceberg/duckdb/run_all.py:440-494 | the nested pass loops: abort on a required failure, count ordered failures and the last pass's failures |
| `TierRun.CleanTier` | db/iceberg/duckdb/run_all.py:463-494 | the count is zero if and only if every ordered job and, in the final pass, every soft job succeeded |
| `TierRun.FailuresShrink` | db/iceberg/duckdb/run_all.py:486-493 | a job that succeeds in a pass succeeds in the next |
| `TierRun.ReadyIsSuccess` | db/iceberg/duckdb/run_all.py:463-493 | a job succeeds in pass k + 1 if and only if it is ready with k waits |
| `TierRun.ShortPathsConverge` | db/iceberg/duckdb/run_all.py:463-493 | if no dependency path has more than k readers sorted before their producer, the job succeeds in pass k + 1 |
| `TierRun.ConvergedPathsAreShort` | db/iceberg/duckdb/run_all.py:463-493 | with one writer per table that bound is also necessary |
| `RevenueIdentity.EnabledBrands` | db/iceberg/duckdb/_revenue_identity.py:70-86 | exactly the non-empty brands forced on or flagged on |
| `RevenueIdentity.KeysAreHashes` | db/iceberg/duckdb/_revenue_identity.py:141-155 | the unpivoted keys are exactly the present hashes of the enabled orders |
| `RevenueIdentity.CandidatesAreReached` | db/iceberg/duckdb/_revenue_identity.py:160-169 | the candidate groups are exactly the brains reached, survivors of merges included, as read off the columns |
| `RevenueIdentity.ResolvesOnlyCertainty` | db/iceberg/duckdb/_revenue_identity.py:160-188 | an order gets a brain if and only if it has an id, its brand is listed, and current rows map its present hashes to that brain, or to brains merged into it, and to no other |
| `RevenueIdentity.ResolvedMeans` | db/iceberg/duckdb/_revenue_identity.py:170-188 | the joined common table expressions answer with a candidate that has an id and is row one of a partition of one |
| `RevenueIdentity.AtMostOneAnswer` | db/iceberg/duckdb/_revenue_identity.py:174-188 | the final join yields at most one row per brand and order, duplicates counted |
| `RevenueIdentity.MoreHashesNeverContradict` | db/iceberg/duckdb/_revenue_identity.py:118-188 | more hashes may remove or create an answer but never change it |
| `RevenueIdentity.FailsClosed` | db/iceberg/duckdb/_revenue_identity.py:89-93 | only enabled brands get answers, the placeholder name excepted |
| `RevenueIdentity.PlaceholderIsAnswered` | db/iceberg/duckdb/_revenue_identity.py:89-93 | with no brand enabled an order of a brand with the placeholder's name is resolved |
| `RevenueIdentity.MergedAwayIsNotAnswered` | db/iceberg/duckdb/_revenue_identity.py:123-131 | a brain with a survivor on all of its rows, and itself no survivor, is never answered |
| `RevenueIdentity.MergeRestoresCertainty` | db/iceberg/duckdb/_revenue_identity.py:123-131 | an order with a hash of the merged and a hash of the surviving brain resolves to the survivor, and to nothing before the merge |
| `RevenueIdentity.OneRowOne` | db/iceberg/duckdb/_revenue_identity.py:174-184 | the ranking (confidence descending, NULL last, then brain id) is total: an order that reaches anyone has exactly one row one |
| `RevenueIdentity.ConfidencesOfRows` | db/iceberg/duckdb/_revenue_identity.py:160-169 | the confidences of a candidate are those of the current rows through which the order reaches it |
| `Resp.EncodeCommand` | db/iceberg/duckdb/_platform_flags.py:96-102 | the encoder prints the array of bulk strings |
| `Resp.CommandReadBack` | db/iceberg/duckdb/_platform_flags.py:96-102 | decoding gives the arguments byte for byte and leaves the rest of the stream |
| `Resp.ReplyReadBack` | db/iceberg/duckdb/_platform_flags.py:105-128 | reading a reply returns it and consumes exactly its own bytes; an error reply raises |
| `Resp.RedisGet` | db/iceberg/duckdb/_platform_flags.py:131-150 | commands go out one at a time, each after the reply to the one before |
| `Resp.WrittenInOrder` | db/iceberg/duckdb/_platform_flags.py:139-146 | the commands go out in order up to the first one answered by an error, and none after it |
| `Resp.CutBulkRaises` | db/iceberg/duckdb/_platform_flags.py:119-127 | a bulk reply cut off anywhere raises |
| `Resp.WireIsSpelled` | db/iceberg/duckdb/_platform_flags.py:96-128 | the count, length and kind bytes of the protocol |
| `Resp.CommandsInOrder` | db/iceberg/duckdb/_platform_flags.py:137-144 | AUTH if and only if there is a password, SELECT if and only if the database is not 0, GET last |
| `Resp.ExchangeIsInOrder` | db/iceberg/duckdb/_platform_flags.py:131-150 | the i-th reply read is the reply to the i-th command |
| `Resp.FlagKeyIsInjective` | db/iceberg/duckdb/_platform_flags.py:55-66 | flags share a key only when brand and flag agree |
| `Resp.FlagKeyIsSpelled` | db/iceberg/duckdb/_platform_flags.py:55-66 | a flag has the key brand:flag:name if and only if both are non-empty and free of colons |
| `Resp.IsFlagEnabled` | db/iceberg/duckdb/_platform_flags.py:153-169 | on exactly when the key is legal and the value read is true; off on every failure |
| `Resp.FlagIsOnExactly` | db/iceberg/duckdb/_platform_flags.py:153-169 | with an in-order server: on if and only if no reply is an error and GET's is true |
| `ExactRatio.QuotientAndRemainder` | packages/metric-engine/src/attribution-campaign-roas.ts:28-30 | truncating division and its remainder |
| `ExactRatio.RatioReadBack` | packages/metric-engine/src/attribution-campaign-roas.ts:26-35 | the printed ratio reads back as the truncation of n * 10^k / d |
| `ExactRatio.RatioIsTruncated` | packages/metric-engine/src/attribution-campaign-roas.ts:26-35 | it lies between zero and n / d, less than 10^-k away, with the right sign |
| `ExactRatio.SignIsPrinted` | packages/metric-engine/src/attribution-campaign-roas.ts:26-35 | a minus sign stands in front of negative numbers only |
| `CampaignRoas.SumByKey` | packages/metric-engine/src/attribution-campaign-roas.ts:99-110 | the map-filling loop sums the amounts of each key |
| `CampaignRoas.NamesByKey` | packages/metric-engine/src/attribution-campaign-roas.ts:105-110 | the last spend row names its key |
| `CampaignRoas.SplitKeyExact` | packages/metric-engine/src/attribution-campaign-roas.ts:98-115 | a map key splits back into its campaign id and currency if and only if neither holds the separator |
| `CampaignRoas.ComputeCampaignRoas` | packages/metric-engine/src/attribution-campaign-roas.ts:98-134 | for any ids one row per map key, ascending, with a ratio if and only if money was spent: revenue over spend, truncated to four places, with its sign; and, if and only if no id holds the separator, one row per campaign and currency of either side, with both sums and the name on its last spend row |
| `CampaignRoas.SeparatedIdsMisjoin` | packages/metric-engine/src/attribution-campaign-roas.ts:114-115 | the join of one amount with a separator in its campaign id, or in its currency, has one row, under other ids |
| `CampaignRoas.TotalsAreConserved` | packages/metric-engine/src/attribution-campaign-roas.ts:98-134 | for any ids both operands add up, per currency, to the amounts filed under it, which are the input totals where ids hold no separator |
| `CampaignRoas.JoinIsUnique` | packages/metric-engine/src/attribution-campaign-roas.ts:130-134 | the output list is determined by the inputs |

## Left out

- SQL engines, Iceberg commits, Redis, Postgres, HTTP and subprocess drivers: only the effect of each call on an abstract store, session or stream is modelled.
- SHA-256, AES-GCM, Unicode normalisation and phone parsing: external; a digest is any function into 64 hex digits.
- `ensure_table` and the token rules of `_parse_columns_sql`: after the top-level split they only filter and append.
- `merge_on_pk`'s handling of NULL keys and of timestamps without a zone (`_align_tz`): keys are not null by mart contract, and the model has one clock.
- `incremental_window` for jobs that re-fold whole entities, whose folds are not part of this model.
- Concurrent `append` calls for one brand (head read and insert are two statements), and leader exclusion after a session died mid-tick: the code does not promise them; appends are serialized and sessions outlive ticks by stated assumption.
- `AnalyticsCachePort.set` called directly, token generation (tokens are fresh texts of the printed form by assumption) and the serving cache reader.
- Key order of JSON objects in the generated OpenAPI and MCP files, Avro generation, and `__proto__` as a field name.
- `SchemaPreservation.Forward` and `Backward`: transforms and refinements are opaque schemas that compile to the empty schema; coerced primitives are outside both fragments because they accept inputs of other types. Which texts Zod's uuid and datetime checks accept, and which a validator's formats do, are parameters.
- `StoredJson.RestoredExact`: objects with own keys are taken to have no `toJSON`; the column type's own limits (no NUL, no lone surrogate) make an insert raise and store nothing.
- `BigintCodec`: a value that JSON cannot print at all (undefined at the top) is not a tree of the model.
- `MinorUnits.MajorIsTruncated`: takes the trimmed text; how a JavaScript number prints as text is not modelled.
- `Resp.ReadReply`: Python's `int` also accepts spaces, a plus sign and underscores, which no Redis server sends.
- `RlsSession.TransactionIsIsolated`: calls on one client are awaited one at a time, and a caller of `beginRlsTxn` ends with COMMIT, or with ROLLBACK after a failure; `assertRoleEnforcesRls` is a single branch.
- `CampaignRoas.ComputeCampaignRoas`: amounts are integers already; cutting a decimal tail off the driver's text is not modelled. Rows that the comparator does not tell apart, which only misfiled ids give, may come in any order.
- `ResidentLoop`: preflight probes, the health server, freshness lines, maintenance hooks and the identity subprocess.
- `TierRun`: a job is its read and written tables; jobs that fail for other reasons, or half-way, are not modelled.
- The brand and flag texts of `Resp` are bytes already encoded; URL parsing of the Redis address is a small string cutter.
- Status label sets, per-platform field mapping, feature-registry validation, web pages and configuration: long but easy.
