# Verification of the bar pipeline

hybrid-data-svc polls a charting application for OHLCV bars, keeps the closed ones in two
tables (`bars` and `cache_meta`), derives wider timeframes from them and serves them to
readers. This project models that pipeline in Dafny and proves what it keeps over every run:

* **Cache and writer** (`CacheModel`, `CacheTheorems`, `CacheStore`, `InsertRules`, `BarCache`): the
  closed-bar filter, the three leak guards, the upsert, the overlap check and the validated
  fetch, first as functions on one series, then as commands on both tables, then as an object
  whose methods change the tables in place and are proved to do what the functions say.
* **Cache against its source** (`Slots`, `SourceSync`, `SyncRuns`, `SyncLoss`, `SyncGuards`,
  `Fetching`): grid arithmetic, gap-free synchronisation along runs, exact loss over a run, repair
  of unfinished bars, which polls are accepted, the lockout by the guards, the fast path.
* **Integrity audit** (`Audit`): what comparing a row count with a span count really measures.
* **Aggregation** (`Normalize`, `Bucketing`, `BucketLaws`, `Calendar`, `Aggregation`,
  `Incremental`): stable sort, last-wins deduplication, group-by as a one-pass fold, composition
  of widths, incremental maintenance, ISO weeks and calendar months.
* **Backfill pager** (`Backfill`), **feeds, system and poll loop** (`Feeds`, `System`,
  `PollLoop`), **catalog listing** (`Symbols`, `Catalog`, `AssetStatus`), **read side**
  (`Serving`).

Tables are maps, a transaction is one step, prices and volumes are `real`, and the clock, the
bar source, the exchange pages, the chart tab and the text match of the catalog are parameters.
A source or a server is a function of the call it answers, so a theorem quantified over it
covers every answer, including failures at any call.

## Findings

Where a promise of the documentation does not hold on all inputs, the exact condition is proved.

* The overlap check reads the first row of a repeated timestamp while the upsert keeps the last,
  so a just-written answer can fail its own check (`RepairNeedsDistinctTimes`); it passes exactly
  when the two closes agree within the tolerance (`RecheckIff`).
* A poll that stores anything leaves missing exactly the slots before its first one that were
  missing already or newer than the newest stored bar (`MissingAfterPoll`, over runs `RunMisses`
  and `RunLosesExactly`); when no bar closes meanwhile and the overlap is undisputed that adds
  `gap - min(count, 500)` (`MissingGrowsByExcess`, `ExcessWithinOneSlot`; one lost bar in
  `WideGapLosesOneBar`).
* A bar that closes between the source's answer and the insert's own clock reading is stored with
  the values it had while forming; the cache stays equal to the source exactly when no bar closed
  then or its values were final already (`LateInsertStoresFormingBar`, `PollAgreesIff`; one input
  in `FormingBarIsStored`). A later poll repairs the bar exactly when its answer disputes it, the
  refetch reaches back to it and is stored (`PollRepairsIff`); a snapshot whose close is within the
  overlap tolerance stays, whatever its volume and extremes (`ToleratedSnapshotStays`).
* The guards shut a source of final bars out for good, so that the cache never changes, exactly
  when every slot that can still be the newest closed one has moved more than half from the newest
  stored close or is outside the plausible band (`LockedOutIff`; one input in `DoublingLocksOut`).
* The audit does not group by provider; its count is exact precisely when no slot is stored under
  two providers (`AuditCounts`); a gap it does not see in `SharedSlotHidesGap`.
* Upserting a re-aggregated window equals full aggregation exactly when the window has a row in
  every old bucket (fixed-width targets, `IntradayWindowUpsert`), or when every session that opened
  a calendar group still opens one (`CalendarWindowUpsert`); a late session that precedes the
  stored first session leaves a stale row (`LateSessionLeavesStaleBucket`).
* With no provider requested, readiness is permanent exactly when the preferred provider already
  has the series or at most one bar is demanded (`UnpinnedReadyIsPermanentIff`; one revert in
  `UnpinnedReadyCanRevert`).
* A millisecond answer whose oldest bar is from before September 2001 is taken for seconds
  (`MillisRecognisedIff`).
* Paging the catalog never ends exactly when a first page of one row ends at an asset whose symbol
  is empty, with more to come (`PagingEndsIff`). Creating assets requires a non-empty symbol;
  loading them from YAML does not.
* A creation is answered `pending` with `last_bar_ts` 0 although feeds of the same storage symbol
  may be active and have bars (`CreationAnswerExact`; one input in `CreationAnswerCanBeWrong`).
* The repository's README describes the upsert as ON CONFLICT DO NOTHING and an overlap mismatch
  as invalidating the cache (README.md lines 19 and 229); the code updates in place and never
  deletes, and the model follows the code.

## Model

| member | source | states |
|---|---|---|
| Timeframes.SecondsAreSpelled | data_svc/db/cache.py:55-59 | which timeframes are known, and that each lasts what its name spells: minutes, or hours, days or weeks with a unit |
| Timeframes.GridIsSpelled | data_svc/db/cache.py:64-85 | outside weeks, the slots are the multiples of that length |
| InsertRules.AcceptsIff | data_svc/db/cache.py:358-405 | the guards let a batch in iff some row is closed, every closed row is plausible and on the grid, and the last closed one lies within half to one and a half of a positive newest stored close |
| InsertRules.InsertLeaves | data_svc/db/cache.py:358-448 | a batch let in overlays the last row of each closed timestamp, and the meta row names the newest, counts the series and carries the time; any other changes nothing |
| InsertRules.PlausibleBands | data_svc/db/cache.py:37-53 | the five bands with their ends, and no other symbol restricted |
| InsertRules.OverlapMeans | data_svc/db/cache.py:304-330 | the first row of the stored time passes iff it is within one part in a hundred thousand, or the stored close is 0 |
| InsertRules.GetBarsRaisesIff | data_svc/db/cache.py:106-143 | a validated fetch raises iff its first answer fails, or it is disputed and the refetch fails |
| InsertRules.CommandsAreLocal | data_svc/db/cache.py:334-448 | each command does its work on one series and leaves all others alone |
| InsertRules.BackfillStores | data_svc/backfill.py:111-134 | an implausible row does not keep the plausible closed rows of a batch out |
| CacheModel.InsertAllOrNothing | data_svc/db/cache.py:358-448 | an insert changes nothing, or writes exactly the closed rows (last per timestamp), leaves every other bar and makes the meta row describe the new series |
| CacheModel.UpsertIs | data_svc/db/cache.py:422-431 | the row-by-row upsert equals overwriting the series with the batch's last-wins map |
| CacheModel.AcceptedRows | data_svc/db/cache.py:362-405 | every row of an accepted batch is closed, plausible and on grid |
| CacheModel.InsertKeepsInv | data_svc/db/cache.py:358-448 | any insert of any rows keeps: meta exists iff bars do, counts them and names one of them, and every bar is on grid, plausible and was closed when written |
| CacheTheorems.GetBarsKeepsInv | data_svc/db/cache.py:99-150 | a validated fetch keeps the series invariant for every source and clock |
| CacheTheorems.GetBarsNeverLosesBars | data_svc/db/cache.py:99-150 | no stored timestamp is lost, only closed timestamps of the offered batch change, a call raises exactly when the fetch or refetch fails, and then changes nothing |
| CacheTheorems.RecheckIff | data_svc/db/cache.py:304-330 | an accepted answer passes its own overlap check iff the first and last row it holds for the newest closed timestamp agree within the tolerance |
| CacheTheorems.RepairConverges | data_svc/db/cache.py:125-141 | an answer with distinct times passes the overlap check once written iff the guards accept it or it passed before; accepted, the series agrees with it on every closed time and is unchanged elsewhere |
| CacheTheorems.GetBarsRepairs | data_svc/db/cache.py:123-141 | after the first answer is disputed a failed refetch changes nothing and a second answer repairs the series, with distinct times exactly when accepted or already agreed with |
| CacheTheorems.RepairNeedsDistinctTimes | data_svc/db/cache.py:304-311 | a concrete accepted answer with a repeated timestamp fails its own overlap check |
| CacheTheorems.FastPathIsExact | data_svc/fetcher.py:227-233 | when last_bar_ts is the newest bar, some batch could add a later bar iff at least two bar widths have passed |
| CacheTheorems.NothingLaterBeforeTwoWidths | data_svc/fetcher.py:230-233 | below two widths no batch of any rows adds a later timestamp |
| CacheTheorems.NextBarIsAccepted | data_svc/db/cache.py:358-405 | the next bar at the last close passes all guards once it is closed |
| CacheTheorems.OneStepDrift | data_svc/db/cache.py:377-388 | one accepted batch that reaches the newest bar keeps the newest close within half to one and a half times its value |
| CacheTheorems.NewestAfterReaching | data_svc/db/cache.py:348-356 | after such a batch the newest cached close is the batch's last close |
| CacheTheorems.DriftBound | data_svc/db/cache.py:377-388 | after k such inserts the newest close is positive and within c*0.5^k and c*1.5^k |
| CacheTheorems.ReinsertIsIdempotent | data_svc/backfill.py:16 | an accepted ascending batch is accepted again and changes no row, count or last_bar_ts |
| CacheStore.StepKeepsInv | data_svc/db/cache.py:334-448 | every command keeps the invariant of both tables |
| CacheStore.RunKeepsInv | data_svc/db/cache.py:334-448 | so does every run of inserts, polls, backfills and invalidations |
| CacheStore.StepNeverLosesBars | data_svc/db/cache.py:131-139 | no command but an invalidation loses a timestamp of any series |
| CacheStore.RunNeverLosesBars | data_svc/db/cache.py:131-139 | neither does any run without an invalidation |
| BarCaches.BarCache.InsertBars | data_svc/db/cache.py:358-448 | the guards and the transaction change the tables exactly as the insert command; unknown timeframes raise without a write |
| BarCaches.BarCache.UpsertRows | data_svc/db/cache.py:419-431 | executing one statement per row gives the upserted series and touches no other |
| BarCaches.BarCache.FetchRows | data_svc/db/cache.py:106-143 | request sizing, overlap validation and refetch obtain the offered rows without writing |
| BarCaches.BarCache.GetBars | data_svc/db/cache.py:99-150 | the whole validated fetch: new tables, answer and error cases |
| BarCaches.BarCache.WriteBars | data_svc/backfill.py:111-134 | the pre-filtered write, its count, and exactly when it raises |
| BarCaches.BarCache.Invalidate | data_svc/db/cache.py:334-346 | both tables lose exactly the key |
| Slots.AbsentCount | data_svc/db/audit.py:46-58 | for timestamps on one grid, span count minus row count is the number of absent slots |
| SourceSync.OverlapServedIff | data_svc/db/cache.py:116-123 | the gap + 1 request contains the overlap bar iff gap + 1 <= min(count, 500) |
| SourceSync.AcceptedEffect | data_svc/db/cache.py:358-448 | an accepted offer of slots adds exactly those closed by the insert and sets last_bar_ts to the newest of them |
| SourceSync.PollTracks | data_svc/db/cache.py:432-444 | any honest poll keeps last_bar_ts the newest stored bar, whatever the gap and however many bars close meanwhile |
| SourceSync.PollKeepsGapFree | data_svc/db/cache.py:114-150 | a poll keeps a gap-free series gap-free iff what it stores reaches the cache, even when bars close between the clock readings |
| SourceSync.PollAgreesIff | data_svc/db/cache.py:361-362 | an honest poll keeps the cache equal to the source iff it stores no unfinished bar |
| SourceSync.PollKeepsInSync | data_svc/db/cache.py:99-150 | an in-sync cache stays in sync through failures and refusals iff what the poll stores reaches it and holds no unfinished bar |
| SourceSync.WithinOneSlotIs | data_svc/db/cache.py:114-118 | when no bar closes meanwhile, the answer reaches the cache iff gap <= min(count, 500), and no unfinished bar is stored |
| SourceSync.DisputedIff | data_svc/db/cache.py:304-330 | an honest answer is disputed iff it reaches the newest stored bar and its final close differs beyond the tolerance |
| SourceSync.PollRepairsIff | data_svc/db/cache.py:125-141 | with only the newest bar unfinished, a poll makes the cache equal to the source again iff its answer is disputed, stored and reaches back to that bar |
| SourceSync.ToleratedSnapshotStays | data_svc/db/cache.py:321-330 | an unfinished bar with a close within the tolerance is not repaired |
| SyncLoss.MissingAfterPoll | data_svc/db/cache.py:114-150 | exactly which slots are missing after any storing warm poll, disputed or not |
| SyncLoss.MissingCount | data_svc/db/cache.py:114-150 | their number and what a refetch brought back, against the number before and the slots skipped |
| SyncLoss.MissingGrowsByExcess | data_svc/db/cache.py:114-150 | with an excess, or undisputed, a storing warm poll adds exactly its excess |
| SyncLoss.ExcessWithinOneSlot | data_svc/db/cache.py:118 | when no bar closes meanwhile the excess is max(0, gap - min(count, 500)) |
| SourceSync.PollCatchesUpIff | data_svc/db/cache.py:143-150 | a storing poll stores the newest slot its answer has closed, and no further bar can exist iff at most one closed since the answer |
| SourceSync.LateInsertStoresFormingBar | data_svc/db/cache.py:361-362 | an accepted honest answer leaves the cache equal to the source iff its forming bar was still open at the insert or already final; otherwise its snapshot is stored |
| SourceSync.FormingBarIsStored | data_svc/db/cache.py:361-362 | a concrete accepted batch for which it is not |
| SyncRuns.HonestRunTracks | data_svc/db/cache.py:432-444 | along every honest run last_bar_ts is the newest stored bar |
| SyncRuns.GapFreeThroughoutIff | data_svc/db/cache.py:99-150 | an honest run is gap-free at every moment iff all it stores reaches the cache |
| SyncRuns.AgreesThroughoutIff | data_svc/db/cache.py:361-362 | it equals the source at every moment iff it stores no unfinished bar |
| SyncRuns.HonestRunStaysInSync | data_svc/db/cache.py:99-150 | it is in sync at every moment iff both hold |
| SyncRuns.ColdRunEndsInSync | data_svc/db/cache.py:99-150 | so from an empty cache such a run ends gap-free, equal to the source, with last_bar_ts its maximum |
| SyncLoss.RunMisses | data_svc/db/cache.py:114-150 | along every honest run, through gaps, unfinished bars, disputes and refusals, exactly which slots are missing |
| SyncLoss.RunLosesExactly | data_svc/db/cache.py:114-150 | their number is the starting one plus the slots skipped less those refetches brought back |
| SyncLoss.FinalRunRefillsNothing | data_svc/db/cache.py:125-141 | a run that stores no unfinished bar brings nothing back |
| SyncGuards.StoresIff | data_svc/db/cache.py:358-405 | in any state whose last_bar_ts is its newest bar, an answered poll stores iff it brings a closed slot, all shown closes are plausible and the newest has not drifted |
| SyncGuards.AcceptedIff | data_svc/db/cache.py:358-405 | over a cache equal to the source, in terms of final closes |
| SyncGuards.AcceptedWithinOneSlotIff | data_svc/db/cache.py:358-405 | when no bar closes meanwhile and the gap fits: iff gap >= 2 and the closes pass |
| SyncGuards.LockedOutIff | data_svc/db/cache.py:366-388 | no honest run of final bars ever changes the cache again iff every slot that can still be the newest closed one moved too far or is implausible |
| SyncGuards.DoublingLocksOut | data_svc/db/cache.py:377-388 | a price that doubles once is never cached again |
| SyncGuards.WideGapLosesOneBar | data_svc/db/cache.py:114-150 | a concrete honest poll after which one slot is missing |
| Fetching.MillisRecognisedIff | data_svc/fetcher.py:184-187 | millisecond answers are converted back iff their oldest bar is past the threshold or all times are 0 |
| Fetching.ScreenedToolIsHonest | data_svc/fetcher.py:248-264 | a tool serving plausible newest slots is an honest source after the 500 cap and the plausibility screen |
| Fetching.ScreenedIs | data_svc/fetcher.py:154-264 | an answer passes the screen iff it has rows and all are plausible; at most 500 bars are asked for |
| Fetching.FetchServesFresh | data_svc/fetcher.py:226-233 | below two bar widths past last_bar_ts a fetch answers from the tables whatever the tab, chart and tool do |
| Fetching.FetchPolls | data_svc/fetcher.py:235-266 | otherwise, with tab and chart reachable, it is the validated fetch of the screened tool, leaves the chart on the feed and raises iff the source does |
| Fetching.FetchRaises | data_svc/fetcher.py:226-246 | in every other case it raises and nothing changes |
| Fetching.FetchIsACommand | data_svc/fetcher.py:226-266 | every fetch is one validated fetch or changes nothing |
| Fetching.FetchAnswersFromStore | data_svc/fetcher.py:226-266 | answers are the newest stored bars; raising changes no table; tables change only with the chart on the feed |
| Fetching.FastPathLosesNothing | data_svc/fetcher.py:230-233 | while the fast path serves a feed no batch could have added a later bar |
| Fetching.DataFetcher.Fetch | data_svc/fetcher.py:226-266 | the fetch method: tables, believed chart state and answer |
| Feeds.SeedAllIs | data_svc/db/feeds.py:100-138 | seeding leaves existing rows as they are; new keys are env feeds, active iff the pair has bars, else pending |
| Feeds.SeedAllSafe | data_svc/db/feeds.py:119-131 | seeding keeps every active feed backed by bars |
| Feeds.CreateFeedsIs | data_svc/db/assets.py:358-371 | registering feeds leaves existing rows as they are and adds one pending row per new timeframe |
| Feeds.CreateFeedsSafe | data_svc/db/assets.py:358-371 | and keeps every active feed backed by bars |
| Feeds.FeedsRepo.SeedFromEnv | data_svc/db/feeds.py:100-138 | the seeded table and the number of new rows |
| Feeds.FeedsRepo.Upsert | data_svc/db/feeds.py:140-161 | only the key is added or changed: chart symbol refreshed, status kept, pending if new |
| Feeds.FeedsRepo.MarkFeedActive | data_svc/db/feeds.py:163-178 | a pending feed turns active keeping its chart symbol; any other feed is untouched and none is added |
| Feeds.FeedsRepo.AddFeeds | data_svc/db/assets.py:358-371 | one pending feed per timeframe, existing ones kept |
| Feeds.FeedsRepo.PollingTargets | data_svc/db/feeds.py:65-81 | each active or pending feed once, by symbol and timeframe, no other |
| Feeds.TargetsDetermined | data_svc/db/feeds.py:69-70 | the order of chart switches depends on the table alone |
| System.VisitSafe | data_svc/__main__.py:128-159 | visiting a target keeps the system invariant, and promotes only feeds with a stored bar |
| System.VisitPromotes | data_svc/__main__.py:154-156 | a pending target whose fetch answered with a bar turns active; no other row changes |
| System.VisitNotes | data_svc/__main__.py:136-152 | its newest seen timestamp becomes the greater of the old and the newest answered; nothing else is noted |
| System.ActionsRegister | data_svc/db/feeds.py:100-161 | what seeding, creation and upserts put into the feeds table, and that they keep what is there |
| System.DoSafe | data_svc/__main__.py:120-159 | so does every step of any process |
| System.SystemIsSafe | data_svc/__main__.py:120-159 | over any interleaving: active feeds have bars, keys stay, only pending turns active, no bar is lost, the newest seen timestamp is stored and moves forward |
| System.ActiveFeedHasBars | data_svc/db/feeds.py:119-131 | from empty tables an active feed has a stored bar |
| PollLoops.PollLoop.NoteAnswer | data_svc/__main__.py:136-152 | last_ts and promotion after one answer; an empty answer does neither |
| PollLoops.PollLoop.VisitTarget | data_svc/__main__.py:128-159 | one iteration is the visit step, failures isolated |
| PollLoops.PollLoop.RunCycle | data_svc/__main__.py:126-159 | a cycle is its visits in order |
| PollLoops.CycleIsSafe | data_svc/__main__.py:126-159 | a cycle keeps the invariant and only progresses |
| PollLoops.CycleSettles | data_svc/__main__.py:126-159 | after a cycle over the targets every one that answered with a bar is active and noted, every other is as it was |
| PollLoops.CycleIsActions | data_svc/__main__.py:120-159 | the loop's cycle is reading the targets and visiting them one by one in the state machine |
| PollLoops.SleepTime | data_svc/__main__.py:60-75 | the computed wake time is the least of the fallback and all feeds' times, and the sleep lasts until it but at least five seconds |
| PollLoops.EarliestWakeIs | data_svc/__main__.py:60-75 | a feed with bars is due at last_bar_ts + 2 * secs + 5, one without at now + 5; the wake time is the least of these and the fallback |
| PollLoops.WakeIsUseful | data_svc/__main__.py:69-75 | no feed is overslept by more than the minimum sleep, and the feed that set the wake time is off the fast path by then |
| Serving.NewestIs | data_svc/db/cache.py:450-466 | a read returns the newest count bars, oldest first |
| Serving.BarsInRangeIs | data_svc/db/cache.py:226-274 | a range read returns the newest limit matching bars and reports truncation iff more matched |
| Serving.RangeAnswerIs | data_svc/grpc_server/service.py:57-78 | the range request answers nothing iff an unknown provider is named, else the newest matching bars of the resolved one within the clamped limit |
| Serving.RangeHolds | data_svc/db/cache.py:226-274 | a range answer holds stored bars of the range, all of them unless truncated |
| Serving.RecentAnswerIs | data_svc/grpc_server/service.py:37-55 | the recent-bars request answers the newest bars, 0 meaning 300, clamped to 1..5000 |
| Serving.ProbeReports | data_svc/grpc_server/service.py:80-93 | what the probe reports: stored bars, newest written timestamp or 0, readiness with 0 meaning 200 |
| Serving.ResolveIs | data_svc/db/cache.py:155-183 | a known provider asked for by name is served, an unknown one refused, and the precedence otherwise |
| Serving.ResolvedHasBars | data_svc/db/cache.py:155-183 | unrequested, the resolved provider has bars whenever any known one does |
| Serving.ReadyMeansBars | data_svc/grpc_server/service.py:37-93 | ready for 1..5000 bars is redeemed by the recent-bars request |
| Serving.ReadyNeverReverts | data_svc/grpc_server/service.py:80-93 | for a fixed provider readiness survives every run without invalidation |
| Serving.UnpinnedReadyIsPermanentIff | data_svc/grpc_server/service.py:80-93 | without one, no run can revert it iff the preferred provider already has the series or at most one bar is demanded |
| Serving.UnpinnedReadyRevertsWhen | data_svc/grpc_server/service.py:80-93 | along a given run it reverts iff the preferred provider newly appeared with too few bars |
| Serving.UnpinnedReadyCanRevert | data_svc/grpc_server/service.py:80-93 | a concrete store and write for which it does |
| Audit.ListProblems | data_svc/db/audit.py:85-94 | the append loops list count findings, then off-grid ones |
| Audit.AuditReport | data_svc/db/audit.py:79-104 | every combo is classified once and the totals are sums over combos |
| Audit.CountFinding | data_svc/db/audit.py:85-91 | for any store, a group is reported with gaps or extras, and how many, iff its span has room for more or fewer bars than it has rows; with no other count finding |
| Audit.ShortfallMeans | data_svc/db/audit.py:46-91 | on writer-kept tables that number is the absent slots less the repeated timestamps |
| Audit.OffGridFinding | data_svc/db/audit.py:60-94 | for any store, n off-grid bars are reported iff n > 0 rows are off the grid of the group's oldest timestamp |
| Audit.FindingsCount | data_svc/db/audit.py:85-94 | one finding per combo that has one |
| Audit.OffGridTotal | data_svc/db/audit.py:82 | off_grid_bars counts every off-grid row |
| Audit.AuditCounts | data_svc/db/audit.py:46-91 | on writer-kept tables nothing is off grid, expected minus actual is absent slots less repeated timestamps, and equals the absent slots iff no slot is stored under two providers |
| Audit.AuditExactForOneProvider | data_svc/db/audit.py:79-91 | for one provider: no extras, the gap count is the number of missing slots, silence iff none is missing |
| Audit.SharedSlotHidesGap | data_svc/db/audit.py:46-91 | a concrete sound store with a missing slot and no problem reported |
| Audit.CleanReportMeansGapFree | data_svc/db/audit.py:85-104 | without shared slots a report has no problems iff no group misses a slot |
| Audit.TotalsAgree | data_svc/db/audit.py:83 | total_bars is the number of stored rows and the sum of all bar_count values |
| Normalization.StableSortIs | data_svc/aggregate.py:52 | the sort is ordered, keeps all rows and keeps the order of equal times |
| Normalization.NormalizeIs | data_svc/aggregate.py:48-53 | normalisation is the ascending enumeration of the last-wins map |
| Normalization.NormalizeConcat | data_svc/aggregate.py:48-53 | blocks in time order normalise independently |
| Buckets.GroupsAreRuns | data_svc/aggregate.py:59-63 | group-by over an ascending series yields contiguous runs whose summaries are a one-pass fold |
| BucketLaws.BucketIsFold | data_svc/aggregate.py:56-64 | bucketing equals the fold and its times strictly ascend |
| BucketLaws.BucketPartitions | data_svc/aggregate.py:87-94 | output rows summarise runs that partition the series: first open, last close, attained extremes, whole volume, stamped by the first row |
| BucketLaws.FoldConservesVolume | data_svc/aggregate.py:39 | total volume is conserved |
| BucketLaws.FoldKeepsSane | data_svc/aggregate.py:39 | low <= open, close <= high is preserved |
| BucketLaws.FoldConcat | data_svc/aggregate.py:56-64 | a series cut at a bucket boundary buckets piece by piece |
| BucketLaws.FoldComposes | data_svc/aggregate.py:56-64 | nested bucketings compose |
| Calendar.IsoWeekExact | data_svc/aggregate.py:77-79 | two days share the week key iff they lie in one Monday to Sunday week, across year ends |
| Calendar.MonthKeyExact | data_svc/aggregate.py:80-81 | the month key names exactly the days of that month |
| Calendar.MonthLengths | data_svc/aggregate.py:80-81 | the lengths of the months, leap years included |
| Calendar.ThreeDayExact | data_svc/aggregate.py:82-84 | the three-day groups are the day numbers with one quotient by three |
| Calendar.DateKeyConvex | data_svc/aggregate.py:76-85 | week, month and three-day groups are contiguous in the date |
| Calendar.WeeklyGridIsMondays | data_svc/db/cache.py:61-85 | the weekly grid is exactly the Mondays at 00:00 UTC, with the epoch at its calendar day |
| Aggregation.IntradayProper | data_svc/aggregate.py:56-58 | fixed windows are contiguous, labelled inside and in order |
| Aggregation.DailyProper | data_svc/aggregate.py:67-87 | so are the calendar groups, for any non-decreasing day function |
| Aggregation.AggregateIsFold | data_svc/aggregate.py:97-113 | the entry point folds the normalised frame |
| Aggregation.AggregateAnswers | data_svc/aggregate.py:97-113 | native targets pass through, an empty frame stays empty, and which targets are unknown |
| Aggregation.IntradayAnswer | data_svc/aggregate.py:56-64 | an intraday answer cuts the rows into windows of the width, each stamped with its opening second, a multiple of the width |
| Aggregation.BucketsOnCacheGrid | data_svc/aggregate.py:26-29 | its times are slots of the cache's grid, and every slot is its own bucket time |
| Aggregation.CalendarGroups | data_svc/aggregate.py:76-85 | sessions share a bucket iff they lie in one week, month or three-day group, by target |
| Aggregation.CalendarAnswer | data_svc/aggregate.py:87-94 | a calendar row carries the time of the earliest session of its run |
| Aggregation.DependsOnLastWins | data_svc/aggregate.py:48-53 | the result depends only on the input's last-wins map |
| Aggregation.StableReorderingIsHarmless | data_svc/aggregate.py:52 | reordering that keeps equal timestamps in order changes nothing |
| Aggregation.AggregatePartitions | data_svc/aggregate.py:97-113 | for any frame: partition into runs, summaries, ascending times, conserved volume, sane candles |
| Aggregation.AggregateComposes | data_svc/aggregate.py:26-29 | any two of the seven intraday widths compose, and one applied twice is one |
| Incremental.FoldSplits | data_svc/aggregate.py:56-64 | the stored aggregation of a series is that of its closed part plus that of its window |
| Incremental.WindowUpsertIff | data_svc/aggregate.py:9-11 | upserting the window's aggregation gives the whole series' iff it covers every old bucket time; closed buckets keep rows and stamps |
| Incremental.RerunIsIdempotent | data_svc/aggregate.py:9-11 | re-running on unchanged data changes no row |
| Incremental.IntradayWindowUpsert | data_svc/aggregate.py:56-64 | fixed-width targets converge iff the window has a row in every old bucket |
| Incremental.CalendarWindowUpsert | data_svc/aggregate.py:67-94 | calendar targets converge iff every session that opened an old group still opens one |
| Incremental.LateSessionLeavesStaleBucket | data_svc/aggregate.py:67-69 | a late earlier session leaves a stale calendar bucket behind |
| Backfilling.FetchHistory | data_svc/backfill.py:75-108 | the paging loop computes the recursive gathering, sorted, deduplicated and trimmed |
| Backfilling.HistoryIsBounded | data_svc/backfill.py:106-108 | for any server the result is sorted, unique and at most N long |
| Backfilling.HistoryIsLastN | data_svc/backfill.py:75-108 | against a faithful server it is exactly the last min(N, available) bars |
| Backfilling.HistoryRows | data_svc/backfill.py:91-108 | bar by bar: the newest N that opened by now, oldest first, prices and volume their own, time the opening second |
| Backfilling.HistoryAnswers | data_svc/backfill.py:75-108 | the fetch succeeds when no call fails, fails when the first does, and asks nothing for N <= 0 |
| Catalog.SelectedIs | data_svc/db/assets.py:222-237 | the query selects exactly the matching symbols beyond the cursor, in order |
| Catalog.SelectedMeans | data_svc/db/assets.py:222-237 | the filters spelled out for a listed asset |
| Symbols.BelowIs | data_svc/db/assets.py:234-260 | the symbol order: the first difference decides, a proper prefix comes first |
| Catalog.ListPageIs | data_svc/db/assets.py:268-272 | a page is the first limit of them and has a successor iff more were selected |
| Catalog.PageSize | data_svc/db/assets.py:215-272 | how many assets a page holds, the limit clamped to 1..500 |
| Catalog.EmptyCursorIff | data_svc/db/assets.py:234-272 | an empty cursor is handed out iff a first page of one row ends at an empty symbol with more to come |
| Catalog.PagingEndsIff | data_svc/db/assets.py:234-272 | following cursors over a fixed catalog ends iff it does not |
| Catalog.FollowListsAll | data_svc/db/assets.py:208-214 | then it lists every match exactly once in order |
| Catalog.FollowTakesCeilingPages | data_svc/db/assets.py:208-214 | in max(1, ceil(n / limit)) pages |
| Catalog.SessionAscends | data_svc/db/assets.py:234-236 | while the catalog changes between pages, pages together strictly ascend unless the first hands out an empty cursor |
| Catalog.SessionMissesNothing | data_svc/db/assets.py:234-236 | and an asset that matches throughout is listed |
| Catalog.EmptySymbolRestarts | data_svc/db/assets.py:234-236 | a two-asset catalog whose first page is served forever |
| Catalog.UpsertKeepsAssets | data_svc/db/assets.py:153-194 | loading never drops an asset and sets added_at once |
| Catalog.UpsertLoadsLast | data_svc/db/assets.py:153-194 | the last row loaded for a symbol is what the catalog holds, other assets are as they were |
| Catalog.AssetsRepo.UpsertMany | data_svc/db/assets.py:153-194 | the loaded table and row count |
| Catalog.AssetsRepo.CreateWithFeeds | data_svc/db/assets.py:309-386 | a new symbol and its feeds are written together, an existing one changes nothing |
| AssetStatus.JoinComputesRule | data_svc/db/assets.py:245-256 | the join aggregates equal the per-feed status rule and the maximum last_bar_ts, whatever the fan-out |
| AssetStatus.ListedStatusMeans | data_svc/db/assets.py:245-252 | listed active iff some feed is, inactive iff there are feeds and all are |
| AssetStatus.ListingIs | data_svc/db/assets.py:241-274 | one row per selected asset with the rule's status and newest bar |
| AssetStatus.ActiveListingIsBacked | data_svc/db/assets.py:245-256 | in every reachable state an asset listed active reports a stored bar's timestamp |
| AssetStatus.CreationAnswerExact | data_svc/grpc_server/assets_service.py:201-215 | when the unconditional pending status and last_bar_ts 0 are what the listing would say |
| AssetStatus.CreationAnswerCanBeWrong | data_svc/grpc_server/assets_service.py:201-215 | a concrete table for which the listing says active with a bar |

## Left out

- Postgres, the pool and SQL text: tables are maps, each transaction one step; several writers are not modelled.
- Floating point and NaN: prices and volumes are real numbers, so sums and ratios are exact.
- Clock: `int(time.time())` is an integer parameter, non-negative readings assumed where it is rounded; one fetch takes three separate readings.
- SyncRuns.HonestRunStaysInSync: honest polls have count >= 1, a clock that does not run backwards, and a source that answers between the two clock readings of a poll.
- CacheModel.Newest: takes a natural count; a negative LIMIT, which the database refuses, is not modelled.
- Aggregation.Daily: the US/Eastern date of a timestamp is a given non-decreasing function; dates before year 1, which raise, are clamped to day 1.
- Catalog.Matches: the LIKE match is a parameter; symbols are ordered by code unit rather than by a database collation, in the listing and in the polling targets.
- System.SystemIsSafe: excludes invalidation, which no process of the repository calls, and takes feed upserts with the default pending status only.
- Chart switching: the fetcher's belief about the chart is modelled; a symbol switch that succeeds before a failed timeframe switch, which moves the real chart, is not.
- tv command line tool, CDP discovery, tab pinning, JSON parsing: their outcome is the source's answer or failure.
- REST routers, auth, generated stubs, configuration and asset file parsing: thin translation.
- ops/tv-watchdog and scripts/seed_from_sqlite.py: process control and a one-off migration.
- Logging and the audit's text formatting.
