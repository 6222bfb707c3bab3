# Verification of catnap's stateful core

Catnap watches the catalog of a hosting provider and tells its users when a configuration comes
into stock. This project models the parts of its Rust backend that keep state while many tasks
interleave, and the calendar arithmetic of traffic billing, and proves what they promise over all
inputs, all runs or all histories. `dafny verify dfyconfig.toml` checks everything.

**The fetch queue** (`FetchQueue`, `FetchQueueRuns`). Callers enqueue catalog pages to fetch; a page
that is already queued or running is joined instead. `FetchQueue.Runtime` is the state behind the
lock, one method per locked region. `FetchQueueRuns` interleaves any number of callers and workers,
one locked region or one notify operation at a time, with the wake-up primitive as documented: one
stored permit at most, and a notification wakes a parked worker if there is one. Every run keeps
exclusive ownership of keys, never strands queued work with only parked workers, answers each
request at most once, and never answers a forced request from the cache.

**The catalog lifecycle** (`Sources`, `CatalogStore`, `CatalogLifecycle`, `CatalogRuns`,
`CatalogDates`). A fetched page lists, relists and delists configurations; a retired target delists
its own; a user archives delisted ones. The listing decision (taken from the rows before the update)
and the row update (an SQL `CASE`) are written separately, and are proved to agree; in every history
the cached id list is what a scan of the table would return, and each row carries the dates of its
own lifecycle.

**Telling users** (`LifecycleDelivery`, `FirstStock`, `StockTimeline`, `StockExamples`). The
delivery loops as methods that may fail at any delivery or panic at a missing text, and the exact
number of restock notices a user gets at a configuration's first stock from the poller and the
lifecycle fallback together. They are counted over histories in which the steps of the fetch queue
and the updates of the catalog interleave in any order: who waits on a run is what the queue's own
reachable state says, and the texts of a run are built from the rows at the moment it loads them.

**The topology** (`KeyedLists`, `Ordering`, `Topology`, `Prefetching`, `TopologyRefresh`,
`AddedTargets`, `TopologyNotices`, `NoticeStorage`, `TopologyRuns`, `TopologyService`). The diff, the probe merge,
the preservation of ambiguous countries with their notices, and a whole refresh or probe as one
method over the store, combined with the retiring of targets, the prefetching of new ones and the
stored region notices; and what holds after any sequence of refreshes, probes and catalog updates.

**Traffic billing cycles** (`Calendar`, `Cycles`, `TrafficSamples`). Civil dates under the Gregorian
rules of RFC 3339 (section 5.7 and Appendix C), monthly anchors with day clamping, the search for
the current cycle, and the hourly sample table.

**Refreshes and listings** (`RefreshManager`, `RefreshRuns`, `Timestamps`, `Pagination`,
`PageWalks`, `Listings`). The single-flight refresh manager with its job loop, over all
interleavings of triggers and jobs; and the keyset pagination of logs and notification records,
down to the text of timestamps and cursors.

Where a promise does not hold of the code as it is, the code is kept and the exact condition is
proved instead:

- First stock of a configuration that was listed before is told to a monitoring user exactly once if
  and only if the user's poll straddles the apply just when a poll of the user waits on the run or
  the run stops before the notice. A poll straddles the apply if it compares the configuration, read
  its old row before the apply and reads it again after it; a user waits if some request of the
  user's poll for the page is still unanswered when the run reads its waiters; a run stops at the
  first failing delivery or missing text. In a run that does not stop, straddling alone means two
  notices and waiting alone means none (`StockTimeline.FirstStockTold`,
  `StockTimeline.FirstStockToldUndisturbed`; `StockExamples.ToldTwice`, `StockExamples.NotTold`).
  When no other poll of the user is under way, waiting means that this poll joined before the
  waiters are read and is not answered yet (`StockTimeline.FirstStockByTheOnlyPoll`). A relisted
  configuration is told of by the fallback unless the run stops before, and by the poll exactly if
  it straddles the apply and the old row stood at zero (`StockTimeline.ListedStockTold`,
  `StockExamples.RelistedToldTwice`).
- The fallback takes for granted that its text exists, but builds it from a row that is loaded after
  the apply. All texts of a run exist exactly if, for every configuration that it means to tell some
  user of, the last page that was applied before the rows were loaded and shows the configuration
  leaves it in stock (`StockTimeline.TextsExistByHistory`); otherwise a run whose deliveries succeed
  panics (`LifecycleDelivery.PanicsExactly`, `StockTimeline.SoldOutIsNotTold`). One other page
  applied in between is enough, and then nobody is told (`StockExamples.SoldOutPanics`), nor are the
  polls that wait on the page ever answered (`StockTimeline.DeadRunsSilencePolls`,
  `FetchQueueRuns.StoppedWorkersAnswerNobody`). So is one page that repeats an id, first in stock and
  then without (`FirstStock.TextExistsExactly`, `FirstStock.RepeatedIdsBreakTheFallback`).
- The region table is keyed by the region id alone. So a probe fails exactly if it finds nothing
  while something is known, or finds a region id under another country than the snapshot holds it or
  under two countries; and a full refresh fails exactly if it finds nothing while something is known,
  finds an id twice, or finds a region id under another country than an ambiguous country holds it
  (`TopologyRuns.ProbeFailsExactly`, `TopologyRuns.RefreshFailsExactly`,
  `TopologyRuns.MovedRegionBreaksAProbe`).
- After a refresh, memory shows for every place of the new topology the notice that the crawl found,
  or else the one it held before, while the store can hold another one. An added place whose page
  was applied agrees exactly if that page has the notice that memory shows; a crawl reads no region
  page, so an added region with a notice goes apart (`TopologyRuns.AddedRegionGoesApart`). Any other
  place goes apart from agreement exactly if the crawl read its page without a notice, memory holds
  one, and the place is not given back as part of an ambiguous country: the stored notice is removed
  and memory keeps its own (`TopologyRuns.VanishedNoticeStaysInMemory`). All cases are in
  `NoticeStorage.RefreshAgreesExactly`. A probe brings the two together for every known place whose
  page counts as read, leaves a known place that was never read as it was, and treats an added place
  as a refresh does (`NoticeStorage.ProbeAgreesExactly`); a fetch through the queue always brings
  them together (`NoticeStorage.FetchAgrees`).
- Cycle windows tile time on either side of the last reset. Across it, some window before the reset
  overlaps one after it exactly if the reset is not itself a midnight anchor at the reference's
  offset, as far as the calendar holds the anchors around it (`Cycles.WindowsAcrossReset`,
  `Cycles.WindowsCanOverlapAcrossReset`).
- Log timestamps sort by text in time order except exactly within one second, when the digits of the
  earlier fraction begin those of the later one (`Timestamps.LogOrder`,
  `Timestamps.LogTimesCanBeOutOfOrder`). The fixed-width timestamps of notification records always
  sort in time order.
- A request whose task could not be started is never answered
  (`FetchQueueRuns.FailedStartsAreNeverAnswered`, `FetchQueueRuns.AFailedStartStrandsItsRequest`);
  every other accepted request is answered once the queue is at rest, which it never is while a
  worker that stopped holds a key (`FetchQueueRuns.StoppedWorkersAnswerNobody`).
- Two sources share a url key exactly if one is a region called "0" of the other's country
  (`Sources.UrlKeyCollisions`).
- A refresh job shows a success of 0 of 1 exactly if it had no targets, and otherwise one that shows
  all of its targets done (`RefreshRuns.SuccessMeansAllDone`, `RefreshRuns.EmptyRefreshSucceeds`).

## Model

| member | source | states |
|---|---|---|
| `FetchQueue.Runtime.Enqueue` | src/ops.rs:1608-1693 | An empty page id or reason is refused with nothing changed; otherwise the request joins the key's entry (count, force flag, joiner, poller) or queues a new entry, and only a new key asks for a notification |
| `FetchQueue.Runtime.PopFront` | src/ops.rs:1706-1710 | Takes the oldest queued key and leaves the tasks alone |
| `FetchQueue.Runtime.StartTask` | src/ops.rs:1874-1925 | Starts exactly if the task exists and its run row was inserted, and otherwise changes nothing of the queue |
| `FetchQueue.Runtime.SealTaskForCompletion` | src/ops.rs:2020-2023 | Removes the entry and hands over all its joiners and counts |
| `FetchQueue.Runtime.CompleteOrRetryCacheHit` | src/ops.rs:2012-2018 | Asks for a retry exactly if someone forced a fetch meanwhile; otherwise removes the entry |
| `FetchQueue.FreshnessWindow` | src/ops.rs:16-36 | The window is one of a reason's windows and at least as wide as every reason's |
| `FetchQueue.Runtime.DecideCache` | src/ops.rs:2052-2102 | An attempt answers from the cache exactly if nobody forced a fetch and the cached page is within the widest window |
| `FetchQueue.AnswersFromCacheExactly` | src/ops.rs:2061-2076 | The decision without the widest window: nobody forced a fetch, there is a cached page, and its age is within the window of some reason of the task |
| `FetchQueue.WindowsInSeconds` | src/ops.rs:16-25 | The four windows are 45, 150, 300 and 300 seconds, and no other reason has one |
| `FetchQueueRuns.OwnershipStep` | src/ops.rs:1640-1672 | Every step keeps the keys of `tasks` the disjoint union of queued keys, keys held by exactly one worker, and start-failed keys |
| `FetchQueueRuns.ExclusiveOwnership` | src/ops.rs:1706-1738 | In every run no two workers hold one key, a held key is not queued, and its task exists, so the missing-task fallbacks are unreachable |
| `FetchQueueRuns.FirstComeFirstServed` | src/ops.rs:1652-1715 | In every run keys are taken in the order in which they were queued, and what is not taken yet is still pending, in that order |
| `FetchQueueRuns.WakeupStep` | src/ops.rs:1687-1689 | Every step keeps: queued work implies an owed notification, a stored permit or a worker that will pop |
| `FetchQueueRuns.NoLostWakeup` | src/ops.rs:1706-1715 | With work queued, no notification owed and no permit stored, some worker is not parked |
| `FetchQueueRuns.TasksAreNotifiedOnce` | src/ops.rs:1687-1689 | In every run the created tasks are exactly the notifications given and those still owed |
| `FetchQueueRuns.JoinedSummarizes` | src/ops.rs:1640-1650 | A join keeps the entry an exact summary of its joiners: count per reason, force flag and polling users |
| `FetchQueueRuns.SummariesStep` | src/ops.rs:1640-1672 | Every step keeps all entries exact summaries, and accepted requests equal deduplicated ones plus created tasks |
| `FetchQueueRuns.ForcedRequestsAreFetched` | src/ops.rs:2012-2018 | In every run a request that forced a fetch is never answered from the cache |
| `FetchQueueRuns.CacheHitsAreFresh` | src/ops.rs:2052-2102 | An attempt of any worker takes the cached page exactly if its task is not forced by then and the page is fresh enough for some reason of the task; otherwise it fetches |
| `FetchQueueRuns.AtMostTwoAttempts` | src/ops.rs:1728-1738 | In every run the retry loop makes at most two attempts, and the second never hits the cache |
| `FetchQueueRuns.RequestsAreConserved` | src/ops.rs:1640-1672 | In every run each accepted request is waiting in exactly the entry that lists it, taken by exactly the worker that removed the entry, or answered |
| `FetchQueueRuns.RequestsAreComplete` | src/ops.rs:1608-1632 | Every request that a run accepts has a page id and a reason |
| `FetchQueueRuns.AnswersAreFinal` | src/ops.rs:1978-1980 | Once given, an answer never changes in any continuation of the run |
| `FetchQueueRuns.OneRunOneOutcome` | src/ops.rs:1867-1869 | All requests answered by one run were for one key and got one outcome |
| `FetchQueueRuns.EveryStepIsProgress` | src/ops.rs:1705-1738 | Every step other than a new request lowers a bound on the remaining work |
| `FetchQueueRuns.RunsWithoutRequestsEnd` | src/ops.rs:1705-1738 | A run without new requests takes at most as many steps as that bound |
| `FetchQueueRuns.AtRestEverythingIsAnswered` | src/ops.rs:1705-1869 | With one live worker and no step left, every request is answered unless its key's start failed |
| `FetchQueueRuns.FailedStartsAreNeverAnswered` | src/ops.rs:1717-1726 | A request for a start-failed key waits for ever, in every continuation |
| `FetchQueueRuns.AFailedStartStrandsItsRequest` | src/ops.rs:1717-1726 | A reachable state with such a request, which waits in every continuation |
| `FetchQueueRuns.StoppedWorkersAnswerNobody` | src/ops.rs:1728-1738 | If a worker takes no further step while it holds a key, no request that waits on the key then, or is made later, is ever answered, whatever the other workers do |
| `Sources.UrlKeyCollisions` | src/upstream.rs:519-521 | Url keys of two sources are equal if and only if the sources are, or one is the region "0" of the other's country |
| `Sources.IdNamesItsSource` | src/upstream.rs:730-742 | A config id starts with the prefix of at most one source |
| `CatalogStore.Store.ApplyCatalogUrlFetchSuccess` | src/db.rs:3199-3510 | An empty page that is not authoritative and would delist something is refused with nothing changed; otherwise the four tables and the result are exactly those of the specification |
| `CatalogStore.Store.DecideListed` | src/db.rs:3307-3330 | The loop collects exactly the told ids and the zero-stock ids, in page order |
| `CatalogStore.Store.UpsertPage` | src/db.rs:3332-3413 | Rows and minute samples after the page, update by update |
| `CatalogStore.Store.RetireCatalogTargets` | src/db.rs:3022-3085 | Target by target, yet equal to delisting the configs of all targets at once and dropping their cached lists; returns exactly the configs it delisted |
| `CatalogStore.RetireOneMore` | src/db.rs:3034-3081 | Retiring one more target adds exactly that target's effect |
| `CatalogStore.Store.ArchiveAllDelistedConfigs` | src/db.rs:3155-3197 | Archives exactly the delisted configs that this user had not archived, and keeps earlier archive dates |
| `CatalogLifecycle.UpsertedRows` | src/db.rs:3332-3388 | Over a whole page, an open listing event is kept, and otherwise one is dated exactly if the page shows the config in stock; a config left out of the page is untouched |
| `CatalogLifecycle.ListedEventMembers` | src/db.rs:3307-3330 | Which ids are told of and which are pending, in terms of the page and the old rows |
| `CatalogLifecycle.EventMultiplicity` | src/db.rs:3307-3330 | A config is told of as often as the page shows it in stock |
| `CatalogLifecycle.PreviousIdsAreTheActiveOnes` | src/db.rs:3215-3244 | The cached list and the fallback scan give the same previous ids |
| `CatalogLifecycle.AppliedRows` | src/db.rs:3199-3447 | Fetched configs are active, missing ones of this source are delisted, and all other rows are untouched |
| `CatalogLifecycle.AppliedActive` | src/db.rs:3427-3468 | After an apply the active configs of the source are exactly the page's, and those of other sources are unchanged |
| `CatalogRuns.AppliesOrRefuses` | src/db.rs:3246-3256 | An apply of an empty page that is not authoritative changes nothing if any config of the source is active, even a single one; every other apply leaves exactly the configs of the page active |
| `CatalogLifecycle.AppliedTables` | src/db.rs:3415-3468 | An apply writes the cached list in page order with its address and time, drops the archive entries of exactly the configs on the page, and touches no other entry of either table |
| `CatalogLifecycle.DelistedRowsExactly` | src/db.rs:3427-3447 | A config that an apply misses is delisted now and loses its listing event, a config whose target is retired is delisted now and keeps it, and nothing else of either row changes |
| `CatalogLifecycle.RetiredTables` | src/db.rs:3022-3085 | A retire drops exactly the cached lists of its targets, and leaves archives and samples alone |
| `CatalogLifecycle.ArchivesExactly` | src/db.rs:3155-3197 | After an archive every delisted config is archived for the user, dated now unless it was archived before; no other entry appears and none disappears |
| `CatalogLifecycle.ApplyConsistent` | src/db.rs:3199-3510 | An apply keeps the lifecycle invariants and the agreement of every cached list with the table |
| `CatalogLifecycle.RetireConsistent` | src/db.rs:3022-3085 | A retire keeps them |
| `CatalogLifecycle.ArchiveConsistent` | src/db.rs:3155-3197 | An archive keeps them |
| `CatalogLifecycle.ListedSplits` | src/db.rs:3294-3330 | Listed ids are exactly the fetched ones that were not active, and split into told and pending ones; delisted ids are exactly the active ones missing from the page |
| `CatalogLifecycle.DecisionMatchesRow` | src/db.rs:3307-3365 | The decision and the SQL `CASE` agree: a config is told of exactly if its row goes from no listing event to one dated now |
| `CatalogRuns.HistoriesAreConsistent` | src/db.rs:3022-3510 | Every history of applies, retires and archives from empty tables keeps all invariants |
| `CatalogRuns.LifecycleInvariants` | src/db.rs:3022-3510 | In every history: delisted if and only if dated as delisted, archived implies delisted, active and never told of implies zero stock, and cached lists agree with the table |
| `CatalogRuns.ToldOncePerLifecycle` | src/db.rs:3307-3365 | Each maximal active period of a config is told of once if some fetch of it found stock, and otherwise never |
| `CatalogRuns.ToldAtFirstStock` | src/db.rs:3307-3365 | The telling step is exactly the first fetch of the period that finds stock |
| `CatalogDates.LastRowWins` | src/db.rs:3332-3388 | The row of a fetched config shows the name, digest, stock and source of its last row on the page, and the product id if that row has one |
| `CatalogDates.LastPidWins` | src/db.rs:3366-3388 | Its product id is the last one that the page shows |
| `CatalogDates.PidStays` | src/db.rs:3366-3388 | And a page that shows none leaves the product id as it was |
| `CatalogDates.LastSampleWins` | src/db.rs:3396-3411 | The sample of the minute shows that stock, and never less than zero |
| `CatalogDates.MinutesAreWhole` | src/db.rs:1403-1413 | The minute of a sample is the last whole minute at or before its time |
| `CatalogDates.OtherSamplesStay` | src/db.rs:3396-3411 | Samples of other configs and other minutes stay |
| `CatalogDates.RowsDateTheirLifecycle` | src/db.rs:3356-3360 | In every history an active config is dated with the step that began its active period, and a delisted one with the step that ended it |
| `CatalogDates.EventsDateTheFirstStock` | src/db.rs:3361-3365 | And its listing event with the first fetch of the period that found stock |
| `LifecycleDelivery.Outbox.DeliverRestockFallbacks` | src/ops.rs:2306-2370 | Sends the fallback restocks of one user in order, up to the first failing delivery or the first row without stock, where it panics |
| `LifecycleDelivery.Outbox.DeliverToSubscriber` | src/ops.rs:2383-2510 | Restocks, then additions, then removals for one subscribed user |
| `LifecycleDelivery.Outbox.NotifyLifecycleEvents` | src/ops.rs:2204-2540 | Both loops together send exactly the plan of the run, cut at the first failing delivery or missing text, and end complete, failed or panicked accordingly |
| `LifecycleDelivery.PlanCount` | src/ops.rs:2383-2533 | How often each notice is in the plan: each user is reached by one loop only |
| `LifecycleDelivery.PlanIsInOrder` | src/ops.rs:2383-2533 | The plan goes user by user, subscribers first; each user is told of restocks, then additions, then removals; and each of these follows the lists of the run |
| `LifecycleDelivery.DeliveryIsExclusive` | src/ops.rs:2306-2533 | With distinct ids a user gets at most one notice per listed config: "added" if and only if subscribed and not monitoring, "restock" if and only if monitoring and not left to the user's own poll |
| `LifecycleDelivery.NeverTwice` | src/ops.rs:2306-2533 | At most one notice also when the run stops midway |
| `LifecycleDelivery.RestockToldExactly` | src/ops.rs:2306-2370 | A monitoring user whom the run serves is told of a config told of once exactly if the fallback is allowed and the run does not stop before this notice |
| `LifecycleDelivery.PanicsExactly` | src/ops.rs:2328-2342 | A run whose deliveries succeed panics if and only if some user it serves monitors a told config, is not left to the own poll for it, and the row that was loaded has no stock; otherwise it sends its whole plan |
| `FirstStock.WaitersAreTheJoinedPollers` | src/ops.rs:2025-2042 | While a run holds its task, the waiting users it reads are exactly those whose poll has an unanswered request for the key |
| `FirstStock.NotifyingReasonsHaveWindows` | src/ops.rs:38-45 | A run may notify exactly if one of its reasons has a freshness window |
| `FirstStock.NotifyAfterApply` | src/ops.rs:2165-2189 | A run notifies only for a notifying reason, and then sends and ends as the delivery loops do |
| `FirstStock.ComparePolledConfigs` | src/poller.rs:992-1040 | The poller's comparison loop finds exactly the changes of the specification |
| `FirstStock.ChangeCount` | src/poller.rs:992-1040 | A poll tells of a restock of a config it compares once exactly if the row it read before stood at zero and the row it reads again does not, and never of any other |
| `FirstStock.ChangesAreThese` | src/poller.rs:1012-1028 | A change is reported if and only if both rows exist and the config went from no stock to some or its digest differs, and it says which of the two |
| `FirstStock.TextExistsExactly` | src/ops.rs:2328-2342 | Right after the apply, the row of a config that is told of is in stock if and only if the last row of its id on the page is |
| `FirstStock.AllTextsExistExactly` | src/ops.rs:2328-2342 | If a run loads its rows right after its apply, no text it needs is missing if and only if every config that it means to tell some user of (one who monitors it and is not left to the own poll) ends in stock on the page |
| `FirstStock.DistinctPagesAreTold` | src/db.rs:3307-3330 | If no id repeats, a told config is told of once, ends in stock on the page, and has stock right after the apply |
| `FirstStock.RepeatedIdsBreakTheFallback` | src/ops.rs:2328-2342 | A concrete page with a repeated id for which it does not exist |
| `StockTimeline.StockIsLastShown` | src/db.rs:3332-3388 | In every history a row has the stock of the last row of its config on the last applied page that shows it |
| `StockTimeline.TextsExistByHistory` | src/ops.rs:2328-2342 | For a run that loads its rows at any later moment: no text is missing if and only if, for every config it means to tell some user of, the last page applied before that moment which shows the config leaves it in stock |
| `StockTimeline.UndisturbedRunsTellAll` | src/ops.rs:2204-2540 | If no page applied between the apply and the loading shows a told config without stock and the deliveries succeed, the whole plan is sent |
| `StockTimeline.FallbackCount` | src/ops.rs:2306-2370 | The fallback tells a monitoring user once unless the user waits and the run did not list the config, or the run stops before this notice |
| `StockTimeline.SoldOutIsNotTold` | src/ops.rs:2328-2342 | A config whose last page before the loading leaves it without stock is told to nobody, and the run panics if its deliveries succeed |
| `StockTimeline.RestocksTold` | src/ops.rs:2306-2370 | Over any history and for any failing delivery: one notice from the poll if it sees the row go from zero to stock, and one from the fallback unless a poll of the user waits on the run or the run stops before it; exactly once if and only if the two agree |
| `StockTimeline.FirstStockTold` | src/ops.rs:2317-2321 | If no other update changes the config's stock between the poll's two reads, the poll sees it exactly if it straddles the apply, so the user is told exactly once if and only if straddling agrees with waiting or a stopped run |
| `StockTimeline.FirstStockToldUndisturbed` | src/ops.rs:2317-2321 | And if nothing sells out before the rows are loaded and the deliveries succeed, exactly once if and only if straddling and waiting agree |
| `StockTimeline.ListedStockTold` | src/ops.rs:2306-2370 | A config that the run itself lists is told of by the fallback unless the run stops before it, and by the poll exactly if it straddles the apply and the old row stood at zero |
| `StockTimeline.WaitingIsTheOnlyPoll` | src/ops.rs:2025-2042 | If no other poll of the user is under way, the user waits exactly if this poll joined before the waiters are read and is unanswered then |
| `StockTimeline.FirstStockByTheOnlyPoll` | src/poller.rs:979-1040 | For the only poll of a user, in times of the poll and the stopping of the run, exactly when first stock is told once |
| `StockTimeline.PollsAroundTheApply` | src/poller.rs:979-1040 | A poll that asks before the apply and waits is told by itself, once, of every config it compares; a poll that begins after the waiters are read leaves them to the fallback, which tells unless the run stops before |
| `StockTimeline.DeadRunsSilencePolls` | src/ops.rs:1728-1738 | If the worker of a run takes no step after the rows are loaded, as after a panic, no poll of the page that waits then or asks later gets to read its configs again |
| `StockExamples.ToldTwice` | src/ops.rs:2317-2321 | A valid history in which the user is told twice |
| `StockExamples.NotTold` | src/ops.rs:2317-2321 | Valid histories in which the user is not told: the poll waits but read too late, or does not compare the config |
| `StockExamples.RelistedToldTwice` | src/ops.rs:2306-2370 | A valid history in which a relisted config is told twice to a waiting user |
| `StockExamples.SoldOutPanics` | src/ops.rs:2328-2342 | A valid history in which another page empties the config between the apply and the loading of its row: the monitoring user is not told, and the run panics |
| `KeyedLists.AdditionsSurviveMerging` | src/poller.rs:65-76 | Dropping the known keys from a merged list leaves the new keys of the probe, in order |
| `Topology.MergeTopologyProbeResult` | src/poller.rs:467-518 | The three update-or-push loops compute the merged lists of the specification |
| `Topology.MergeIsAKeyedUnion` | src/poller.rs:467-518 | The merge keeps and adds every key, lets the probe win, keeps keys distinct and is idempotent |
| `Topology.PreserveAmbiguousCountryRegions` | src/poller.rs:822-880 | The loops give back the regions, notices and notice keys of the specification, and report the countries that had any |
| `Topology.PreservedRegionKeys` | src/poller.rs:822-880 | Exactly the previous regions of ambiguous countries come back, and no found region is dropped |
| `Topology.ChangesAreExact` | src/poller.rs:520-628 | Added and removed countries and regions are exactly the key differences; previous minus removed plus added is the next key set |
| `Topology.CountryNamesAreListed` | src/poller.rs:535-543 | A change names its country as the last listed country of that id, and one that is not listed by its id |
| `Topology.ChangesAreSorted` | src/poller.rs:615-627 | All four lists of changes are in id order; regions of one country follow each other, in the order of their ids |
| `Topology.MergedAdditionsAreTheProbes` | src/poller.rs:65-76 | Additions against the merged result equal additions against the raw probe |
| `TopologyService.Service.ReplaceCatalogTopology` | src/db.rs:907-1008 | Replaces the stored topology and drops the notices of targets that are gone, or fails with nothing changed exactly if an id repeats |
| `TopologyService.Service.ListCatalogTaskKeys` | src/db.rs:1074-1106 | Lists exactly the stored countries and regions |
| `TopologyService.Service.ListKnownCatalogTargets` | src/db.rs:2993-3020 | Lists exactly the sources of active configs |
| `TopologyService.Service.KnownCatalogTargetList` | src/poller.rs:785-802 | Lists every known target, and no url key twice |
| `TopologyService.Service.PersistTopologyRegionNotices` | src/poller.rs:259-293 | For every page that was read, stores the last notice found for it or removes the stored one; all other notices stay |
| `TopologyService.Service.PrefetchAddedTargetCatalogs` | src/poller.rs:319-465 | Applies the pages of added targets in order, a country page after its regions and without what they mirror, with their notices; reports exactly the targets whose page is missing, blank or refused |
| `Prefetching.RetainCountryDirectConfigs` | src/upstream.rs:96-122 | The filter of a country page computes the specified list |
| `Prefetching.UnmirroredMembers` | src/upstream.rs:96-122 | A country page keeps exactly those of its configs that no region page mirrors: none has the same product id, or, if neither has one, the same digest |
| `Prefetching.ConfigsForExactly` | src/poller.rs:388-418 | A country page that lists regions is applied without what the region pages of that country applied before share with it; every other page is applied whole |
| `Prefetching.FetchedExactly` | src/poller.rs:388-418 | And what was applied before are exactly the configs of the region pages that were applied |
| `Prefetching.FailsExactly` | src/poller.rs:360-432 | A target fails exactly if its page is missing, or is a country page without regions and configs, or would delist all active configs of the target without proof |
| `TopologyService.Service.ApplyTopologySnapshot` | src/poller.rs:882-928 | The snapshot takes the new lists, keeps only notices and notice keys of current targets, and adds the found ones |
| `TopologyService.Service.RefreshCatalogTopology` | src/poller.rs:53-143 | A refresh is refused with nothing changed, or has exactly the specified effect on the catalog tables, the stored topology and notices, the snapshot and the report |
| `TopologyService.Service.ProbeCatalogTopology` | src/poller.rs:145-236 | A probe is refused with nothing changed, or has exactly the specified effect on all of these |
| `TopologyRefresh.RefreshLeavesOnlyCurrentSources` | src/poller.rs:53-101 | After a refresh every active config comes from a target of the stored topology, and the state is sound again |
| `TopologyRefresh.AmbiguousCountriesKeepTheirRegions` | src/poller.rs:822-880 | A region that the snapshot holds for an ambiguous country stays a target, is not reported removed, none of its configs is retired, and its set of active configs is unchanged by the whole refresh |
| `TopologyRefresh.RefreshRetiresExactlyTheStale` | src/poller.rs:83-101 | A refresh retires an active config if and only if its source is no longer a target |
| `TopologyRefresh.RefreshReportsExactly` | src/poller.rs:53-143 | A refresh reports as added exactly the stored countries and regions that the snapshot lacked, as removed exactly those of the snapshot that are no longer stored, with their names, and as dropped exactly the known targets that are no targets any more |
| `TopologyRefresh.ProbeReportsExactly` | src/poller.rs:145-236 | A probe reports exactly what it adds, and nothing as removed, dropped or retired |
| `TopologyRefresh.KnownExactly` | src/poller.rs:785-802 | The known targets are exactly the stored ones, the sources of active configs, and the regions and countries without regions of the snapshot |
| `TopologyRefresh.ProbeOnlyAdds` | src/poller.rs:145-236 | A probe keeps every target of the previous snapshot, with exactly the active configs it had, and the state sound |
| `AddedTargets.AddedOnce` | src/poller.rs:319-465 | After a merge each target that is new is prefetched exactly once, and no other |
| `AddedTargets.RegionsComeFirst` | src/poller.rs:319-358 | A country page is prefetched after all added regions of the country |
| `AddedTargets.PrefetchedNotice` | src/poller.rs:434-452 | A target that is prefetched is reported as failed with its stored notice untouched, or stores the notice of its page |
| `TopologyNotices.PreservedNotices` | src/poller.rs:856-876 | Preserving ambiguous countries keeps every found notice, and brings back only the previous notice of a preserved place |
| `TopologyNotices.NoticesAfterRefresh` | src/poller.rs:882-928 | After a refresh a place shows the found notice; without one a current target keeps its notice, a region that is gone has none, and a current target stays known as read |
| `NoticeStorage.GivenBack` | src/poller.rs:822-880 | Preserving ambiguous countries brings back the notice and the read mark of exactly the places it gives back |
| `NoticeStorage.RefreshTexts` | src/poller.rs:53-143 | For every place of the topology that a refresh stores: what memory shows for it and what is stored for it, from the crawl, the pages and the state before |
| `NoticeStorage.RefreshAgreesExactly` | src/poller.rs:53-143 | Hence exactly when memory and store agree on a place of the new topology: an added place whose page was applied, if that page has the notice that memory shows; any other place, if the crawl found a notice, or read the page without one while memory holds none or the place is given back, or did not read it and they agreed before |
| `NoticeStorage.AddedRegionAgreesExactly` | src/upstream.rs:187-234 | As a crawl reads country pages only, an added region agrees exactly if its applied page has the notice that memory held before (which is none for a region never seen), or, if its page failed, if they agreed before |
| `NoticeStorage.ProbeTexts` | src/poller.rs:145-236 | The same two texts for every place that is a target after a probe |
| `NoticeStorage.ProbeAgreesExactly` | src/poller.rs:145-236 | Hence exactly when they agree after a probe: an added place as after a refresh; a known place if its page was ever read, even if they had gone apart, or if they agreed before |
| `NoticeStorage.FetchAgrees` | src/ops.rs:3043-3061 | A page fetched through the queue sets its notice in memory and in the store, and changes no other place |
| `NoticeStorage.FetchMarksTheRead` | src/ops.rs:3043-3061 | A fetched page marks its own place as read, and no other |
| `TopologyRuns.UpdatesSetNotices` | src/ops.rs:2104-2165 | A fetched page that is refused changes nothing, and any other sets its notice in memory and in the store and no other notice |
| `TopologyRuns.RunsStaySynced` | src/poller.rs:53-236 | After any refreshes, probes and catalog updates the snapshot shows the stored topology, which repeats no id, and holds one notice per place at most |
| `TopologyRuns.ProbeFailsExactly` | src/db.rs:387-394 | In every run, exactly when a whole probe fails: it finds no country although one is stored or a config is active, or it finds a region id under another country than the snapshot holds it, or under two |
| `TopologyRuns.RefreshFailsExactly` | src/db.rs:387-394 | The same for a whole refresh: it finds no country although one is stored or a config is active, finds an id twice, or finds a region id under another country than an ambiguous country holds it |
| `TopologyRuns.MovedRegionBreaksAProbe` | src/db.rs:387-394 | A run after which a probe, and a refresh with an ambiguous country, fail on a moved region although what they found can be stored |
| `TopologyRuns.VanishedNoticeStaysInMemory` | src/poller.rs:882-928 | A run after which memory shows a notice that is no longer stored, until the next probe |
| `TopologyRuns.AddedRegionGoesApart` | src/poller.rs:434-452 | A run after which the store holds the notice of an added region and memory none; a probe leaves it at that, and any fetch of the page through the queue makes them agree |
| `Calendar.YearStartClosedForm` | src/lazycat.rs:1332-1337 | Day counts by month lengths equal the Gregorian closed form, for every year |
| `Calendar.InstantRoundTrip` | src/lazycat.rs:1298-1304 | Reading a local time's instant back at its offset gives that local time |
| `Cycles.MeasuredLength` | src/lazycat.rs:1332-1337 | The day difference of two firsts is the Gregorian month length, and is missing exactly at the end of the calendar |
| `Cycles.AnchorByIndex` | src/lazycat.rs:1310-1330 | An anchor is the clamped day of the month so many months away |
| `Cycles.AnchorDay` | src/lazycat.rs:1316-1318 | The day of an anchor is the reset day if the month has it, the last day of the month if the reset day is beyond it, and otherwise the first |
| `Cycles.SingleStepsAreOneJump` | src/lazycat.rs:1272-1285 | k single-month steps equal one jump of k months, also through short months |
| `Cycles.ComputeTrafficCycleStart` | src/lazycat.rs:1267-1287 | The search loop ends, finds the specified start, and never takes its guard against a boundary that does not advance |
| `Cycles.ComputeTrafficCycleWindow` | src/lazycat.rs:1257-1265 | The window of the specification |
| `Cycles.WindowAfterReset` | src/lazycat.rs:1267-1287 | From the last reset on, the window is the chain window that holds the reference, and is missing exactly if the calendar cannot hold its end |
| `Cycles.WindowInferred` | src/lazycat.rs:1289-1308 | Otherwise it lies between two consecutive midnight anchors around the reference, at the reference's offset or the provider's if that is UTC |
| `Cycles.WindowContainsReference` | src/lazycat.rs:1257-1296 | Every window contains its reference |
| `Cycles.WindowExistsUpToTheLastBoundary` | src/lazycat.rs:1272-1285 | Exactly when there is a window after the last reset |
| `Cycles.RestartingDoesNotDrift` | src/lazycat.rs:1272-1285 | Restarting the search from any boundary of the chain gives the same window |
| `Cycles.WindowsAfterResetTile` | src/lazycat.rs:1272-1285 | Windows of two references after the reset coincide or are disjoint, and each ends where the next starts |
| `Cycles.InferredWindowsTile` | src/lazycat.rs:1289-1296 | So do two inferred windows at one offset |
| `Cycles.WindowsAcrossReset` | src/lazycat.rs:1272-1286 | Some window before the reset overlaps one after it if and only if the reset is not a midnight anchor at the reference's offset and the calendar holds the anchors around it and after it |
| `Cycles.WindowsCanOverlapAcrossReset` | src/lazycat.rs:1272-1286 | A concrete overlap |
| `Cycles.CycleLength` | src/lazycat.rs:1257-1265 | A cycle lasts 28 to 31 days, and one that starts at the reset date 1 to 61 |
| `TrafficSamples.TruncateToHour` | src/lazycat.rs:1339-1344 | The whole UTC hour at or before an instant |
| `TrafficSamples.SamplesAreWellPlaced` | src/lazycat.rs:1198-1232 | Every built sample lies in its cycle and in its hour |
| `TrafficSamples.SamplesAreExact` | src/lazycat.rs:1198-1232 | There is a sample exactly if the snapshot is fresh, reset day, used and limit and sync time are present, the cycle has a window and all four times have four-digit years; it carries the measured values, the sync time and its hour, and the window of the cycle |
| `TrafficSamples.SampleTable.Upsert` | src/db.rs:1861-1910 | Writes one row and keeps the creation date of a row that exists |
| `TrafficSamples.RowsAreTheWrittenKeys` | src/db.rs:1861-1910 | After any history the rows are exactly the written keys |
| `TrafficSamples.LastWriteWins` | src/db.rs:1880-1889 | Each row holds the last write of its key |
| `TrafficSamples.FirstWriteDatesTheRow` | src/db.rs:1880-1889 | And was created by the first |
| `TrafficSamples.CycleRowsBound` | src/db.rs:540-555 | A cycle of d days holds at most 24 d rows, and one more if it starts off the hour |
| `TrafficSamples.BuiltCycleRowsBound` | src/db.rs:540-555 | In every history of built samples a cycle holds at most 745 rows, or 1465 if some sample of it starts at its reset |
| `RefreshManager.CatalogRefreshManager.PassManualGate` | src/catalog_refresh.rs:97-107 | A user passes exactly if the last pass is at least 30 seconds of clock readings ago, and then it is remembered |
| `RefreshManager.CatalogRefreshManager.Trigger` | src/catalog_refresh.rs:91-147 | A limited trigger changes nothing; any other starts a job exactly if none is running |
| `RefreshManager.CatalogRefreshManager.FinishError` | src/catalog_refresh.rs:149-157 | Ends the shown job with a message and broadcasts it |
| `RefreshManager.CatalogRefreshManager.UpdateProgress` | src/catalog_refresh.rs:169-177 | Sets the counters and the current target and broadcasts them |
| `RefreshManager.CatalogRefreshManager.VisitTarget` | src/catalog_refresh.rs:219-267 | One target: what is announced, whether its fetch is forced, and the updates for each way it can end |
| `RefreshManager.CatalogRefreshManager.RunFullRefreshJob` | src/catalog_refresh.rs:186-276 | The loop broadcasts exactly the specified updates and sends exactly the specified requests |
| `RefreshManager.RequestsAreForcedExactly` | src/catalog_refresh.rs:219-267 | A job sends one request per target in order, and forces a fetch exactly if the cached page is at most five minutes old and the notice of the region was never read |
| `RefreshManager.AnnouncementsAreHonest` | src/catalog_refresh.rs:219-267 | A target is announced as a cache hit exactly if the page is that fresh and the notice was read, and as bypassing the cache exactly if its fetch is forced |
| `RefreshRuns.UpdatesFit` | src/catalog_refresh.rs:109-177 | Every step either leaves the status and the history alone or adds one update, made by the job it shows, that does not lower the count |
| `RefreshRuns.OneJobAtATime` | src/catalog_refresh.rs:109-147 | In every run at most one job is alive, and the status is running exactly while it is |
| `RefreshRuns.UpdatesAreInOrder` | src/catalog_refresh.rs:109-177 | In every run each update is made by the job it shows, jobs never go back, and within a job the count never falls and never exceeds the total |
| `RefreshRuns.UpdatesDisplay` | src/catalog_refresh.rs:149-177 | In every run an update has a message exactly if it is an error, and a current target only while its job runs; an error leaves some target undone |
| `RefreshRuns.StepsDisplay` | src/catalog_refresh.rs:109-177 | What each step puts on display: the job that begins, the announced target, one more target done, the success or the error message |
| `RefreshRuns.SuccessMeansAllDone` | src/catalog_refresh.rs:197-276 | A success shows the count of its job's targets as done and the larger of that and one as total, so 0 of 1 if and only if there were no targets |
| `RefreshRuns.EmptyRefreshSucceeds` | src/catalog_refresh.rs:197-276 | A run that ends as a success of 0 of 1 |
| `RefreshRuns.PassesAreApart` | src/catalog_refresh.rs:97-107 | Any two passes of one user's manual triggers are at least 30 seconds apart, even if the clock is set back |
| `RefreshRuns.RefusedOnlyAfterAPass` | src/catalog_refresh.rs:97-107 | And in every run a trigger passes exactly if every earlier pass of its user is at least 30 seconds ago |
| `RefreshRuns.PassesAreSpentOnce` | src/catalog_refresh.rs:91-147 | In every run the passes are exactly the limited triggers that began plus those that are still on their way |
| `RefreshRuns.JobsAreRuns` | src/catalog_refresh.rs:179-276 | What the job loop broadcasts is what a run of the machine's steps broadcasts |
| `Timestamps.CanonicalOrder` | src/db.rs:1394-1401 | Text order of the fixed-width timestamps is time order, and equal texts mean equal instants |
| `Timestamps.CanonicalRoundTrip` | src/db.rs:11-12 | The fixed-width text reads back as the same instant |
| `Timestamps.LogTextsAreExact` | src/db.rs:1388-1392 | A log text is its second followed by the nine digits of nanoseconds without the zeros at their end, or by nothing at a whole second |
| `Timestamps.LogOrder` | src/db.rs:1388-1392 | Exactly when two log timestamps sort by text in time order |
| `Timestamps.LogTimesCanBeOutOfOrder` | src/db.rs:1388-1392 | Two log times whose texts sort against their times |
| `Pagination.CursorSplits` | src/db.rs:3692-3702 | A cursor splits back at its last colon although the timestamp contains colons |
| `Pagination.FirstCursors` | src/db.rs:13 | Without a cursor the listings start at their latest timestamps and the id "zzzz" |
| `Pagination.TrimIsExact` | src/db.rs:4024-4031 | Trimming the parts of a cursor takes exactly the blanks at both ends |
| `Pagination.ListLogs` | src/db.rs:3685-3748 | The page after the cursor, with a next cursor exactly if more rows remain |
| `Pagination.ListNotificationRecords` | src/db.rs:4018-4084 | The same for notification records, the cursor's timestamp being read and written anew |
| `Pagination.BeforeIsExact` | src/db.rs:3704-3727 | The rows before a cursor are each listed once, strictly descending |
| `Pagination.PageIsExact` | src/db.rs:3685-3748 | A page's next cursor stands between its rows and all rows still to come |
| `PageWalks.WalksDescend` | src/db.rs:3685-3748 | Even if rows come and go between pages, following the cursors lists nothing twice |
| `PageWalks.WalksMissNothing` | src/db.rs:3685-3748 | And misses no row that was there all the time |
| `PageWalks.FollowingListsAll` | src/db.rs:4018-4084 | Over an unchanging table it lists exactly the matching rows, newest key first, for every page size, and stops |
| `Listings.FirstCursorIsAboveRecords` | src/db.rs:13 | The first cursor is above every record that can be written, including one at the last nanosecond of year 9999 |
| `Listings.FirstCursorIsAboveLogs` | src/db.rs:3702 | And above every log, although its text is not the latest time |
| `Listings.AllLogsAreListedOnce` | src/db.rs:3685-3748 | Following the cursors lists exactly the logs of the user at the level, or at every level if none is asked for, each once, and stops |
| `Listings.AllRecordsAreListedOnce` | src/db.rs:4018-4084 | Following the cursors lists every notification record of the user exactly once, newest first, and stops |

## Left out

- HTTP, TLS retries and HTML parsing: a fetch is any page that meets what the parser guarantees (source and id prefix of the fetched page, quantity at least zero).
- Handlers, same-origin checks, configuration, the event stream and its replay, the update check, and account sync generations of the traffic importer.
- Sending over Telegram and Web Push, message wording, links and delivery records: a delivery is one appended notice. The zero-stock log lines of a run are not modelled.
- The clock, random ids and the row ids of the database are parameters; a job id is the next number.
- Database errors, except where they decide the outcome (starting a task, storing a topology, looking up a cache row in a refresh job). A failed transaction changes nothing.
- Trimming of page ids, region ids, reasons, product ids and notices: they are taken as trimmed, and a notice as not blank.
- Worker display fields, queue snapshots and published events of the fetch queue; two workers may display one key, and ownership is about the span between pop and removal.
- A cancelled or panicking task: enqueue calls run to completion, and a refresh job that panics is not modelled. A run that panics over a missing text is modelled; that its worker then takes no further step is a condition on the history (`StockTimeline.Dies`), not a step of the queue.
- Prices are not kept in the store, so the poller's price event is not modelled; restock and configuration events are.
- Specs, inventory status text and display names beyond those compared; when rows and notices were updated.
- The order of id lists that the program builds from hash sets: these lists are sets here.
- Deadlines and scheduling of topology refreshes and probes; the notices about topology changes are reported lists.
- Machine integer widths: counters and quantities stay far below 64 bits, and the day counts of the calendar are bounded by its years.
- Timestamps whose year is outside 0 to 9999 in UTC, and the panic of an offset conversion at the ends of the calendar.
- Schema creation, migrations, cleanup, statistics, and the web interface.
- Timestamps.CanonicalOrder: stated for years 0 to 9999, the years that RFC 3339 timestamps can have.
- Listings.AllRecordsAreListedOnce: the RFC 3339 reader is a parameter that is only assumed to read the fixed-width texts; `Listings.CanonicalReaderReads` gives one that does.
- StockTimeline.FirstStockTold: assumes distinct ids on the page of the run (what repeated ids do is `FirstStock.AllTextsExistExactly`) and no other change of the config's stock between the poll's two reads; `StockTimeline.RestocksTold` counts without the latter. It counts the notices of one poll and one run, and the settings of users do not change while the run notifies.
- StockTimeline.ListedStockTold: the same.
- NoticeStorage.RefreshAgreesExactly: takes a refresh or probe as one step; a page fetched through the queue while one is under way is not modelled.
