# Verified model of the Geeta Print back end

This Dafny project models the parts of the print-ordering back end where correctness depends on more
than one function: the cache stack and how it stays close to the database while reads, writes and
invalidations interleave; the rule that a vendor belongs to one channel partner at a time, and the
reports and the "view as vendor" switch that rest on it; the workflow templates whose chain of
dependencies makes approval gates hold; manual journals and the chart of accounts; matrix prices; the
metrics store; and the codecs (CSV, slugs, vendor codes, dimension keys).

`dafny verify dfyconfig.toml` checks everything.

## How it is modelled

- An object that changes in place is a class whose methods are proved against specification functions
  over its state (`TtlCache`, `RedisCache`, `RequestCache`, `MetricsStore`, the partner service over its
  tables, the override service, the workflow tables, the books, an HTTP request). What the system promises is then
  proved about those functions.
- Asynchronous code is split at each `await` into atomic steps. `TtlProtocol`, `RedisProtocol`, `DeliverySettings`
  and `SingleFlight` are state machines over these steps, and their theorems hold for every sequence of
  events: a `Run`. An event that is not possible in a state changes nothing there. `RedisRefinement` and
  `SingleFlightRefinement` join the classes to the steps.
- What the specification functions compute is stated a second time in terms that do not use them: field by
  field, position by position, or by what one more record, order, rule or posting changes.
- Cached copies carry the instant and the history entry they were read from, so "this really was the
  value, so many milliseconds ago" can be stated. These marks never influence a step.
- The database is a set of maps; Redis is a map with expiry times; clocks, generated ids, Unicode
  lower-casing and e-mail lookups are parameters. Money is whole paise where the columns store
  paise, and exact rupees before.

| file | models |
|---|---|
| `Common.dfy` | optional values, results, the history of a stored value |
| `TtlCache.dfy` | the in-memory cache, the per-version caches, and the cache under concurrency |
| `RedisCache.dfy`, `RedisProtocol.dfy` | the shared cache on Redis, and one of its keys under concurrency |
| `DeliverySettings.dfy` | the settings row behind two cache levels, over many server processes |
| `RequestCache.dfy` | the request-scoped cache and its counters |
| `Partners.dfy`, `PartnerView.dfy`, `PartnerStats.dfy` | channel partners, viewing as a vendor, network figures |
| `Overrides.dfy` | vendor price overrides and their cache |
| `DimensionKeys.dfy`, `MatrixLookup.dfy`, `MatrixPricing.dfy` | the hash of a dimension key, price matrix lookup, modifier rules, rounding |
| `Metrics.dfy`, `MetricsHistory.dfy` | the metrics store, the repeated-query detector |
| `WorkflowSeed.dfy`, `WorkflowGates.dfy` | template seeding, and what the chain guarantees at run time |
| `Ledger.dfy` | manual journals, reversals, balances |
| `Category.dfy`, `Csv.dfy`, `Text.dfy`, `Slug.dfy`, `VendorCode.dfy` | category closure, CSV, decimal texts, slugs, vendor codes |

## What the proofs found

Where a promise of the code or its comments does not hold for all inputs, the model keeps the code's
behaviour and the theorem says exactly when the promise holds.

- **Cache invalidation.** `TtlCache.invalidate` protects later reads exactly when no load that read an
  older value is still to be stored (`InvalidationIsEffectiveIff` in `TtlProtocol`). A Redis delete that
  is awaited and arrives protects later reads exactly when no outdated reading can still be written
  (`DeleteIsEffectiveIff`). The settings `update` does not wait for its delete and tolerates its failure
  (`redis-cache.ts:86-88`), so later reads in the same process see the new row in every continuation,
  whatever happens before the write returns, exactly when no live Redis entry, no landing Redis write and
  no settling load of that process exists at the write (`UpdateIsSeenIff`). A process sends its commands in order, so its own reads do not
  overtake its delete: the stale read of a live entry needs the delete to fail. Once the delete has
  arrived, only copies still to be written matter (`LandedDeleteShowsIff`). The staleness bounds
  hold always.
- **First reads of the settings.** Two processes that both find no row both try to create it: one call is
  rejected (`RacingCreatesRejectOne`).
- **Redis counters.** A cached JSON `null` is counted as a hit and as a miss (`GetOrLoad`).
- **Approval gates.** The chain gates, except that an automatically skipped step counts as done at
  once: a skip between two kept steps opens the later one while the earlier is unfinished
  (`GatesAlwaysHoldIff`).
- **Journals.** The comment in `posting.service.ts` says a stored entry is always exactly equal on both
  sides. That holds before the two-decimal columns round each line. Afterwards it holds exactly when
  the rounded debits minus the rounded credits of the request are its rounded difference, which can be
  computed before posting (`StoredImbalanceIs`, `StoredEntryIsNearlyBalanced`), as they are when all
  amounts are whole paise. Over a run the chart is off by exactly the sum of these imbalances
  (`ReachableChartIsOffBy`), and it balances throughout, at every cut-off, exactly when every accepted
  request is stored in balance (`ReachableChartsBalanceIff`). A request has at most 60 lines, so an entry
  is stored at most 30 paise out of balance, and the chart at most 30 paise for each entry
  (`ReachableChartNearlyBalances`); both are reached, for any number of entries, with two accounts
  (`ThirtyPaiseAreReached`, `ChartBoundIsReached`), so two paise an entry and half a paisa an account do
  not suffice.
- **Reversals.** `reverse` posts the mirror image and also marks the original `REVERSED`, which the
  balances no longer count. The effect is taken off twice: the balance ends up negated, and a balance
  as of a date before the reversal changes, although the reversal is dated later to prevent just that
  (`ReversalCancelsIff`, `ReportedBalanceKeptIff`). An entry stored more than two paise out of balance,
  or with fewer than two lines that were not rounded to nothing, cannot be reversed at all
  (`ReversibleIff`).
- **Dimension keys.** The hash is described as canonical and is what uniqueness relies on. It is
  independent of order, and tells keys apart when no name holds `&` or `=` and no value holds `&`. While the
  stored bands are labels as the price grid offers them, which hold no `&`, it tells all keys of a product
  apart, and all lookups return the price of the wanted cell and of the band of the quantity, exactly when
  the product has at most one field besides the band, whatever the values hold (`HashTellsAllApartIff`,
  `LookupsAreRightIff`). The route that saves cells takes any text as a band; then the same holds exactly
  when there is no field besides the band (`HashTellsAllNamedApartIff`, `LookupsAreRightForAnyBandsIff`).
  In all other cases a lookup can return another cell's price (`SeparatorFindsAnotherCell`,
  `BandSeparatorFindsAnotherCell`).
- **CSV.** A row without cells prints as an empty line and reads back as one empty field (`RoundTripIff`).
- **Vendor codes.** Numbers below 1000 format to codes that do not parse, and displaying a legacy code
  with leading zeros changes whether it is valid (`ParseFormatIff`, `DisplayKeepsNumberIff`).
- **View as vendor.** The comment in `partner-view.ts` speaks of GET and HEAD; the rule also accepts
  OPTIONS. The model follows the rule.
- **Slugs.** The slug of a slug is the slug unless it was cut at 80 right after a hyphen (`SlugOfSlugIff`).

## Model

| member | source | states |
|---|---|---|
| TtlCaching.TtlCache.Cached | src/common/cache/ttl-cache.ts:8-13 | the value while it has not expired, nothing otherwise |
| TtlCaching.TtlCache.Store | src/common/cache/ttl-cache.ts:19-22 | a finished load replaces the value and starts a full TTL from the moment of storing |
| TtlCaching.TtlCache.Invalidate | src/common/cache/ttl-cache.ts:25-28 | the cache is as new |
| TtlCaching.VersionCaches.CacheFor | src/repositories/pricing.repository.ts:47-56 | a version keeps its one cache; asking for a new version changes no other |
| TtlCaching.VersionCaches.InvalidateVersion | src/repositories/pricing.repository.ts:154-156 | empties exactly that version's cache |
| TtlCaching.VersionCaches.InvalidateAll | src/repositories/pricing.repository.ts:171-173 | empties every version's cache |
| TtlProtocol.RunKeepsInv | src/common/cache/ttl-cache.ts:8-28 | over every run each copy stored or in flight was the source's value at the instant it is marked with |
| TtlProtocol.AnswersAreRecent | src/common/cache/ttl-cache.ts:8-28 | in every interleaving every answer was the source's value less than ttl + lag before |
| TtlProtocol.FailedLoadIsNotAnswered | src/common/cache/ttl-cache.ts:15-23 | a call whose load fails is never answered, and the cache stays as it is |
| TtlProtocol.StalenessBoundIsSharp | src/common/cache/ttl-cache.ts:15-23 | some run serves a value exactly ttl + lag - 1 old after the source has changed |
| TtlProtocol.NoLiveStaleCopyIsKept | src/common/cache/ttl-cache.ts:15-28 | once no outdated copy can reach a later caller, none ever will, however loads overlap |
| TtlProtocol.StaleLoadIsServedLater | src/common/cache/ttl-cache.ts:15-28 | a stale load in flight across an invalidation is served to a later caller |
| TtlProtocol.InvalidationIsEffectiveIff | src/common/cache/ttl-cache.ts:15-28 | an invalidation protects all later reads in every continuation iff no stale load is in flight |
| RedisCaching.RedisCache.Get | src/common/cache/redis-cache.ts:34-51 | connected, a live key gives what it holds and counts one hit, a stored null included; an absent or expired key and a lost connection give nothing and count nothing |
| RedisCaching.RedisCache.Set | src/common/cache/redis-cache.ts:53-66 | stores for the TTL while connected, else changes nothing |
| RedisCaching.ReadBack | src/common/cache/redis-cache.ts:34-66 | a value stored while connected is read back before its time to live is over and not from then on; other keys give what they gave; without a connection nothing is given |
| RedisCaching.RedisCache.GetOrLoad | src/common/cache/redis-cache.ts:68-80 | for a call alone: a live value is returned and counted as a hit; otherwise the load is returned, stored for the TTL while connected, and counted as a miss, a cached null counting as both |
| RedisCaching.RedisCache.Del | src/common/cache/redis-cache.ts:82-89 | removes exactly the key |
| RedisCaching.RedisCache.DelByPrefix | src/common/cache/redis-cache.ts:91-104 | the batched scan leaves exactly the keys without the prefix |
| RedisProtocol.RunKeepsInv | src/common/cache/redis-cache.ts:34-80 | over every run each copy in Redis, in a load or in a write under way was the source's value at the instant it is marked with |
| RedisProtocol.AnswersAreRecent | src/common/cache/redis-cache.ts:68-80 | in every interleaving, outages included, an answer was the source's value less than ttl + lag before |
| RedisProtocol.FailedLoadIsNotAnswered | src/common/cache/redis-cache.ts:73-79 | a call whose load fails is never answered, and Redis stays as it is |
| RedisProtocol.StepKeepsNoLiveStaleCopy | src/common/cache/redis-cache.ts:68-89 | no single step brings an outdated copy back within reach of a later call |
| RedisProtocol.StaleSetIsServed | src/common/cache/redis-cache.ts:76-79 | an outdated write under way lands after a delete and is served |
| RedisProtocol.DeleteIsEffectiveIff | src/repositories/vendor-price-override.repository.ts:55-57 | an awaited delete protects all later reads in every continuation iff no outdated reading can still be written |
| RedisRefinement.NewCache | src/common/cache/redis-cache.ts:29-32 | a new cache stands for the start of a run, for any key |
| RedisRefinement.GetOnce | src/common/cache/redis-cache.ts:34-51 | a get on the object is the step of the reply: it gives the answer of that step, or nothing when the step sends the call on to the source |
| RedisRefinement.SetOnce | src/common/cache/redis-cache.ts:53-66 | a set is the landing of the write, or its loss without a connection, and touches no other key |
| RedisRefinement.DelOnce | src/common/cache/redis-cache.ts:82-89 | a del is the step of deleting, or none without a connection, and touches no other key |
| RedisRefinement.GetOrLoadOnce | src/common/cache/redis-cache.ts:68-80 | a call that nothing interleaves with is a run of the protocol, gives the answer of that run, and counts it as the hit or miss it is |
| DeliverySettings.UpsertAgreesWithCreateThenUpdate | src/repositories/delivery-settings.repository.ts:66-99 | updating a missing row and updating a freshly created default row give the same settings |
| DeliverySettings.UpsertIsIdempotent | src/repositories/delivery-settings.repository.ts:75-95 | sending a patch twice is sending it once |
| DeliverySettings.RowReadsBack | src/repositories/delivery-settings.repository.ts:15-32 | the settings read from a row are its own fields; a created row has charge 100, delivery and pickup on, and an empty configuration |
| DeliverySettings.UpdateReadsBack | src/repositories/delivery-settings.repository.ts:75-95 | field by field: what was sent is read back, and what was not is as it was, or as the defaults have it when there was no row |
| DeliverySettings.AnswersShowStoredRow | src/repositories/delivery-settings.repository.ts:35-59 | until an update, in every interleaving and through both caches, an answer shows the stored row's own fields, or the defaults when there was no row |
| DeliverySettings.RacingCreatesRejectOne | src/repositories/delivery-settings.repository.ts:42-53 | of two first calls that both find no row one creates it and is answered the defaults, the other is rejected |
| DeliverySettings.FailedLoadIsNotAnswered | src/repositories/delivery-settings.repository.ts:35-59 | a call whose load fails is never answered |
| DeliverySettings.AnswersShowUpdate | src/repositories/delivery-settings.repository.ts:66-103 | however the run goes on, an answer from the row an update wrote shows each field that was sent and keeps the others |
| DeliverySettings.RunKeepsInv | src/repositories/delivery-settings.repository.ts:35-64 | every copy in any local cache, in Redis or under way was the row at the instant it is marked with |
| DeliverySettings.StepKeepsNoLiveStaleCopy | src/repositories/delivery-settings.repository.ts:35-64 | no single step brings an outdated copy back within reach of a later call |
| DeliverySettings.AnswersAreBoundedlyStale | src/repositories/delivery-settings.repository.ts:35-64 | in every interleaving over all processes an answer was the row less than local TTL + Redis TTL + 2 lags before, a local hit one millisecond less, other answers without the local TTL |
| DeliverySettings.StalenessBoundsAreSharp | src/repositories/delivery-settings.repository.ts:35-64 | a run attains the bound of an answer through Redis and that of a local hit, with a row changed right after it was read |
| DeliverySettings.StaleCopyIsServed | src/repositories/delivery-settings.repository.ts:61-64 | any stale copy at large has a continuation, at worst with a failed delete, in which a later call is served it |
| DeliverySettings.InvalidationShowsIff | src/repositories/delivery-settings.repository.ts:61-64 | an invalidation protects the process's later reads from copies older than a moment iff none is at large |
| DeliverySettings.InvalidationIsEffectiveIff | src/repositories/delivery-settings.repository.ts:61-64 | an invalidation protects the process's later reads iff no stale copy is at large |
| DeliverySettings.LandedDeleteShowsIff | src/repositories/delivery-settings.repository.ts:61-64 | once the delete has arrived, later reads are protected iff no older copy is still to be written to Redis or to the process's own cache |
| DeliverySettings.RunKeepsNoneAtLarge | src/repositories/delivery-settings.repository.ts:75-101 | once no copy older than the write is at large, none ever is |
| DeliverySettings.UpdateIsSeenAfterIff | src/repositories/delivery-settings.repository.ts:66-103 | for any events before the write returns, later reads see the written row iff no older copy is at large when the invalidation runs |
| DeliverySettings.UpdateIsSeenIff | src/repositories/delivery-settings.repository.ts:66-103 | whatever happens before the write returns, later reads of the process see the written row iff at the write Redis is empty and nothing can land or settle |
| DeliverySettings.UpdateIsShown | src/repositories/delivery-settings.repository.ts:66-103 | under that condition every later call of the process shows, until the next write, each field that was sent and the others as they were |
| RequestCaching.RequestCache.GetOrLoad | src/common/cache/request-cache.ts:8-17 | joins the running load of the key, or starts and remembers one |
| RequestCaching.RequestContext.GetRequestCache | src/common/cache/request-cache-accessor.ts:10-17 | the request's one cache, created on first use |
| RequestCaching.LoadOncePerRequest | src/common/cache/request-cache-accessor.ts:30-48 | a known key is a hit and shares the load, a new one is a miss and starts it; without a context nothing is shared or counted |
| RequestCaching.Promise.Settle | src/common/cache/request-cache.ts:14-16 | a promise keeps its first outcome |
| SingleFlight.RunKeepsInv | src/common/cache/request-cache-accessor.ts:30-48 | over every run the store names exactly one load a key, and every call the load of its key |
| SingleFlight.RunCollectsKeys | src/common/cache/request-cache-accessor.ts:30-48 | the keys stored are those asked for, and the calls as many as the requests |
| SingleFlight.SingleFlightPerRequest | src/common/cache/request-cache-accessor.ts:30-48 | in every interleaving each key loads at most once, callers of a key share its load, misses are the distinct keys, hits + misses the calls |
| SingleFlight.OutcomesAreFinal | src/common/cache/request-cache.ts:8-17 | an outcome, failure included, stays that of every caller of the key |
| SingleFlight.NoContextNoSharing | src/common/cache/request-cache-accessor.ts:10-27 | outside a request every call loads and no counter moves |
| SingleFlightRefinement.NewContext | src/common/cache/request-cache-accessor.ts:10-17 | a new request context stands for the start of a run |
| SingleFlightRefinement.AskOnce | src/common/cache/request-cache-accessor.ts:30-48 | a call on the objects is the step of asking, and returns the promise of that call's load |
| SingleFlightRefinement.SettleOnce | src/common/cache/request-cache.ts:14-16 | the end of a load on the objects is the step of settling |
| Csv.ReadDoubled | src/modules/admin-finance/admin-finance.service.ts:15-19 | inside a quoted field, doubled quotes read back as the text |
| Csv.ReadPrintedCell | src/modules/admin-finance/admin-finance.service.ts:15-19 | a printed cell is read as that cell up to the end of its field |
| Csv.ReadPrintedLine | src/modules/admin-finance/admin-finance.service.ts:21-25 | a printed row and its CRLF add exactly that row's record |
| Csv.ParseToCsv | src/modules/admin-finance/admin-finance.service.ts:21-25 | an RFC 4180 reader gives back the printed lines, whatever quotes, commas and line ends the cells hold |
| Csv.BeginsWithMark | src/modules/admin-finance/admin-finance.service.ts:21-25 | the file begins with the byte order mark, and what follows it is the table |
| Csv.RoundTripIff | src/modules/admin-finance/admin-finance.service.ts:21-25 | the table comes back iff no line of it is without cells |
| Csv.PrintingIsInjective | src/modules/admin-finance/admin-finance.service.ts:21-25 | tables that print alike read alike, and without empty lines hold the same texts |
| Category.ClosedHoldsPath | src/repositories/category.repository.ts:28-33 | a closed set holds everything a path from the root leads to, cyclic paths included |
| Category.ClosedAndReachableIsLeast | src/repositories/category.repository.ts:24-34 | a closed set of reachable ids is the least closed set, which is why the loop may stop |
| Category.ResolveTreeIds | src/repositories/category.repository.ts:21-37 | ends on every node list, cycles included, with exactly the ids reachable from the root, each once |
| Metrics.PushAndShift | src/observability/metrics-store.ts:48-51 | pushing and dropping the oldest keeps the last `limit` of the history |
| Metrics.LastNIsSuffix | src/observability/metrics-store.ts:18-22 | dropping the oldest one by one leaves the suffix of the limit's length |
| Metrics.FirstRequest | src/observability/metrics-store.ts:61-73 | the figures of a first request are those computed over it alone |
| Metrics.NextRequest | src/observability/metrics-store.ts:74-83 | updating an endpoint in place gives the figures computed over all its requests |
| Metrics.CountEndpoint | src/observability/metrics-store.ts:57-83 | the endpoint table stays the fold over the whole history, for exactly the keys that occurred |
| Metrics.CountPattern | src/observability/metrics-store.ts:112-124 | the pattern table stays the fold over all queries |
| Metrics.MetricsStore.RecordRequest | src/observability/metrics-store.ts:47-88 | the store remains what the longer history says it should be |
| Metrics.MetricsStore.RecordSlowRequest | src/observability/metrics-store.ts:90-98 | the slow log is the end of its history |
| Metrics.MetricsStore.RecordQuery | src/observability/metrics-store.ts:100-129 | logs, totals, slow count and patterns agree with the longer history |
| Metrics.MetricsStore.RecordNPlusOne | src/observability/metrics-store.ts:131-136 | the warnings are the end of their history |
| Metrics.MetricsStore.RecordError | src/observability/metrics-store.ts:138-152 | the errors are the end of their history |
| Metrics.MetricsStore.GetPerformanceMetrics | src/observability/metrics-store.ts:154-179 | the reported figures are those of the recorded history, with the whole seconds since the start |
| MetricsHistory.EndpointFiguresAddUp | src/observability/metrics-store.ts:57-83 | endpoint counts, errors and durations add up to those of all requests: none lost or counted twice |
| MetricsHistory.RequestMovesItsEndpoint | src/observability/metrics-store.ts:57-83 | a request starts the figures of its endpoint or adds to its counts, failures from 400 on, its total and its extremes; averages and rates stay right to two decimals; no other endpoint changes |
| MetricsHistory.QueryMovesItsPattern | src/observability/metrics-store.ts:112-124 | a query adds one to its pattern's count and its duration to the total, the average stays right to two decimals, and no other pattern changes |
| MetricsHistory.LogsAreSuffixes | src/observability/metrics-store.ts:18-22 | the logs hold the last 2000 requests, 500 slow ones, 1000 queries, 500 errors and 200 warnings |
| MetricsHistory.PerformanceFiguresAre | src/observability/metrics-store.ts:154-179 | the average is that of the last 2000 requests, the failures and the database time those of all that was recorded |
| MetricsHistory.SumOverAllKeys | src/observability/metrics-store.ts:57-83 | any weight summed endpoint by endpoint is its sum over all requests |
| MetricsHistory.SumIsBetween | src/observability/metrics-store.ts:78-80 | the total lies between count times minimum and count times maximum |
| MetricsHistory.MinMaxAreExtremes | src/observability/metrics-store.ts:79-80 | minimum and maximum are durations of the endpoint and bound all of them |
| MetricsHistory.AverageIsBetween | src/observability/metrics-store.ts:75-82 | min <= total/count <= max, and errors plus successes are the requests |
| MetricsHistory.HealthNeverImproves | src/observability/metrics-store.ts:161-167 | after more records the system health is never reported better |
| MetricsHistory.HealthIff | src/observability/metrics-store.ts:161-167 | over the whole history: critical iff more than 50 slow, 100 failed or 200 errors, healthy iff at most 10, 20 and 50 |
| NPlusOne.RequestContext.AddQuery | src/observability/request-context.ts:136-142 | each pattern's count is its number of occurrences |
| NPlusOne.RequestContext.CheckNPlusOne | src/observability/prisma-performance.extension.ts:40-46 | the reported patterns remain those that reached the threshold |
| NPlusOne.RecordQueryEvent | src/observability/prisma-performance.extension.ts:15-61 | the query is recorded, and a new report reaches the store as one warning, only within a request |
| NPlusOne.WarningCarries | src/observability/prisma-performance.extension.ts:47-53 | the warning names the request, the route and the count, and at most 200 characters of the pattern |
| NPlusOne.ReportedOnceIff | src/observability/prisma-performance.extension.ts:40-53 | a pattern is reported exactly once if it stands at threshold places or more, else never; a threshold below 1 acts as 1 |
| NPlusOne.ReportsCarryThreshold | src/observability/prisma-performance.extension.ts:47-53 | every report carries the threshold as its count, or 1 for a threshold below 1 |
| Partners.ChannelPartners.Promote | src/modules/admin-channel-partners/admin-channel-partners.service.ts:140-191 | the new profile, or the refusal for an unknown account, a non-vendor or a partner |
| Partners.ChannelPartners.Update | src/modules/admin-channel-partners/admin-channel-partners.service.ts:193-207 | changes exactly the fields sent |
| Partners.ChannelPartners.AssignVendors | src/modules/admin-channel-partners/admin-channel-partners.service.ts:215-297 | links the whole batch or, with each reason for refusal, nothing |
| Partners.ChannelPartners.UnassignVendor | src/modules/admin-channel-partners/admin-channel-partners.service.ts:299-325 | ends a live link in its row |
| Partners.ChannelPartners.CreateCommissionPlan | src/modules/admin-channel-partners/admin-channel-partners.service.ts:494-524 | a new active plan archives the partner's active ones |
| Partners.PromotedIff | src/modules/admin-channel-partners/admin-channel-partners.service.ts:140-180 | exactly a vendor without a profile gets one: active, with the fields sent and the admin who did it; each refusal has its one reason |
| Partners.UpdatedFields | src/modules/admin-channel-partners/admin-channel-partners.service.ts:193-207 | each field sent is the one sent, each other stays, and nothing else changes; an unknown partner is refused |
| Partners.AssignedIff | src/modules/admin-channel-partners/admin-channel-partners.service.ts:215-262 | a batch is accepted iff all in it are vendors, none is the partner's own account and none has another partner; the vendors held elsewhere are named |
| Partners.UnassignedFields | src/modules/admin-channel-partners/admin-channel-partners.service.ts:299-325 | exactly a live link can be ended; when, by whom and why are recorded in its row, and the rest of it stays |
| Partners.PlannedPlans | src/modules/admin-channel-partners/admin-channel-partners.service.ts:494-524 | the plan is stored as sent; if active, exactly the partner's active plans are archived as of now |
| Partners.UpsertedAllAt | src/modules/admin-channel-partners/admin-channel-partners.service.ts:264-286 | the upsert loop gives every vendor of the batch, named once or often, one fresh active row and touches no other |
| Partners.AssignKeepsInv | src/modules/admin-channel-partners/admin-channel-partners.service.ts:226-286 | an accepted batch keeps every vendor with at most one partner |
| Partners.UnassignKeepsInv | src/modules/admin-channel-partners/admin-channel-partners.service.ts:299-325 | ending a link keeps the state sound |
| Partners.PlanKeepsInv | src/modules/admin-channel-partners/admin-channel-partners.service.ts:498-521 | a new plan leaves at most one active plan a partner |
| Partners.StepKeepsInv | src/modules/admin-channel-partners/admin-channel-partners.service.ts:140-325 | every operation, accepted or refused, keeps the state sound |
| Partners.StepKeepsRows | src/modules/admin-channel-partners/admin-channel-partners.service.ts:312-322 | no operation deletes a link, a profile or a plan |
| Partners.RunKeepsRows | src/modules/admin-channel-partners/admin-channel-partners.service.ts:209-322 | over every run no row disappears and no profile changes its account |
| Partners.RunKeepsInv | src/modules/admin-channel-partners/admin-channel-partners.service.ts:140-325 | and so does every run |
| Partners.ReachableStatesAreSound | src/modules/admin-channel-partners/admin-channel-partners.service.ts:140-325 | after any operations: one active link a vendor, no self-link, active iff not ended, one active plan a partner, one profile an account, and only vendors' accounts are partners or linked |
| PartnerViewRules.StartsWithIsLiesUnder | src/middleware/partner-view-rules.ts:37-39 | the textual test on the URL is the test whether its path lies under the prefix |
| PartnerViewRules.DecisionIff | src/middleware/partner-view-rules.ts:41-55 | each decision exactly for its requests: reads outside the partner's own, authentication and storage paths are accepted |
| PartnerView.Request.ApplyPartnerViewContext | src/middleware/partner-view.ts:37-86 | by the header itself: the request runs as the vendor it names, the first of several, exactly for a read outside the own, authentication and storage paths by an account whose active profile has a live link to a real vendor; each other case is ignored, refused or not found with the user unchanged, and an absent or empty header does nothing |
| PartnerView.ViewableByOne | src/middleware/partner-view.ts:60-69 | in every reachable state a vendor is viewable by at most one account, never by itself |
| PartnerView.UnassignStopsViewing | src/middleware/partner-view.ts:25-26 | ending a link stops all viewing of the vendor at once |
| PartnerView.AssignStartsViewing | src/middleware/partner-view.ts:59-69 | an active partner can at once view every vendor of an accepted batch |
| PartnerView.ReactivationRestoresViewing | src/middleware/partner-view.ts:59-69 | a partner made active again can view exactly the vendors still linked |
| PartnerView.SuspensionStopsViewing | src/middleware/partner-view.ts:25-26 | suspending a partner stops its viewing at once |
| PartnerView.StepRestoresOrNot | src/middleware/partner-view.ts:59-69 | no other operation lets an account view a vendor it could not view |
| PartnerView.NoViewUntilRestored | src/middleware/partner-view.ts:25-26 | viewing comes back only after an accepted operation that links the vendor or reactivates the profile |
| PartnerStats.ActiveLinksOf | src/modules/admin-channel-partners/admin-channel-partners.service.ts:73-76 | the query lists the active links of the page's partners, each once |
| PartnerStats.VendorsByPartner | src/modules/admin-channel-partners/admin-channel-partners.service.ts:77-83 | one pass over the links collects each partner's vendors in order |
| PartnerStats.VendorsInAre | src/modules/admin-channel-partners/admin-channel-partners.service.ts:77-83 | the vendors collected are those linked, each once |
| PartnerStats.ReduceVendors | src/modules/admin-channel-partners/admin-channel-partners.service.ts:105-115 | adding the groups of distinct vendors is one pass over the orders of all of them |
| PartnerStats.List | src/modules/admin-channel-partners/admin-channel-partners.service.ts:72-138 | each row reports the number of the partner's active links, and the number and sum of exactly the orders that are neither draft nor cancelled, lie in the range and belong to a customer with an active link to it |
| PartnerStats.TotalsCountPositions | src/modules/admin-channel-partners/admin-channel-partners.service.ts:85-115 | the naive sums are the number of, and the sum over, exactly the positions of the orders to count |
| PartnerStats.OtherOrdersDoNotCount | src/modules/admin-channel-partners/admin-channel-partners.service.ts:87-93 | a draft, a cancelled order, one outside the range or without a customer changes no row, wherever it stands |
| PartnerStats.OrderCountsForItsPartner | src/modules/admin-channel-partners/admin-channel-partners.service.ts:85-115 | an order to count adds its amount and one order to the row of its customer's partner and to no other |
| PartnerStats.LinksOfSize | src/modules/admin-channel-partners/admin-channel-partners.service.ts:66 | a partner has as many linked vendors as active links |
| PartnerStats.RoundingIsExact | src/modules/admin-channel-partners/admin-channel-partners.service.ts:131 | rounding a sum of whole paise to two decimals changes nothing |
| PartnerStats.TotalsOfDisjoint | src/modules/admin-channel-partners/admin-channel-partners.service.ts:106-115 | the figures of disjoint sets of vendors add up |
| PartnerStats.NetworksAddUp | src/modules/admin-channel-partners/admin-channel-partners.service.ts:226-252 | while links are exclusive, the figures of any partners add up to that of all their vendors, each order once |
| PartnerStats.ReachableReportsAddUp | src/modules/admin-channel-partners/admin-channel-partners.service.ts:72-115 | and so in every reachable state |
| PartnerStats.LinkCountIsVendorCount | src/modules/admin-channel-partners/admin-channel-partners.service.ts:536-562 | counting active links counts linked vendors |
| Overrides.FindIsRow | src/repositories/vendor-price-override.repository.ts:48-52 | with one row a target, the row is found wherever it is listed |
| Overrides.PickedIs | src/repositories/vendor-price-override.repository.ts:43-53 | a cell's own override applies to it; without one, and for an empty or no cell, that of the whole product; without that, none |
| Overrides.PickIsIndependentOfOrder | src/repositories/vendor-price-override.repository.ts:44-53 | the override that applies does not depend on the order of the rows |
| Overrides.UpsertKeepsUnique | src/modules/admin-pricing-spine/admin-vendor-overrides.service.ts:113-135 | there stays at most one override for a vendor, version and cell or product |
| Overrides.EditKeepsUnique | src/modules/admin-pricing-spine/admin-vendor-overrides.service.ts:99-182 | no edit, accepted or refused, brings a second override for a target |
| Overrides.RunKeepsUnique | src/modules/admin-pricing-spine/admin-vendor-overrides.service.ts:99-182 | in every run of edits, with Redis up or down, there is at most one override for a target at any time |
| Overrides.CreatedOverrideApplies | src/modules/admin-pricing-spine/admin-vendor-overrides.service.ts:113-156 | what was created is what applies to its target |
| Overrides.DeletedCellFallsBack | src/modules/admin-pricing-spine/admin-vendor-overrides.service.ts:159-166 | after deleting a cell's override the whole-product one applies |
| Overrides.OthersAreUnaffected | src/modules/admin-pricing-spine/admin-vendor-overrides.service.ts:113-166 | other vendors and versions list the same rows as before |
| Overrides.CacheKeyIsInjective | src/repositories/vendor-price-override.repository.ts:8-14 | a key belongs to one version and vendor |
| Overrides.PrefixTellsVersion | src/repositories/vendor-price-override.repository.ts:11-13 | the version prefix matches the keys of that version and no others |
| Overrides.DropKeepsCoherent | src/repositories/vendor-price-override.repository.ts:55-57 | changing rows and dropping their key keeps the cache equal to the rows |
| Overrides.FillKeepsCoherent | src/repositories/vendor-price-override.repository.ts:28-39 | caching a fresh listing keeps the cache equal to the rows |
| Overrides.VendorOverrides.FindMany | src/repositories/vendor-price-override.repository.ts:29-32 | the query lists the vendor's rows of the version, each once |
| Overrides.VendorOverrides.LoadForVendorAndVersion | src/repositories/vendor-price-override.repository.ts:22-41 | a read gives the live cached listing or exactly the stored rows, and always the stored rows while the cache agrees with them |
| Overrides.VendorOverrides.Create | src/modules/admin-pricing-spine/admin-vendor-overrides.service.ts:99-157 | updates or creates the one row of the target, keeps an agreeing cache in agreement while Redis is up, refuses unknown versions and foreign cells |
| Overrides.VendorOverrides.Delete | src/modules/admin-pricing-spine/admin-vendor-overrides.service.ts:159-182 | removes exactly the row, and its cached listing while Redis is up |
| Overrides.VendorOverrides.InvalidateForVersion | src/repositories/vendor-price-override.repository.ts:59-61 | drops the listings of all vendors of the version and keeps those of other versions as they are |
| DimensionKeys.HashIgnoresOrder | src/services/pricing-engine/matrix-pricing.resolver.ts:42-51 | keys with the same entries have the same hash in whatever order they were built |
| DimensionKeys.HashTellsKeysApart | src/services/pricing-engine/matrix-pricing.resolver.ts:42-51 | without separators inside names and values, equal hashes iff the same entries |
| DimensionKeys.ValuesCollide | src/services/pricing-engine/matrix-pricing.resolver.ts:46-51 | moving the text between any two values of a key from one into the other gives two keys with one hash |
| DimensionKeys.OneFieldIsToldApart | src/services/pricing-engine/matrix-pricing.resolver.ts:46-51 | over an offered band and at most one field, equal hashes iff the same entries, whatever the value holds |
| DimensionKeys.HashTellsAllApartIff | src/services/pricing-engine/matrix-pricing.resolver.ts:42-51 | all keys over an offered band and these fields, values not empty, are told apart iff there is at most one field |
| DimensionKeys.HashTellsAllNamedApartIff | src/services/pricing-engine/matrix-pricing.resolver.ts:42-51 | with bands of any text they are told apart iff there is no field |
| MatrixLookup.BandIsNearestLowerTier | src/services/pricing-engine/matrix-pricing.resolver.ts:58-79 | a quantity gets the exact or nearest lower active tier, or the lowest, and none iff no tier is active |
| MatrixLookup.BandCoversIff | src/services/pricing-engine/matrix-pricing.resolver.ts:58-79 | a band covers the quantities from its tier up to the next, the last all above, and is labelled with its bounds |
| MatrixLookup.BandTextsDiffer | src/services/pricing-engine/matrix-pricing.resolver.ts:62-67 | bands with different lower bounds have different labels |
| MatrixLookup.ToldApartIsRight | src/services/pricing-engine/matrix-pricing.resolver.ts:98-143 | if no cell shares the hash of the key with other entries, the answer is right for the quantity and the selections |
| MatrixLookup.PriceIsOfWantedCell | src/services/pricing-engine/matrix-pricing.resolver.ts:98-143 | without separators the price is that of the cell whose key is the band of the quantity and the selections; every refusal gives its true reason, the cell's own if it has one |
| MatrixLookup.OneFieldIsPricedRight | src/services/pricing-engine/matrix-pricing.resolver.ts:98-143 | with at most one field besides the band the same holds whatever separators the values hold |
| MatrixLookup.SeparatorFindsAnotherCell | src/services/pricing-engine/matrix-pricing.resolver.ts:124-142 | for any two fields or more, some product and selections are priced from a cell that was not asked for |
| MatrixLookup.LookupsAreRightIff | src/services/pricing-engine/matrix-pricing.resolver.ts:98-143 | with offered bands, all lookups over these fields, for every quantity, are right iff the fields besides the band number at most one |
| MatrixLookup.BandSeparatorFindsAnotherCell | src/modules/admin-pricing-spine/admin-pricing-matrix.service.ts:83-87 | for one field or more, a cell saved with a separator in its band is found for another band |
| MatrixLookup.LookupsAreRightForAnyBandsIff | src/services/pricing-engine/matrix-pricing.resolver.ts:98-143 | with bands of any text, all lookups are right iff there is no field besides the band |
| MatrixPricing.StrongestKeyDecides | src/repositories/pricing.repository.ts:72-92 | of the four keys in their order the first present decides, even an empty one, which leaves the choice to whether a cell has a price |
| MatrixPricing.ApplyPriceModifierRules | src/services/pricing-engine/matrix-pricing.resolver.ts:149-178 | one line for each triggered rule in order, and the total is the base plus their sum |
| MatrixPricing.LinesAddUp | src/services/pricing-engine/matrix-pricing.resolver.ts:157-175 | the lines add up to the sum over the rules that apply |
| MatrixPricing.LinesAreOfTriggeredRules | src/services/pricing-engine/matrix-pricing.resolver.ts:157-175 | the lines are, in order, those of exactly the rules whose trigger field is selected with the trigger value, each with its id, name and the number in its table for the selected key |
| MatrixPricing.RuleAddsItsAmount | src/services/pricing-engine/matrix-pricing.resolver.ts:157-175 | a rule anywhere in the list adds that number to the unit price iff it is triggered, and nothing when the table has none; without rules the unit price is the cell's |
| MatrixPricing.BaseIsNearlyExact | src/repositories/pricing.repository.ts:98-137 | base and scaled lines differ from quantity times unit price, below 1 from the unit price once, by at most half a paisa each, with a price in whole paise by half a paisa a line, and not at all in whole paise |
| MatrixPricing.MatrixBaseIff | src/repositories/pricing.repository.ts:98-137 | the matrix replaces the base iff the strategy is the matrix and a cell gives a price; amount and lines are then those of the quantity to half a paisa, under their codes, names and band |
| MatrixPricing.TotalIsNear | src/repositories/pricing.repository.ts:119-134 | the same bound for any price, lines and quantity |
| MatrixPricing.TotalIsNearForStoredPrice | prisma/schema.prisma:1556 | a price as the column holds it is never rounded, so only the lines count |
| MatrixPricing.BoundsAreReached | src/repositories/pricing.repository.ts:94-134 | for every number of lines both bounds are attained |
| WorkflowSeed.WithFinish | prisma/seed/master/production.constants.ts:190-206 | the production steps between verification and checking, packing, dispatch, each of these in its department, numbered 1..n |
| WorkflowSeed.WorkflowTables.CodesOf | prisma/seed/master/workflow-templates.seed.ts:40-44 | maps each code the template has to a step with that code |
| WorkflowSeed.WorkflowTables.StepsInOrder | prisma/seed/master/workflow-templates.seed.ts:108-112 | lists the template's steps by strictly increasing order |
| WorkflowSeed.WorkflowTables.SeedTemplate | prisma/seed/master/workflow-templates.seed.ts:40-131 | the stored steps are those of the upserts in turn, and exactly the chain over them in order is added |
| WorkflowSeed.UpsertedIs | prisma/seed/master/workflow-templates.seed.ts:48-89 | an unknown department is skipped; a known code keeps its id, a new one takes the next, and its row becomes what is defined; no other step changes; refused iff another step has the order |
| WorkflowSeed.WorkflowTables.LinkConsecutive | prisma/seed/master/workflow-templates.seed.ts:107-131 | adds each step's link to the one before it |
| WorkflowSeed.FreshSeedHolds | prisma/seed/master/workflow-templates.seed.ts:48-105 | on an empty template exactly the defined steps are created and other templates are untouched |
| WorkflowSeed.FreshSeedIsSuccessorChain | prisma/seed/master/workflow-templates.seed.ts:107-131 | a fresh template gets exactly the successor chain |
| WorkflowSeed.OrderIsConsecutive | prisma/seed/master/workflow-templates.seed.ts:108-112 | the steps by order are those created, one after the other |
| WorkflowSeed.ReseedChangesNothing | prisma/seed/master/workflow-templates.seed.ts:48-105 | upserting any beginning of the same steps leaves the tables as they are |
| WorkflowSeed.ReseedAddsNothing | prisma/seed/master/workflow-templates.seed.ts:40-131 | seeding the same steps again changes no step and adds no link |
| WorkflowSeed.OrderIsUnique | prisma/seed/master/workflow-templates.seed.ts:107-112 | a listing by strictly increasing order is the only one |
| WorkflowSeed.InChainIff | prisma/seed/master/workflow-templates.seed.ts:114-131 | the chain holds the consecutive pairs and nothing else |
| WorkflowSeed.WorkflowTables.CreateStep | scripts/seed-wedding-card-flow.ts:173-186 | a new step takes the next id |
| WorkflowSeed.CreateSteps | scripts/seed-wedding-card-flow.ts:171-188 | the steps are created in turn under consecutive ids, each code leads to its id, and no other step changes |
| WorkflowSeed.EnsureWeddingCardTemplate | scripts/seed-wedding-card-flow.ts:95-210 | five steps, each waiting for the one before, and no other step changes; an existing template is left alone |
| WorkflowGates.MetIff | src/modules/workflow/dependency-engine.ts:93-106 | a chain task's dependencies are met iff it is the first or the one before is done |
| WorkflowGates.RunKeepsInv | src/modules/workflow/workflow.engine.ts:384-397 | over every run a released task has its predecessor done |
| WorkflowGates.InvGivesGates | scripts/seed-wedding-card-flow.ts:190-206 | with skips only at the ends, waiting for the one before means waiting for all before |
| WorkflowGates.SkipOpensGate | src/modules/workflow/workflow.engine.ts:123-195 | a skipped step releases the one behind it while an earlier one is open |
| WorkflowGates.GatesAlwaysHoldIff | src/modules/workflow/workflow.engine.ts:123-195 | no task starts before all earlier ones are done in any run, iff no skipped step stands between kept ones |
| WorkflowGates.CompletedStepsFormPrefix | scripts/seed-wedding-card-flow.ts:190-206 | without skips the completed steps form a prefix and at most the next is under way |
| WorkflowGates.CompletionReleasesNext | src/modules/workflow/workflow.engine.ts:384-397 | starting and completing the next task releases the one behind it and no other |
| WorkflowGates.OrdersCanBeFinished | src/modules/workflow/workflow.engine.ts:123-195 | whatever is skipped, some run gets every task of an order done |
| SeededGates.SeededEdgesAreChain | src/modules/workflow/dependency-engine.ts:59-88 | whatever else is stored, the tasks of a seeded template wait for each other in a chain |
| SeededGates.UnlinkedStepsAreChained | src/modules/workflow/dependency-engine.ts:36-67 | the tasks of a template without stored dependencies wait for each other in the same chain |
| SeededGates.SeededGatesHoldIff | src/modules/workflow/dependency-engine.ts:59-132 | for orders of a seeded template the gates hold in every run iff no skipped step stands between kept ones |
| Ledger.PrepareLines | src/services/accounting/posting.service.ts:253-331 | refuses or returns the non-zero lines with the rounding line, in the order of the checks |
| Ledger.PreparedIsBalanced | src/services/accounting/posting.service.ts:313-331 | what is sent to the database balances exactly and each line is one-sided |
| Ledger.StoringMovesLittle | prisma/schema.prisma:4587-4593 | the two-decimal columns move an entry's balance by at most half a paisa a line |
| Ledger.StoringWholePaiseIsExact | prisma/schema.prisma:4587-4593 | whole paise are stored as they are |
| Ledger.StoredImbalanceIs | src/services/accounting/posting.service.ts:269-328 | an entry is stored out of balance by exactly the rounded debits minus the rounded credits of the request, less its rounded difference |
| Ledger.StoredEntryIsNearlyBalanced | src/services/accounting/posting.service.ts:107-168 | a stored entry is at most half a paisa a line out of balance, in balance iff that imbalance of the request is zero, and so in whole paise |
| Ledger.FractionsAreStoredOutOfBalance | src/modules/admin-accounting/admin-accounting.service.ts:169-198 | for every k from 1 to 29 some accepted request is stored k paise out of balance |
| Ledger.Books.PostManualJournal | src/modules/admin-accounting/admin-accounting.service.ts:169-198 | appends the prepared entry or refuses with the first failing check, the request schema included, and changes nothing |
| Ledger.AcceptedIff | src/modules/admin-accounting/admin-accounting.service.ts:169-198 | the complete decision: a request is posted iff no check refuses it, and refused with the first that does, each check written out with its limits; the posting service's own tolerance never refuses it |
| Ledger.PostingMovesBalance | src/modules/admin-accounting/admin-accounting.service.ts:52-89 | a posting adds to an account the rounded debits less credits it was sent, on 6990 also the rounded difference, shown by the account's normal side, and changes nothing as of an earlier date |
| Ledger.Books.Reverse | src/services/accounting/posting.service.ts:194-250 | marks the entry and appends its mirror image, or refuses and changes nothing |
| Ledger.ChartDifferenceIsTotalNet | src/modules/admin-accounting/admin-accounting.service.ts:52-89 | over the full chart the two sides differ by exactly what the counted entries are out of balance |
| Ledger.ChartNearlyBalances | src/modules/admin-accounting/admin-accounting.service.ts:40-90 | at any cut-off the two sides differ by at most half a paisa a stored line |
| Ledger.PostedIsWithinBound | src/modules/admin-accounting/admin-accounting.validation.ts:53-68 | an accepted request of at most 60 lines is stored within 30 paise of balance |
| Ledger.ApplyKeepsWithin | src/modules/admin-accounting/admin-accounting.service.ts:169-207 | no posting or reversal stores an entry further out of balance than the limit |
| Ledger.ReachableChartNearlyBalances | src/modules/admin-accounting/admin-accounting.service.ts:40-90 | after any postings and reversals the two sides differ by at most 30 paise for each entry counted, at any cut-off |
| Ledger.ReachableChartBalances | src/modules/admin-accounting/admin-accounting.service.ts:40-90 | after any whole-paise postings and any reversals the full chart balances at every cut-off |
| Ledger.ReachableChartIsOffBy | src/modules/admin-accounting/admin-accounting.service.ts:40-90 | after any run, at any cut-off, the full chart is off by exactly the sum of the imbalances of the requests behind the entries counted |
| Ledger.ReachableChartsBalanceIff | src/modules/admin-accounting/admin-accounting.service.ts:40-90 | the chart balances throughout a run, at every cut-off, iff every accepted request is stored in balance |
| Ledger.ThirtyPaiseAreReached | src/services/accounting/posting.service.ts:253-331 | some accepted request is stored 30 paise out of balance |
| Ledger.ChartBoundIsReached | src/modules/admin-accounting/admin-accounting.service.ts:40-90 | for every n some n accepted requests leave the chart off by 30 paise for each |
| Ledger.PostedIsWellStored | src/services/accounting/posting.service.ts:269-301 | whole-paise entries are stored one-sided and balanced |
| Ledger.MirrorIsExact | src/services/accounting/posting.service.ts:222-226 | the mirror image has each account's opposite effect |
| Ledger.ReversalIsBalanced | src/services/accounting/posting.service.ts:208-236 | a reversing entry is itself stored in balance, whatever it reverses |
| Ledger.ReversalEffectIs | src/services/accounting/posting.service.ts:222-226 | the reversing entry has each account's opposite effect, and on the rounding account also the original's imbalance |
| Ledger.ReversibleIff | src/services/accounting/posting.service.ts:194-331 | an entry can be reversed iff it is posted, date and accounts permit, its lines are one-sided, two are not zero, and it is within two paise of balance |
| Ledger.ReversalCountsTwice | src/services/accounting/posting.service.ts:238-247 | a reversal takes an entry's effect off every account twice, up to the cut-off |
| Ledger.ReversalCancelsIff | src/services/accounting/posting.service.ts:189-250 | a reversal leaves the balance without the entry, plus the mirror effect: restored iff the entry had no effect on the account |
| Ledger.ReportedBalanceKeptIff | src/services/accounting/posting.service.ts:189-193 | a balance as of a date before the reversal stays iff the entry had no effect on the account |
| Text.TrimTrims | src/constants/vendor-code.ts:16-23 | trimming leaves no outer space, and nothing to trim is left alone |
| Text.TrimOnlyDropsSpaces | src/constants/vendor-code.ts:16-23 | trimming takes white space off both ends and nothing else |
| Text.ParseDecDec | src/constants/vendor-code.ts:12-25 | reading a printed number gives it back |
| Text.DecIsInjective | src/utils/slug.ts:17-21 | different numbers print differently |
| Text.DecLengthIs | src/constants/vendor-code.ts:10-18 | a number prints with at least four digits iff it is at least 1000 |
| Slug.SlugifyGivesSlug | src/utils/slug.ts:1-8 | only a-z, 0-9 and single hyphens, at most 80, no leading hyphen, a trailing one only when cut |
| Slug.HyphenateSpelled | src/utils/slug.ts:1-8 | words keep their letters in order, and every gap between them becomes one hyphen |
| Slug.SlugJoinsWords | src/utils/slug.ts:1-8 | for every text: its words, the runs of a-z and 0-9 after lower-casing, joined in order by single hyphens and cut at 80 |
| Slug.SlugOfSlugIff | src/utils/slug.ts:1-8 | the slug of a slug is itself iff it does not end in a hyphen |
| Slug.CandidatesDiffer | src/utils/slug.ts:17-21 | no candidate is tried twice |
| Slug.UniqueSlug | src/utils/slug.ts:10-23 | ends within one probe more than slugs are taken, at the slug or, with the least free number, the slug with "-1", "-2" and so on |
| VendorCode.ParseFormatIff | src/constants/vendor-code.ts:12-25 | a formatted number parses back iff it is at least 1000 |
| VendorCode.DigitsOfIff | src/constants/vendor-code.ts:12-25 | exactly GP in any case, a hyphen or none, and digits is recognised, with these digits |
| VendorCode.ValidIff | src/constants/vendor-code.ts:16-18 | valid iff, trimmed, such a spelling with at least four digits |
| VendorCode.DisplayIsIdempotent | src/constants/vendor-code.ts:28-36 | displaying what is displayed changes nothing, for every text and for none |
| VendorCode.DisplayKeepsNumberIff | src/constants/vendor-code.ts:28-36 | display keeps a valid code's number iff it is hyphenated or at least 1000 |
| VendorCode.BothSpellingsAreSearched | src/constants/vendor-code.ts:39-48 | any spelling of a code, in any case, searches for what was typed and both spellings, and each of these for both |
| VendorCode.OtherTextsAreKept | src/constants/vendor-code.ts:28-48 | any other text is searched for and shown as typed, but for outer white space |

## Left out

- RedisCaching.RedisCache.GetOrLoad: is stated for a call with nothing in between; the un-awaited write and interleaved steps are in `RedisProtocol`.
- RedisRefinement.GetOrLoadOnce: is stated for values other than `null`, which the protocol does not have; `GetOrLoad` covers it.
- RedisCaching.RedisCache.DelByPrefix: does not model keys written by other clients between two scan batches.
- Partners.ChannelPartners.Promote: does not model the partner code, which an unseen service allocates, and the notification.
- WorkflowSeed.WorkflowTables.SeedTemplate: does not model SLA policies, names, durations and the other columns of the template row.
- Ledger.Books.Reverse: posts and marks in one step; the source uses two transactions, and a failure between them leaves the mirror image posted and the original still counted.
- Overrides.VendorOverrides.LoadForVendorAndVersion: does not model the request-scoped memo around the read, which repeats the first answer within a request.
- Delivery settings as a class: every method of that repository spans awaits and shares Redis with other processes, so it is modelled as steps on values; what is not captured is the object identity of the local cache.
- The order in which Redis carries out the commands of one connection: the protocols let commands of different processes land in any order and lose any of them.
- The request-scoped memo on top of the settings, pricing, override and category loaders: within one request it repeats the first answer.
- JSON encoding of cached values: dates come back from Redis as texts, and the model keeps values as they are.
- Redis errors other than a lost connection, and glob characters in prefixes or colons in version ids; generated ids contain neither.
- Synchronous loaders and loaders that ask for their own key: loaders are asynchronous and settle after the call that starts them.
- Two admins at work on the same partner, override or commission plan between a check and its write: each operation is one step.
- Pagination, search and filters of the partner list, the trimming of notes, and role changes outside these operations.
- The trend and platform figures of the programme statistics.
- The zero-or-more exporters and log lines of the metrics store, and the fields of log entries that no figure uses.
- The price calculator, the fiscal calendar and the account resolver: whether a date is postable and which accounts exist are parameters, and the rounding account is taken to exist.
- Repeated posting under one source key, which returns the first entry: the model's callers always use a new key.
- Voucher numbers, parties, descriptions, entries from other sources, day book and periods.
- Text parts of price lines (the label with the quantity), price cells whose stored key is an array, and rules whose table inherits a property.
- Stale links of a template whose definition has changed: seeding adds links and never removes any. Seeding is not one transaction, and steps written before a refused one remain.
- Tasks that are assigned, paused, reworked, cancelled or skipped by hand, and START_TO_START links, which these templates do not have.
- Binary floating point: amounts and durations are exact, and numbers beyond 2^53 - 1 are not treated specially.
- Unicode lower-casing and upper-casing: lower-casing is a parameter of slugs; codes and methods use ASCII case only.
- The reports of the finance service that fill the CSV writer with rows.
- Wallet and credit ledger, delivery desk, authentication, routing, validation schemas other than that of manual journals, seed catalogues and scripts other than the wedding-card template.
