# Verified model of the CDEvents bridge

A Dafny 4.11 model of the parts of the bridge that are hard to get right, with proofs.
`dafny verify dfyconfig.toml` checks all of it.

The bridge receives CDEvents over HTTP, stores every event and the current deployment of
each service, rebuilds the chain of events behind any event, and tells applications which
deployment they are running. The model follows that path:

- **Links and types** (`Links`, `EventTypes`, `Parser`): normalisation of an event's links,
  reduction of versioned type strings, and the records built from an event.
- **Ingestion** (`Ingest`, `IngestProtocol`): the request handler as a class, and many
  requests interleaved, with either of the two writes failing.
- **Storage** (`Ordering`, `Storage`, `RedisKeys`, `Redis`, `RedisRuns`,
  `RedisDeployments`): the newest-first order and an in-place stable sort, the memory
  backend, the Redis backend over a server with deadlines and a clock, and runs of both
  side by side.
- **Chains** (`Graph`, `GraphLimits`, `GraphExactness`, `GraphGrowth`, `GraphOrder`,
  `Correlator`, `Chains`, `BackendChains`, `ChainLimits`): the bounded breadth-first walk,
  what it returns over a fixed and over a growing store, in which order, and how much it
  reads, the union with the events of the same chainId, the root cause, and when the whole
  chain stays within the event limit.
- **Resolving** (`Resolver`, `ResolverProtocol`, `ResolverClearing`, `ResolverSpacing`,
  `ResolverVisibility`): the caching resolver one call at a time, and many calls at once
  over the store: where answers come from, what clearing the cache is good for, how often
  the store is asked, and when a save becomes visible.

Code that loops or updates state is a method or a class here, proved equal to a function
or a state; the theorems are lemmas about those. The limits of the walk and the TTLs are
parameters. Strings are sequences of characters, times are integers. `sort.SliceStable` is
stood for by an insertion sort on the array, proved sorted, stable in form and unique.

A store is modelled as what it answers: the n-th read of the walk may get any answer, so a
store that changes or fails during a walk is covered. A fixed store is a special case.
Each command to Redis can fail, and other clients may write between the commands of one
call; a server that stands still is the case of a single state.

## Where the code and its documentation differ

- `docs/architecture.md` says that chains stop at 256 events. The limit holds for the walk
  only; events that share the chainId are added without limit: two of them make a chain of
  two under a limit of one (`ChainLimits.SiblingsExceedLimit`). Without a chainId the limit
  holds (`Chains.UnlabelledChainBounded`). With one, it holds exactly when
  - the stored events within the depth limit and those with the chainId together fit into
    it, if the walk is not cut off (`ChainLimits.UncutChainLimitIff`);
  - the walk leaves no event with the chainId out, if it is (`ChainLimits.CutChainLimitIff`).
    That is so if they are no farther than some distance within which everything fits into
    the limit, and not so if one is farther than some distance within which the limit is
    reached (`ChainLimits.ChainLimitByDistance`). In between the order of links decides.
- `docs/architecture.md` says that a lookup happens at most once per service per cache
  period. For every run in which the service is not invalidated, its lookups neither fail
  nor take as long as the shorter TTL, and none is left to make at the end, that holds
  exactly when no two calls for the service are pending, between their miss and their end,
  at once (`ResolverSpacing.OneLookupPerPeriodIff`). Slow lookups do no harm if no call
  misses while another is pending (`ResolverSpacing.SerialLookupsSpaced`); two that are
  pending at once always both ask (`ResolverSpacing.PendingTogetherAskBoth`), as in the run
  of `ResolverSpacing.MissesTogetherAskTwice`.

## What is false, and exactly when

- Normalising links is meant to drop duplicates and links without a target. It drops more
  exactly when two links with different targets share a key, which takes a link type with
  a NUL in it (`Links.NulTypeLosesTarget`, `Links.OnlyDuplicatesDroppedIff`,
  `Links.NulFreeIsCollisionFree`).
- Redis and memory can disagree about a chain after an id is saved again under another
  chainId (`RedisRuns.MovedEventLingers`). They always agree on the saves of some events
  exactly when no id among them has two chainIds (`RedisRuns.AlwaysSameChainsIff`); at any
  one moment, exactly when no live member of the chain set has moved
  (`RedisRuns.ChainReadExactIff`).
- They can disagree about a service when two names share a key in one backend only
  (`RedisDeployments.ColonsCollide`). With any TTL, Redis always has what memory has among
  the live deployments, over the saves of some deployments, exactly when no two of them
  share such a key (`RedisDeployments.AlwaysAgreeIff`).
- A service whose deployment was saved can become "not found", after a save for another
  service whose names give the same key (`ResolverVisibility.TakenKeyHides`; "a" in
  "b NUL c" and "a NUL b" in "c" are such names, `ResolverVisibility.NulNamesShareKey`). If
  that leaves the store without a record of the service, it stays so until the next save of
  the service (`ResolverVisibility.HiddenUntilSaved`). In no run over some records does
  that happen exactly when no two of them share a key across services
  (`ResolverVisibility.NeverHiddenIff`).
- After Invalidate or Reset a service is meant to be looked up anew. A lookup that was
  answered before and is cached only afterwards brings the old answer back
  (`ResolverClearing.ClearingOutrun`). Calls that begin later get answers from later lookups
  only, exactly when no call for the service holds an answer that it has yet to cache: a
  deployment, of any age because it can still stand in for a failure, or a "not found"
  within its TTL (`ResolverClearing.ClearedAsksAnewIff`).
- Reducing a type twice can differ from reducing it once: "x. a.b" becomes " a.b" and that
  "a.b" (`EventTypes.ReducingTwiceDiffers`). It does exactly when the subject begins or the
  predicate ends with white space (`EventTypes.ReductionIdempotentIff`).

## Model

| member | source | states |
|---|---|---|
| Graph.TraverseChain | internal/correlator/graph.go:48-80 | The loop ends against any sequence of store answers and returns the result, or the first read error, of the reference walk, and does the same number of reads |
| GraphExactness.TraversalExact | internal/correlator/graph.go:48-80 | Over a fixed store: distinct stored events, the start first, in order of link distance; exactly min(maxEvents, number within maxDepth) of them; none left out is nearer than one returned |
| GraphGrowth.GrowingStoreWalk | internal/correlator/graph.go:48-80 | Over a store that gains events during the walk and changes none: distinct events that are within reach in the last store, and, unless the event limit cuts the walk off, all that were within reach in the first one |
| GraphExactness.LayersComplete | internal/correlator/graph.go:53-77 | Depths below every queued one are true link distances, and everything that near has been visited |
| GraphExactness.EnqueueLayers | internal/correlator/graph.go:70-76 | Queueing the links of the id just taken keeps the queue in order within two depths and every visited id at the end of a link path of its depth |
| GraphOrder.WalkInLinkOrder | internal/correlator/graph.go:70-76 | Against any store that answers by id, changing or not: each event but the first is linked to by one before it, and they come in the order of the first links to them |
| GraphLimits.TraverseReadsBounded | internal/correlator/graph.go:53-77 | Whatever the store answers, a failing read in the end included: reads done plus queue length equals the number of visited ids, which is at most 1 plus the links of the events collected until then |
| GraphLimits.TotalLinksCounts | internal/correlator/graph.go:70-76 | The links that bound the reads are counted one by one: every link of every event collected |
| GraphLimits.LowerLimitsArePrefix | internal/correlator/graph.go:53-77 | Lowering the depth limit, the event limit or both gives a prefix of the result, against any store, changing or not |
| GraphLimits.FewerEventsIsPrefix | internal/correlator/graph.go:53-77 | With a smaller event limit the walk returns a prefix, and the very same walk when it stays below that limit |
| GraphLimits.ShallowerRunIsPrefix | internal/correlator/graph.go:67-69 | From two states in step (same result and reads, the shallow queue a prefix of the deep one), the shallower walk returns a prefix |
| GraphLimits.StartFirst | internal/correlator/graph.go:49-57 | The first event is the answer to the read of the start id; the result is empty exactly when that read finds nothing or no event is allowed |
| Links.NormalizeLinks | internal/cdevents/links.go:15-47 | Both link lists, in order, end up in context.links without empty targets and repeated keys; the top-level list is emptied and nothing else changes |
| Links.NormalizedIsFirsts | internal/cdevents/links.go:23-40 | Exactly the first link of each type and target key that has a target is kept, in the order of the input |
| Links.NormalizedIdempotent | internal/cdevents/links.go:15-47 | Normalising twice is normalising once |
| Links.OnlyDuplicatesDroppedIff | internal/cdevents/links.go:23-34 | Every link with a target is kept, itself or as an equal one, exactly when no two links with different targets share a key |
| Links.NulTypeLosesTarget | internal/cdevents/links.go:27-30 | Two links with different targets and one key: the second is dropped as if it were a duplicate |
| Links.NulFreeIsCollisionFree | internal/cdevents/links.go:27 | Link types without NUL never give one key to two targets |
| Links.TraverseNormalized | internal/correlator/graph.go:70-76 | Walking normalised links visits the same events in the same order with the same reads as walking the raw concatenated links, for any limits and any store |
| EventTypes.ShortType | internal/cdevents/types.go:92-106 | The loop over trailing version segments computes the reduction |
| EventTypes.ScanVersionSegment | internal/cdevents/types.go:108-124 | True exactly for one or more of the characters 0 to 9, alone or after a single v or V |
| EventTypes.SpaceChars | internal/cdevents/types.go:93 | The characters trimmed around a type, one by one |
| EventTypes.QualifiedTypeReduces | internal/cdevents/types.go:92-96 | A dev.cdevents type reduces to subject and predicate whatever follows and whatever white space surrounds it |
| EventTypes.VersionedTypeReduces | internal/cdevents/types.go:98-104 | Any other type with dot-free segments, all from the third on made of digits with or without one v or V before them, reduces to its first two, whatever white space surrounds it |
| EventTypes.ReduceKeeps | internal/cdevents/types.go:92-106 | A dotted type reduces to one segment and the one before it: the fourth of a dev.cdevents type, else the last that is not digits with or without a v or V, else the second; there is one such place |
| EventTypes.UndottedKept | internal/cdevents/types.go:105 | A type without a dot stays as it is, white space included |
| EventTypes.PlainTypeExample | internal/cdevents/types_test.go:17 | "service.deployed.0.1.1" reduces to "service.deployed" |
| EventTypes.ReductionIdempotentIff | internal/cdevents/types.go:92-106 | Reducing is idempotent exactly when the type has no dot, or that segment does not end and the one before it does not begin with white space |
| EventTypes.ReducingTwiceDiffers | internal/cdevents/types.go:92-106 | A type on which reducing twice differs from reducing once |
| EventTypes.SpaceFreeIdempotent | internal/cdevents/types.go:92-106 | Reducing is idempotent on types without white space |
| Parser.ToStoredEvent | internal/cdevents/parser.go:190-218 | Field by field: id, type, source, time, chainId, links, subject and summary are those of the event; the raw data holds its content and its customData, each if there is one, and is nil if there is neither |
| Parser.RecordFields | internal/cdevents/parser.go:63-106 | Field by field, where each field of the deployment record is taken from: the first non-empty of the named places, in order |
| Parser.ChangeInfoFields | internal/cdevents/parser.go:220-235 | Commit, author, message and repository of a stored event: the first non-empty under the named keys in customData, then content, then the raw data itself |
| Parser.ProjectionsAgree | internal/cdevents/parser.go:63-106 | Commit, author and repository read back from the stored event are those of the deployment record of the same event |
| Parser.StoredLookup | internal/cdevents/parser.go:220-235 | Looking keys up in customData, content and the raw data itself finds what looking them up in the event finds |
| Parser.SearchFirst | internal/cdevents/fields.go:60-94 | Ordered lookup finds the first non-empty value, an earlier map before a later one whatever the keys, and nothing only if there is nothing anywhere |
| Parser.SearchIsFirst | internal/cdevents/fields.go:60-69 | An ordered lookup gives the first non-empty string on the list of all places, map by map and key by key |
| Parser.IdentityRead | internal/cdevents/fields.go:71-94 | A name is a string, or the first non-empty of id, url and name of an object |
| Parser.StringRead | internal/cdevents/fields.go:19-29 | Only a string under the key itself is read as one |
| Parser.NestedRead | internal/cdevents/fields.go:31-58 | Only a string in an object under the outer key is read as a nested one |
| Ordering.SortInPlace | internal/storage/interface.go:77-87 | The cells are replaced by their stable sort and the rest of the array is left alone |
| Ordering.SortByStrict | internal/storage/interface.go:97-104 | Sorting distinct records of distinct rank gives a strictly ordered list of the same records |
| Ordering.StrictlySortedUnique | internal/storage/interface.go:97-104 | Two strictly ordered lists of the same records are equal |
| Ordering.BeforeTotal | internal/storage/interface.go:78-86 | Of two records exactly one comes first, unless they tie in time and names |
| Ordering.BeforeTransitive | internal/storage/interface.go:78-86 | The comparison is transitive |
| Ordering.SortHead | internal/storage/interface.go:89-95 | The first record after sorting depends on the set of records only, even if some are repeated |
| Ordering.NewestHead | internal/storage/interface.go:89-95 | The first of the deployments in order is deployed no earlier than any other, and of those deployed at the same time none has a lesser service or, in one service, a lesser environment |
| Ordering.DeploymentsStrictlyByTime | internal/storage/interface.go:77-87 | A strictly ordered list has descending times, and at one time ascending service and then environment |
| Ordering.EventsStrictlyByTime | internal/storage/interface.go:97-104 | A strictly ordered list of events has descending times, and at one time ascending ids |
| Ordering.StringLessMeaning | internal/storage/interface.go:82-85 | A string is less than another if it has the lesser character where they first differ or is a proper prefix |
| Correlator.BuildChain | internal/correlator/correlator.go:40-91 | The failure of a read, not found, or the chain: one event for each id among those walked to and those of the chainId, latest first with ties by id, each shown with its own fields, and the root cause; a function of what the store answered, whatever order the map of members is read in |
| Correlator.FindRootCause | internal/correlator/correlator.go:93-121 | The backward scan returns the last merge with a commit, else the last deployment with a commit, else nothing |
| Correlator.RootCauseOfSet | internal/correlator/correlator.go:93-121 | On an ordered chain the root cause is that of the set of its events: of the one that comes last among the merges with a commit, else among the deployments with one |
| Correlator.RootCauseInTime | internal/correlator/correlator.go:93-121 | That is the event with the least time of type change.merged with a commit (the greatest id of several), else of type service.deployed, upgraded or rolledback with one; the cause has the commit, author, message and repository of it; none only if there is no such event |
| Correlator.RootCauseUnique | internal/correlator/correlator.go:93-121 | A set of events has at most one root cause |
| Correlator.ChainEventShows | internal/correlator/correlator.go:123-139 | A chain shows id, type, time, summary and links of each event, and the commit only of merges, deployments, upgrades and rollbacks |
| Correlator.AnyOrderSortsAlike | internal/correlator/correlator.go:68-77 | Reading the map of members in any order sorts into the same sequence |
| Correlator.AssembledUnited | internal/correlator/correlator.go:51-66 | One event for each id: the last one walked to that has it, else the first of the chainId, and no other |
| Chains.ChainOverStore | internal/correlator/correlator.go:40-91 | Over a fixed store: what the walk returned, which are the nearest linked events, united with all events of the start's chainId, each once and shown with its own fields, latest first with ties by id, the start included, with the earliest merge with a commit as root cause, else the earliest deployment |
| Chains.UnlabelledChainBounded | internal/correlator/correlator.go:56-66 | A chain whose start has no chainId respects the event limit |
| Chains.LabelledChainSize | internal/correlator/correlator.go:56-66 | The exact size of a chain with a chainId: what the walk returned and the events of the chainId that it did not |
| ChainLimits.SiblingsExceedLimit | internal/correlator/correlator.go:56-66 | Two events without links that share a chainId make a chain of two under a limit of one |
| ChainLimits.UncutChainLimitIff | internal/correlator/correlator.go:45-66 | If everything within the depth limit fits into the event limit, the chain is that together with the events of the chainId, and respects the limit exactly when those are few enough |
| ChainLimits.CutChainLimitIff | internal/correlator/correlator.go:45-66 | If the walk fills the event limit, the chain respects it exactly when every event of the chainId is in what the walk returned |
| ChainLimits.ChainLimitByDistance | internal/correlator/correlator.go:45-66 | For each distance d: the limit holds if what is within d fits and no sibling is farther, fails if what is within d fills it and a sibling is farther, so is decided by the farthest sibling if exactly the limit is within d |
| BackendChains.SameChainOnBothBackends | internal/storage/redis.go:190-230 | After any run in which each id keeps its chainId, a chain built on Redis equals the one built on memory over the live events, and on memory itself without a TTL |
| BackendChains.MemoryListsChains | internal/storage/memory.go:129-148 | The memory store lists its chains as chain reconstruction expects |
| Storage.ApplyFilter | internal/storage/interface.go:61-75 | Keeps the matches, sorts them, and cuts the list to a positive limit |
| Storage.LatestDeployment | internal/storage/interface.go:89-95 | A candidate deployed no earlier than any other, by name among equally recent ones, or not found if there is none |
| Storage.MemoryStorage.SaveDeployment | internal/storage/memory.go:39-51 | Replaces the record of the same service and environment, unless the request was cancelled or the record is nil |
| Storage.MemoryStorage.SaveEvent | internal/storage/memory.go:100-112 | Replaces the event of the same id, unless the request was cancelled or the event is nil |
| Storage.MemoryStorage.GetEvent | internal/storage/memory.go:114-127 | The event under the id, not found, or the cancellation |
| Storage.MemoryStorage.GetDeployment | internal/storage/memory.go:53-66 | The record under the joined key, not found, or the cancellation |
| Storage.MemoryStorage.GetLatestDeployment | internal/storage/memory.go:68-83 | A stored record of the service with deployedAt at least that of every other (the least environment of several), or not found if there is none; in whatever order the map is read |
| Storage.MemoryStorage.ListDeployments | internal/storage/memory.go:85-98 | The stored records of the environment asked for, if any, deployed no earlier than the time asked for, if any; descending by time with ties by name, cut to a positive limit with nothing later left out; in whatever order the map is read |
| Storage.MemoryStorage.GetEventsByChain | internal/storage/memory.go:129-148 | Exactly the stored events with the chainId, descending by time with ties by id; none for the empty chainId |
| Storage.ListingIsTopK | internal/storage/interface.go:61-75 | A page is strictly ordered, every match left out comes after every record on it, and a smaller limit gives a prefix |
| Storage.ListingIsPage | internal/storage/interface.go:51-87 | The page in terms of the records' environments and times: what is left out is deployed no later than anything on it, and only if the limit is reached |
| Storage.LatestIsFirstListed | internal/storage/memory.go:68-98 | The current deployment of a service is its first entry in the full listing |
| RedisKeys.ServicePrefixGlobFree | internal/storage/redis.go:69-71 | What is scanned for has no glob character before its star |
| RedisKeys.EscapeInjective | internal/storage/redis.go:69-71 | Escaping can be undone on strings without a percent sign |
| RedisKeys.PlainKeysInjective | internal/storage/redis.go:65-71 | For plain names, both backends give one key to one service and environment only |
| RedisKeys.KindsApart | internal/storage/redis.go:33-39 | Event, chain and deployment keys never coincide |
| RedisKeys.GlobEscapedByCode | internal/storage/redis.go:69-71 | Exactly the characters *?[]\ are escaped, to a percent sign and their code in two hexadecimal digits |
| Redis.RedisStorage.SaveEvent | internal/storage/redis.go:164-188 | Key by key: the event is set with a new deadline, its id added to the live set of its chain or to a new one, which gets the same deadline or, without a TTL, keeps what it had, and nothing else changes; a nil event or a failure leaves the server as it was |
| Redis.RedisStorage.SaveDeployment | internal/storage/redis.go:73-87 | Replaces the record under "deployment:", the escaped service, a colon and the escaped environment, with a new deadline, and nothing else; a nil record or a failure leaves the server as it was |
| Redis.RedisStorage.GetEvent | internal/storage/redis.go:190-204 | The event under "event:" and the id if the key is there and not past its deadline, else not found; or the failure of the read |
| Redis.RedisStorage.GetEventsByChain | internal/storage/redis.go:206-230 | Descending by time with ties by id, the events that the members lead to, each read in its own state of the server: all that stay live are there, and each was live at some time; fails exactly when a command does |
| Redis.RedisStorage.ScanDeployments | internal/storage/redis.go:132-162 | Whatever the order, the repetitions and the writes in between: all records under the prefix that stay live are found, and each found was live at some time; exactly the live ones if the server stands still; the first failure ends it |
| Redis.RedisStorage.GetLatestDeployment | internal/storage/redis.go:109-122 | No record of the service that stays live during the scan has a later deployedAt than the answer, and not found means there is none; if the server stands still, a live one with the greatest deployedAt; or the first failure |
| Redis.ScanFailsIff | internal/storage/redis.go:138-156 | A scan fails exactly when one of its commands does, and with the fault of the first that does, in each page the SCAN before the reads |
| Redis.KeepService | internal/storage/redis.go:115-120 | Compacting the slice in place equals filtering it |
| RedisRuns.EveryRunKeepsIndex | internal/storage/redis.go:164-188 | After every run of saves and ticks, each live event with a chainId is in its live chain set, which never expires before it; every event has the deadline of its last save |
| RedisRuns.KeptForTtl | internal/storage/redis.go:164-204 | An event can be read for as long as the TTL after its last save, or for ever without a TTL, and no longer, whatever is saved besides |
| RedisRuns.ChainReadExactIff | internal/storage/redis.go:206-230 | Redis returns every live event of a chain, and nothing else exactly when no live member has been saved again under another chain |
| RedisRuns.StableChainsAgree | internal/storage/redis.go:206-230 | If each id keeps its chainId, Redis answers as memory does over the live events, after every run |
| RedisRuns.AlwaysSameChainsIff | internal/storage/redis.go:164-230 | Redis answers for every chain with memory's live events, after every run of ticks and saves of some events, exactly when no two of the events have one id and different chainIds |
| RedisRuns.MovedEventLingers | internal/storage/redis.go:174-182 | An event saved again under another chain stays in the answer for its old one |
| RedisDeployments.BackendsAgree | internal/storage/redis.go:109-122 | After every run of saves whose keys agree, the scan finds memory's live deployments of any service asked for, hence the same current one; without a TTL memory's own answer |
| RedisDeployments.PlainNamesAgree | internal/storage/redis.go:65-71 | Keys agree for services without NUL, colon and percent sign and environments without percent sign |
| RedisDeployments.AlwaysAgreeIff | internal/storage/redis.go:65-122 | With any TTL: Redis has memory's current live deployment of every service, after every run of ticks and of saves of some records, exactly when no two of the records share a key in one backend only |
| RedisDeployments.ColonsCollide | internal/storage/redis.go:65-67 | Two pairs of names with colons share a Redis key and not a memory key |
| Resolver.CachedResolver.constructor | pkg/otelbridge/resolver.go:57-85 | Positive options set the TTLs and others leave 30 and 10 seconds; the cache starts empty |
| Resolver.CachedResolver.ResolveDeployment | pkg/otelbridge/resolver.go:87-112 | An entry before its deadline is the answer and nothing is asked; otherwise the answer is the inner one, or a stale deployment if that failed; a deployment is cached until the positive TTL after the clock reading, "not found" until the negative one after it |
| Resolver.CachedResolver.Invalidate | pkg/otelbridge/resolver.go:120-124 | Forgets one service |
| Resolver.CachedResolver.Reset | pkg/otelbridge/resolver.go:126-130 | Forgets everything |
| Resolver.CacheRefinesHistory | pkg/otelbridge/resolver.go:87-130 | After any calls, at any clock readings, the answer is that of a reference which remembers all lookups and clearings: it repeats the last deployment for the positive TTL and the last "not found" for the negative one |
| Resolver.RepeatedUntilTtl | pkg/otelbridge/resolver.go:87-112 | After a lookup at t the next resolve repeats a deployment before t plus the positive TTL and "not found" before t plus the negative one, and asks again from then on; a failure then falls back on the deployment only |
| Resolver.LookupsSpaced | pkg/otelbridge/resolver.go:87-104 | In a run over a time T without failures, n lookups for a service satisfy (n - 1) times the shorter TTL at most T |
| ResolverProtocol.AnswersAreReal | pkg/otelbridge/resolver.go:87-118 | In every interleaving, a cache hit was really given by the inner resolver for that service: a deployment in a lookup less than the positive TTL before the caller's clock reading, "not found" in one less than the negative TTL before it; an inner answer is that of the call's own lookup; a stale one is the expired deployment the call itself had peeked at before its own lookup failed |
| ResolverProtocol.AnswersReadAfter | pkg/otelbridge/resolver.go:87-112 | In every interleaving and with any inner resolver, an answer that is not stale was read less than the longer TTL before the call's own clock reading |
| ResolverProtocol.AloneIsSequential | pkg/otelbridge/resolver.go:87-112 | A call that nobody comes between does what the sequential resolver does |
| ResolverProtocol.ClearingIsSequential | pkg/otelbridge/resolver.go:120-130 | Invalidate and Reset do to the entries what they do in the sequential resolver, and nothing to the calls under way |
| ResolverClearing.ClearedAsksAnewIff | pkg/otelbridge/resolver.go:87-130 | After a run that ends with Invalidate or Reset: however it goes on, each call for the service that begins later is answered by a lookup made later, exactly when no call for it holds a deployment, or a "not found" still within its TTL, that it has yet to cache |
| ResolverClearing.ClearingOutrun | pkg/otelbridge/resolver.go:98-124 | A run of five actions whose last one is an Invalidate that does not keep this |
| ResolverVisibility.SaveBecomesVisible | internal/otel/resolver.go:28-37 | Once a deployment has been saved for the longer TTL, every answer that is not stale comes from a store read made after the save and is the latest at that moment; unless a later save took its key for another service, it is not "not found" |
| ResolverVisibility.NeverHiddenIff | internal/storage/memory.go:35-51 | No run over some records with an inner resolver that reads the store ever answers "not found", except stale, the longer TTL after a save of the service, exactly when no two records share a key across services |
| ResolverVisibility.TakenKeyHides | internal/storage/memory.go:35-51 | For any two records that share a key across services: a run in which the first is saved and, the longer TTL later, its service is "not found" |
| ResolverVisibility.HiddenUntilSaved | internal/storage/memory.go:68-83 | Once the store has no record of a service, every answer for it that is not stale, the longer TTL later, is "not found" or a failure, until the service is saved again |
| ResolverVisibility.NulNamesShareKey | internal/storage/memory.go:35-37 | Two such records |
| ResolverVisibility.NulFreeServicesApart | internal/storage/memory.go:35-37 | Service names without NUL never share a memory key |
| ResolverSpacing.OneLookupPerPeriodIff | pkg/otelbridge/resolver.go:87-112 | For every run in which a service is not invalidated, its lookups neither fail nor take as long as the shorter TTL, and none is left to make: lookups have clock readings at least the shorter TTL apart exactly when no two calls for the service were ever pending at once |
| ResolverSpacing.SerialLookupsSpaced | pkg/otelbridge/resolver.go:87-112 | In every run in which a service is not invalidated, its lookups do not fail and no call for it misses while another is pending, its lookups have clock readings at least the shorter TTL apart |
| ResolverSpacing.PendingTogetherAskBoth | pkg/otelbridge/resolver.go:90-112 | From any reachable state in which two calls for a service are pending, whether they have asked or not, however the run goes on, each makes its own lookup; with clock readings closer than the shorter TTL that breaks the spacing |
| ResolverSpacing.BothCanAsk | pkg/otelbridge/resolver.go:90-98 | From any state in which two calls have missed the two lookups can follow at once |
| ResolverSpacing.MissesTogetherAskTwice | pkg/otelbridge/resolver.go:90-98 | The shortest run with two lookups in one cache period |
| Ingest.Handler.HandlePostEvent | internal/api/handlers.go:84-154 | From the body and the event as it was sent: refuses bad bodies and events that lack one of six fields; writes the record of a deployment, upgrade or rollback, then the event with its links normalised, each field its own; counts the request once, under its kind or the label of its refusal; a failed second write leaves the first |
| Ingest.HandledIngests | internal/api/handlers.go:110-154 | The reference that interleaved requests are compared with does just that |
| Ingest.PostsAreCoherent | internal/cdevents/parser.go:63-106 | Exactly the deployment kinds come with a record, which names the stored event and the commit, author and repository read back from it |
| IngestProtocol.AloneIsHandler | internal/api/handlers.go:117-154 | A request that nobody comes between does what the handler does |
| IngestProtocol.IngestInvariant | internal/api/handlers.go:120-154 | In every interleaving with any failures: each deployment record names a stored event or belongs to a request between its writes or failed at the second; accepted ids can be read back; the counter of each kind and reason has the number of finished requests told so, and together they have all of them |
| IngestProtocol.RecordOrphanedIff | internal/api/handlers.go:120-143 | In every interleaving, a deployment record's event is missing exactly when a request that wrote the record is between its writes or failed at the second, and no request has stored an event with that id |
| IngestProtocol.FallbackCauseIsOnRecord | internal/api/handlers.go:117-143 | In every interleaving, a stored event that can be the fallback root cause was stored by a request with a deployment record of it, written under a key that is still there, with the commit, author and repository the root cause names |
| IngestProtocol.FailedEventLeavesOrphan | internal/api/handlers.go:120-143 | A deployment record can stay behind without its event |

## Left out

- HTTP routing, responses, the HTTP client, metrics exposition, tracing setup, configuration and the example programs.
- JSON and YAML text: events are decoded records, and a stored record that does not decode is a failed read.
- `Summarize` and the version taken from an artifact id: parameters of the members that use them.
- `ToPipelineRun`, `ToIncident`, `ExtractLinks`, `GetLinkedEventIDs`, `HasLinkType`, `LinkedEventIDs`: flat code without a law of its own.
- Nil events and nil resolvers, except where a backend or `NormalizeLinks` tests for nil.
- A Redis command that fails after the server has carried it out: in the model a failed save has not happened, in whole.
- The server's own glob matching: of MATCH only the meaning of a glob-free prefix followed by a star is used.
- `ListDeployments` on Redis: it filters and sorts what the scan finds, and repeats a record that the scan repeats.
- The two not-found errors of `internal/storage` and `pkg/otelbridge` are one error here, so their translation in `internal/otel/resolver.go` is the identity.
- Mutexes: each locked region is one step. Memory is not shared in any other way.
- Aliasing of stored records: records are values, so a caller that changes a record after saving it is not modelled.
