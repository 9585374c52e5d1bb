# Verification of the deeper scanner

deeper starts from one piece of information (a trace), lets plugins find further traces from it,
and keeps doing so until nothing new turns up. It records every discovery in a SQLite graph and
answers questions about that graph with recursive queries. This project models the code that
decides what is found, in which order, and what is remembered, and proves what it promises.

| file | what it models |
|---|---|
| `Entities.dfy`, `Text.dfy` | traces, discoveries, and the text key under which a trace is remembered; trimming of input |
| `Walks.dfy`, `Arithmetic.dfy` | walks and shortest distances in a directed graph; quotient bounds |
| `TraceTables.dfy` | the tables `traces` and `trace_edges` with their constraints, and what a batch means |
| `Driver.dfy`, `Repository.dfy` | `GetOrCreateTrace`, `InsertEdge`, `PersistDiscoveries` as methods that update the tables in place, over a driver that may fail |
| `VisitedGuard.dfy` | the comma-delimited `visited` text and its substring test |
| `ReachableQuery.dfy`, `DiscoveryPath.dfy` | the two recursive queries, row by row |
| `PathMultiplicity.dfy` | how often the path query returns a row |
| `ScanMachine.dfy`, `HopOrder.dfy` | every run of the scan worklist, and when its results come in hop order |
| `SubmittedScan.dfy` | the scan worklist when tasks whose id was submitted before are not run again |
| `Engine.dfy` | `ProcessInput` and `processBatch` as loops over the store |
| `ScanGraph.dfy` | the scan and the queries together |
| `WorkerPool.dfy`, `PoolGuarantees.dfy` | concurrent `ProcessTrace` calls, the queue, the workers and the reply channels |
| `PoolOrder.dfy` | orders and bounds of the pool: what comes first out of a channel, and when each action can happen |
| `Tasks.dfy`, `PoolDeduplication.dfy` | task ids; the pool and the duplicate check together |
| `Processor.dfy` | the loops inside one `ProcessTrace` call: filtering a plugin's traces, collecting replies |
| `LruOrder.dfy`, `LruCache.dfy` | recency order over whole histories, and the map-and-list structure |
| `CacheTable.dfy`, `Deduplication.dfy` | expiry of cache rows, and the two-level duplicate check |
| `PersistentMarkers.dfy` | the markers of completed tasks over a whole run |
| `CrawlMachine.dfy`, `ContactCrawler.dfy` | the bounded crawl and the page budget shared by all crawls |
| `CrawlPages.dfy` | where the pages of a crawl come from |
| `CircuitBreaker.dfy`, `Metrics.dfy` | the breaker over timed runs, and the truncating running average |

How the main pieces fit together: `Engine.ProcessInput` is proved to perform a finished run of
`ScanMachine` and to leave behind exactly the edges `ScanGraph.ScanStored` describes; the theorems
about runs and about the queries then speak about its result. In the same way `Crawler.Crawl`
performs a run of `CrawlMachine`, and the methods of `LruCache` and `CircuitBreaker` compute the
functions whose histories `LruOrder` and `CircuitBreaker` reason about; `Deduplication.CheckAll` carries
the history theorem over to `IsDuplicate`, and `PoolDeduplication` carries it into the pool. The worker pool is a step
relation, because its behaviour is the interleaving of its steps; the loops of one call that
touch no shared state are methods in `Processor.dfy`.

Modelling choices:

- The plugins are an unknown function from a trace to what was found for it, or to an error. A
  trace is processed once in a run, so within one run this is no restriction. What a call of
  `ProcessTrace` returns is the subject of `PoolGuarantees.ReturnedCallHasAllFinds`, and
  `PoolGuarantees.ReturnedCallFollowsGraph` ties it to the graph.
- `ScanMachine.RunsAgree` compares runs of one plugin graph. Two scans in practice may meet different
  ones: the persistent duplicate check is on by default and suppresses for 24 hours what completed
  before, all crawls of a process share one page budget, and the in-memory duplicate check gives a
  task to one trace only where two traces share value and plugin but not the type. Several plugins
  are registered for two types, such as `DNSRecordsPlugin` on domains and subdomains, so the schedule
  decides which of the two traces gets the finds and appears as their parent. `SubmittedScan` shows
  that the set of results still does not depend on it as long as finds depend on the task id alone,
  which holds of plugins that look up the value only (`SubmittedScan.SuppressionIsSafe`), and that it can
  otherwise.
- Ids handed out by `AUTOINCREMENT` are any number larger than all earlier ones. Every database
  statement may fail for no stated reason; the driver counts such faults, and the methods above it
  fail exactly when the count went up or a constraint was violated.
- Goroutine and reply order, map iteration order, the duplicate check, the rate limiter, the
  breaker and cancellation inside the pool, and the answers of the shared page budget are
  nondeterministic, so the theorems hold for every schedule.
- Clock readings are parameters.
- A scan of a plugin graph with infinitely many reachable traces does not end. `ProcessInput`
  therefore takes a finite set the plugins do not lead out of, as a ghost argument; the theorems
  about runs do not need it.

Where the code differs from what it or its documents say, the model follows the code:

- `InsertEdge` is described as idempotent. It is exactly for edges with a parent: SQLite's `UNIQUE`
  treats NULLs as distinct, so the seed edge is added again each time
  (`TraceTables.InsertEdgeIsIdempotent`). The end-to-end theorems therefore ask for a fresh scan id,
  which the scan command always has (`ScanEngine.Engine.RunScan`).
- `GetDiscoveryPath` does not put the parent of its first row into the visited text, so a returned
  chain may pass through that parent twice. It does for exactly those edge tables
  `DiscoveryPath.TwistedIffCyclicParent` describes.
- `processBatch` falls back to one goroutine when the concurrency is not positive, but too late:
  with 0 `ProcessInput` has by then cut an empty batch and loops forever, and with a negative number
  cutting the batch panics (`ScanMachine.FinishesIffConcurrency`). Its error branch for a failed batch is never taken,
  since `processBatch` always returns a nil error.
- Results come in hop order for one worker only (`HopOrder.HopOrderNeedsOneWorker`).
- `GetID` is called a unique identifier but leaves out the trace's type
  (`Tasks.TaskIdIgnoresType`).
- `spec/contact_crawler.md` wants an error when the seed page fails; the code returns no error.
- The breaker compares the failure time with the window only after recording it. A tripping failure
  recorded later than the window allows leaves a closed breaker closed and a trial half-open
  (`CircuitBreakers.OpenIffTrailingFailures`, `CircuitBreakers.HalfOpenIffLateTrial`). A breaker left
  half-open refuses every later call exactly when more than one trial is configured
  (`CircuitBreakers.StuckUnlessOneTrial`).

## Model

| member | source | states |
|---|---|---|
| `Entities.TraceKeyInjective` | internal/pkg/database/graph.go:11-13 | no two traces share a cache key, because types hold no NUL |
| `VisitedGuard.GuardIsMembership` | internal/pkg/database/graph.go:160-175 | `,id,` occurs in the visited text if and only if id is one of the listed ids, negative ids included |
| `VisitedGuard.DecimalReadsBack` | internal/pkg/database/graph.go:161-169 | the text of an id is its decimal numeral, which reads back as the id |
| `VisitedGuard.EncodeAppend` | internal/pkg/database/graph.go:168-169 | the recursive select's concatenation is the encoding of the list with one more id |
| `Walks.SimpleWalk` | internal/pkg/database/graph.go:211-231 | every walk contains a simple walk with the same ends and no more links |
| `Walks.LabelsBoundWalks` | internal/app/deeper/engine/engine.go:72-94 | labels that grow by at most one along each link bound the length of every walk |
| `TraceTables.InsertEdgeIsIdempotent` | internal/pkg/database/graph.go:51-69 | a second insert changes nothing if and only if the edge has a parent |
| `TraceTables.InTurnIsPersisted` | internal/pkg/database/graph.go:128-146 | storing discoveries one by one with fresh look-ups has the effect of the batch |
| `TraceTables.PersistedValid` | internal/pkg/database/migrations/00002_trace_graph.sql:5-25 | a batch keeps both uniqueness constraints and all foreign keys |
| `TraceTables.PersistAgainChangesNothing` | internal/pkg/database/graph.go:71-152 | persisting the same batch twice leaves the tables as after the first time |
| `TraceTables.PersistedMeaning` | internal/pkg/database/graph.go:71-152 | read through the id bijection, a batch adds exactly its traces and edges |
| `TraceTables.PersistedUpToIds` | internal/pkg/database/graph.go:71-152 | batch and one-by-one form end in stores that read the same, whatever ids were chosen |
| `TraceTables.LiftAddAllNew` | internal/pkg/database/graph.go:138-142 | insert-or-ignore on ids and on traces agree |
| `Repositories.Repository.GetOrCreateTrace` | internal/pkg/database/graph.go:15-49 | an existing trace keeps its id, a new one gets a new id; fails exactly on a driver fault, with at most this trace added |
| `Repositories.Repository.InsertEdge` | internal/pkg/database/graph.go:51-69 | adds the row unless it repeats one with a parent; fails exactly on a driver fault or a broken foreign key, unchanged |
| `Repositories.Repository.ResolveCached` | internal/pkg/database/graph.go:89-126 | same as the uncached look-up, and the id cache agrees with the table for every trace |
| `Repositories.Repository.PersistOne` | internal/pkg/database/graph.go:128-146 | one turn of the batch loop is one discovery stored in the simple form |
| `Repositories.Repository.PersistDiscoveries` | internal/pkg/database/graph.go:71-152 | success commits the whole batch, an error leaves every table unchanged, and it fails exactly on a fault or an unknown scan |
| `Repositories.Repository.CreateScanSession` | internal/pkg/database/repository.go:163-191 | a new scan id that no edge carries; fails exactly on a driver fault |
| `ReachableQuery.RowsAreSimpleWalks` | internal/pkg/database/graph.go:212-224 | every row of the recursion spells out a simple walk of its hop length |
| `ReachableQuery.SimpleWalksHaveRows` | internal/pkg/database/graph.go:212-224 | every simple walk within the budget has its row |
| `ReachableQuery.RecursionStops` | internal/pkg/database/graph.go:211-224 | the recursion is empty past the hop budget and past the number of nodes |
| `ReachableQuery.GroupMinSource` | internal/pkg/database/graph.go:225-228 | a group's hop count is the count of one of its rows |
| `ReachableQuery.GroupMinBound` | internal/pkg/database/graph.go:225-228 | a group's hop count is at most that of each of its rows |
| `ReachableQuery.AnswerExists` | internal/pkg/database/graph.go:225-229 | the joined groups can always be listed in the required order |
| `ReachableQuery.ReachableIsShortestDistance` | internal/pkg/database/graph.go:206-249 | for any edge table the answer lists each node once, exactly those within maxHops, with their shortest distance, nearest first and, at one distance, in the order of their values, compared character by character |
| `ReachableQuery.TextOrder` | internal/pkg/database/graph.go:229 | one value sorts before another if and only if past their common start it ends, or its next character is the smaller |
| `ReachableQuery.NegativeBudget` | internal/pkg/database/graph.go:206-249 | a negative budget still answers with the start node, if it has a row |
| `DiscoveryPath.PathRowsAreChains` | internal/pkg/database/graph.go:154-178 | a row is returned if and only if it ends a guarded backward chain of scan edges from the target |
| `PathMultiplicity.OneRowPerChain` | internal/pkg/database/graph.go:154-178 | the answer has one row for each guarded chain: as sequences of places in the edge table the chains are pairwise different, complete, and as many as the rows, each ending with its row |
| `DiscoveryPath.PathIsRootFirst` | internal/pkg/database/graph.go:176-178 | rows come in decreasing hop order |
| `DiscoveryPath.PathRecursionStops` | internal/pkg/database/graph.go:160-175 | the recursion is empty once it has as many rounds as there are possible nodes |
| `DiscoveryPath.SimplePathsAppear` | internal/pkg/database/graph.go:154-204 | every edge of every simple path to the target is returned, at its distance from the target |
| `DiscoveryPath.ChainIsSimple` | internal/pkg/database/graph.go:161-174 | a returned chain is a simple path if and only if it does not come back to its first parent (the step to the next row) |
| `DiscoveryPath.TwistedIffCyclicParent` | internal/pkg/database/graph.go:154-178 | a path that is not simple is returned if and only if the edge table links the target to itself, or has a cycle that avoids the target through a parent of it |
| `DiscoveryPath.ChainMayRevisitItsFirstParent` | internal/pkg/database/graph.go:161-174 | a three-edge table on which that happens |
| `ScanMachine.StepAdds` | internal/app/deeper/engine/engine.go:72-97 | a batch keeps all found traces and adds exactly the unseen children of the batch |
| `ScanMachine.ResultsAreTheClosure` | internal/app/deeper/engine/engine.go:58-102 | the results of any finished run are the least closed set holding the seed, without repetition, seed first |
| `ScanMachine.RunsAgree` | internal/app/deeper/engine/engine.go:58-102 | two finished runs agree up to order, for any batch sizes and completion orders |
| `SubmittedScan.SuppressionLosesNothing` | internal/app/deeper/engine/engine.go:72-97 | if finds depend on the task id alone, a scan that runs each id once still ends, for every schedule, with exactly the traces reachable when all tasks run |
| `SubmittedScan.SuppressedRunsAgree` | internal/app/deeper/engine/engine.go:72-97 | and agrees up to order with every scan that suppresses nothing |
| `SubmittedScan.SuppressionIsSafe` | internal/app/deeper/engine/engine.go:72-97 | in terms of values: if what a plugin finds does not depend on the trace's type and names hold no colon, every schedule ends with exactly what eligible plugins lead to from the seed |
| `SubmittedScan.EachTaskRunsOnce` | internal/pkg/workerpool/workerpool.go:166-184 | over a whole scan no plugin is asked twice about one value, whatever the types of the traces that carry it |
| `SubmittedScan.ScheduleDecides` | internal/app/deeper/engine/engine.go:72-97 | if finds depend on the type, two schedules of one scan end with different traces, for every concurrency from two up |
| `SubmittedScan.TypesShareAnId` | internal/pkg/plugins/dns_records/main.go:32-33 | a domain and a subdomain of one value have one task id for the plugin registered for both types |
| `ScanMachine.EachTraceProcessedOnce` | internal/app/deeper/engine/engine.go:72-97 | the batches of a finished run spell out the results, so each trace is processed exactly once |
| `ScanMachine.RunIsBounded` | internal/app/deeper/engine/engine.go:72-97 | with at least one worker a run has no more batches than there are reachable traces |
| `ScanMachine.ProgressNeedsConcurrency` | internal/app/deeper/engine/engine.go:72-75 | a turn of the loop that does not panic changes the state if and only if the concurrency is at least one |
| `ScanMachine.FinishesIffConcurrency` | internal/app/deeper/engine/engine.go:72-97 | over finitely many traces a scan can finish if and only if the concurrency, which may be configured as any integer, is at least one |
| `ScanMachine.OneWorkerIsBreadthFirst` | internal/app/deeper/engine/engine.go:72-94 | with one worker results are non-decreasing in distance from the seed, in whatever order plugins reply |
| `HopOrder.HopOrderNeedsOneWorker` | internal/app/deeper/engine/engine.go:72-94 | hop order is guaranteed for all plugin graphs and schedules if and only if the concurrency is one |
| `HopOrder.StraddlingRunIsOutOfOrder` | internal/app/deeper/engine/engine.go:72-94 | for every concurrency of two or more, a run whose results are not in hop order |
| `ScanMachine.AdmitKeepsOrder` | internal/app/deeper/engine/engine.go:88-94 | the new children of a batch are appended in the order in which they first come in its results |
| `Text.TrimSpaceCutsSpace` | internal/app/deeper/engine/engine.go:38-41 | the input is cut at both ends: only space goes, and what remains has none at either end |
| `Text.TrimmedIsUnique` | internal/app/deeper/engine/engine.go:38-41 | that part of the input is the only one of its kind |
| `ScanEngine.Engine.ProcessBatch` | internal/app/deeper/engine/engine.go:105-147 | the discoveries of the traces that did not fail, in any completion order, and nothing else |
| `ScanEngine.Engine.AdmitChildren` | internal/app/deeper/engine/engine.go:88-94 | appends each child not seen before, once |
| `ScanEngine.Engine.PersistSeed` | internal/app/deeper/engine/engine.go:45-56 | records the seed and its edge; an error leaves at most the seed's trace and no edge |
| `ScanEngine.Engine.OneBatch` | internal/app/deeper/engine/engine.go:72-97 | one step of the machine, with every discovery of the batch persisted |
| `ScanEngine.Engine.ProcessInput` | internal/app/deeper/engine/engine.go:36-103 | succeeds exactly without a fault on a known scan and non-blank input; the store then holds exactly the traces and edges of a finished run, and after an error those of the run so far; the first result is the trimmed part of the input, typed by it; blank input is an error whatever the configuration |
| `ScanEngine.Engine.RunScan` | internal/app/deeper/cli/scan.go:51-64 | the scan command creates a fresh session, so after every success the graph theorems hold of its scan id; the first result is the trimmed input |
| `ScanGraph.BatchStored` | internal/app/deeper/engine/engine.go:84-94 | persisting a batch extends the stored scan by exactly the batch, seen children included |
| `ScanGraph.LinksAreChildren` | internal/app/deeper/engine/engine.go:77-94 | on a fresh scan id the stored links are the plugins' parent-child pairs |
| `ScanGraph.DistancesAgree` | internal/pkg/database/graph.go:206-249 | distances in the stored graph are distances in the plugin graph |
| `ScanGraph.QueryReturnsTheResults` | internal/app/deeper/engine/engine.go:45-102 | with a budget of at least results minus one, the query from the root returns exactly the results, each with its distance |
| `ScanGraph.ResultsFollowReportedHops` | internal/app/deeper/engine/engine.go:72-94 | with one worker the returned list is non-decreasing in the hops the query reports |
| `ScanGraph.ResultsHaveDiscoveryPaths` | internal/pkg/database/graph.go:154-204 | every result but the seed has a simple root-to-target path all of whose edges the path query returns |
| `WorkerPool.InvAlways` | internal/pkg/workerpool/workerpool.go:148-213 | the protocol invariant holds after any sequence of actions of callers and workers |
| `WorkerPool.KeepEnqueue` | internal/pkg/workerpool/workerpool.go:201-212 | putting a task on the queue keeps the invariant |
| `WorkerPool.KeepDedup` | internal/pkg/workerpool/workerpool.go:166-184 | replying to a duplicate at submission keeps the invariant |
| `WorkerPool.KeepRun` | internal/pkg/workerpool/workerpool.go:340-373 | running the handler keeps the invariant |
| `WorkerPool.KeepSend` | internal/pkg/workerpool/workerpool.go:375-388 | a worker's reply keeps the invariant |
| `WorkerPool.KeepReceive` | internal/app/deeper/processor/processor.go:139-166 | one turn of the collection loop keeps the invariant |
| `TraceProcessor.FilterTraces` | internal/app/deeper/processor/processor.go:267-272 | keeps exactly the traces with a value, each as often as it comes and in the order they come |
| `TraceProcessor.CollectReplies` | internal/app/deeper/processor/processor.go:139-166 | the discoveries are the traces with a value of the replies received, one for one: reply by reply, and within a reply in the plugin's order |
| `PoolGuarantees.OneReplyPerAcceptedTask` | internal/pkg/workerpool/workerpool.go:171-213 | an accepted task has exactly one reply once it left queue and worker, and none before; a rejected task has none |
| `PoolGuarantees.SendsNeverBlock` | internal/pkg/workerpool/workerpool.go:375-388 | no send to a reply channel, with its one place per registered plugin, finds it full, in any reachable state, even after the caller gave up |
| `PoolGuarantees.ReturnedCallGotAllReplies` | internal/app/deeper/processor/processor.go:91-146 | channels carry only their caller's replies; a returned call received each accepted task's reply once |
| `PoolGuarantees.DiscoveriesHaveSources` | internal/app/deeper/processor/processor.go:95-166 | each discovery names the call's trace, a plugin registered for its type that implements the interface and does not reject the trace, and a non-empty child that plugin returned for it |
| `PoolGuarantees.ReturnedCallHasAllFinds` | internal/app/deeper/processor/processor.go:139-183 | for a returned call the converse holds as well: the discoveries are exactly those |
| `PoolGuarantees.EligibleTasksHaveOneFate` | internal/app/deeper/processor/processor.go:99-163 | for a returned call every registered plugin that implements the interface and does not reject the trace was refused, deduplicated, failed or returned, exactly one of these, and no other plugin any |
| `PoolGuarantees.AllReturnedFindsAll` | internal/app/deeper/processor/processor.go:99-183 | if all of them returned, the discoveries are exactly the finds of all plugins registered for the type that accept the trace |
| `PoolGuarantees.ReturnedCallFollowsGraph` | internal/app/deeper/processor/processor.go:99-183 | where the plugin graph lists those finds, the call returns a possible result of the batch that holds its trace |
| `PoolGuarantees.EventDecreases` | internal/app/deeper/processor/processor.go:98-146 | an action of a call strictly lowers the rank of that call, summed over the stages of its tasks; every other action, a new call included, leaves the call unchanged |
| `PoolGuarantees.CallActionsAreBounded` | internal/app/deeper/processor/processor.go:98-146 | in any run, however many other calls start meanwhile, a call takes no more actions than its rank |
| `PoolGuarantees.RunsAreBounded` | internal/app/deeper/processor/processor.go:98-146 | in any run the actions taken are at most the ranks of the calls at its start plus those of the calls that start in it |
| `PoolGuarantees.QueuedTaskAdvances` | internal/pkg/workerpool/workerpool.go:204-212 | until a worker takes it, a queued task never loses its place, and every worker action brings it nearer to a free worker |
| `PoolGuarantees.QueuedTaskIsNotPassedOver` | internal/pkg/workerpool/workerpool.go:327-337 | the workers do only boundedly many things before they take a queued task, whatever calls start and submit meanwhile |
| `PoolGuarantees.WaitingCallsProgress` | internal/app/deeper/processor/processor.go:139-146 | with a worker, a waiting call always has an enabled action, no cancellation, that is its own or brings a queued task of it nearer to a worker |
| `PoolGuarantees.AtRestAllCallsEnded` | internal/app/deeper/processor/processor.go:139-183 | when nothing can happen any more every call has ended |
| `PoolOrder.EnabledIffGuard` | internal/pkg/workerpool/workerpool.go:149-213 | in every reachable state each action can happen exactly under the code's own condition: a registered plugin that accepts the trace or does not, a free place in the queue, a reply to receive, an idle or busy worker |
| `PoolOrder.DiscoveriesFollowReplies` | internal/app/deeper/processor/processor.go:148-165 | in every reachable state a call's discoveries are the traces of the replies it received, one for one and in that order |
| `PoolOrder.RepliesComeInOrder` | internal/app/deeper/processor/processor.go:139-146 | over any run a reply channel hands over the replies in the order they were sent |
| `PoolOrder.PoolStaysWithinBounds` | internal/pkg/workerpool/workerpool.go:97-146 | the queue never holds more than its size, the pool keeps its number of workers, and a call is made only for a trace whose type has plugins, with one task for each |
| `PoolDeduplication.SharedPoolIsReachable` | internal/pkg/workerpool/workerpool.go:149-213 | the duplicate check leads the pool into no state it could not reach without it, so every guarantee of the pool holds under the check |
| `PoolDeduplication.SubmissionSteps` | internal/pkg/workerpool/workerpool.go:166-212 | a task of an accepting plugin is checked once, and is then answered if a duplicate was found, else queued if there is room or refused |
| `PoolDeduplication.OneTaskPerId` | internal/pkg/workerpool/workerpool.go:166-184 | with room for all ids, of the accepted tasks sharing an id at most one was not answered as a duplicate, under every interleaving of checks, replies and submissions |
| `PoolDeduplication.FirstOfItsId` | internal/pkg/workerpool/workerpool.go:166-212 | of the tasks with a checked id exactly one passed the check, and every other accepted one was answered as its duplicate, even where the pool refused that one |
| `PoolDeduplication.OneTaskPerValueAndPlugin` | internal/pkg/workerpool/workerpool.go:166-184 | with that room, of the accepted tasks for one value and one plugin name, whatever the traces' types, at most one was not answered as a duplicate |
| `PoolDeduplication.DuplicateHasAnOriginal` | internal/pkg/workerpool/workerpool.go:166-184 | with any room, a task is answered as a duplicate only if another one for the same value and plugin name passed its check, for names without a colon |
| `PoolDeduplication.AcceptedWasChecked` | internal/pkg/workerpool/workerpool.go:166-184 | every accepted task was checked |
| `LruOrder.AfterBounded` | internal/pkg/workerpool/deduplication.go:303-337 | after any history there are no duplicates and at most max(maxSize, 0) keys |
| `LruOrder.LargerCacheHoldsMore` | internal/pkg/workerpool/deduplication.go:287-358 | for any history a smaller cache's recency list is a subsequence of a larger one's |
| `LruOrder.MemoryIsRecent` | internal/pkg/workerpool/deduplication.go:105-138 | the memory is the most recent distinct ids of the history, up to the capacity |
| `LruOrder.PlaceIsStackDistance` | internal/pkg/workerpool/deduplication.go:105-138 | an id's place in the recency list is the number of distinct ids seen since |
| `LruOrder.HitIffFewSeenSince` | internal/pkg/workerpool/deduplication.go:105-138 | in the recency list after any history, an id is held if and only if it occurred and fewer than the capacity of other ids were seen since (used by `CheckAll`) |
| `LruOrder.EachIdAdmittedOnce` | internal/pkg/workerpool/deduplication.go:105-138 | with room for all distinct ids, an id is held if and only if it occurred before (used by `PoolDeduplication`) |
| `LruCaches.LruCache.Get` | internal/pkg/workerpool/deduplication.go:286-300 | a hit returns the stored value and moves the key to the front, a miss changes only a counter |
| `LruCaches.LruCache.Put` | internal/pkg/workerpool/deduplication.go:302-337 | the new recency list and values; an existing key keeps its element, a new one gets a fresh one; map and list stay in bijection and the counters add up |
| `LruCaches.LruCache.KeyOf` | internal/pkg/workerpool/deduplication.go:326-332 | the search over the map finds the key of the evicted element, in any iteration order |
| `LruCaches.LruCache.Evict` | internal/pkg/workerpool/deduplication.go:320-336 | the last list element and its map entry go together |
| `LruCaches.LruCache.Clear` | internal/pkg/workerpool/deduplication.go:351-358 | empties map and list and keeps the hit, miss and eviction counters |
| `LruCaches.LruCache.Size` | internal/pkg/workerpool/deduplication.go:344-349 | the list length, equal to the size metric |
| `CacheTable.CleanupIsInvisible` | internal/pkg/database/repository.go:363-381 | cleaning changes no later lookup |
| `CacheTable.LookupSeesLastWrite` | internal/pkg/database/repository.go:313-387 | over any history a lookup sees the key's last store until its time to live is over |
| `CacheTable.CleanedTableIsAlive` | internal/pkg/database/repository.go:371-387 | after any history, a cleanup leaves exactly the keys whose last store is still alive, with its value |
| `CacheTable.CacheStore.Set` | internal/pkg/database/cache.go:52-78 | a positive time to live becomes an expiry time, any other none; an error stores nothing |
| `CacheTable.CacheStore.Get` | internal/pkg/database/cache.go:30-50 | an absent or expired row is a miss, any other row a hit with its value |
| `CacheTable.CacheStore.CleanExpired` | internal/pkg/database/repository.go:371-387 | deletes exactly the rows whose expiry time has passed |
| `Tasks.TaskIdIgnoresType` | internal/app/deeper/processor/tasks/tasks.go:14-17 | for plugin names without a colon, two task ids are equal if and only if value and plugin are, whatever the types |
| `Tasks.TaskIdsCollide` | internal/app/deeper/processor/tasks/tasks.go:14-17 | for any plugin names, two ids are equal if and only if value and plugin agree or overlap around a colon |
| `Deduplication.DeduplicationCache.CheckPersistent` | internal/pkg/workerpool/deduplication.go:195-215 | a hit is any row for the id that has not expired; an error is a driver fault |
| `Deduplication.DeduplicationCache.IsDuplicate` | internal/pkg/workerpool/deduplication.go:100-138 | when a task counts as a duplicate, and what memory and counters are afterwards |
| `Deduplication.CheckAll` | internal/pkg/workerpool/deduplication.go:100-138 | in any sequence of checks of a memory-only cache, a check answers duplicate if and only if the id was checked before and fewer other distinct ids than there is room for were checked since |
| `Deduplication.DeduplicationCache.StoreMarker` | internal/pkg/workerpool/deduplication.go:217-228 | the marker written for a completed task |
| `PersistentMarkers.PersistentHitMeansCompleted` | internal/pkg/workerpool/deduplication.go:140-162 | a persistent hit implies an earlier error-free completion and a marker younger than the time to live |
| `PersistentMarkers.PersistentHitIffFlushed` | internal/pkg/workerpool/deduplication.go:140-215 | the table answers duplicate if and only if the task's marker was written, and no longer ago than the time to live if that is positive |
| `PersistentMarkers.CleanupLeavesLiveMarkers` | internal/pkg/database/repository.go:371-387 | after a cleanup the table holds rows for exactly the tasks whose marker is still alive |
| `PersistentMarkers.MarkersAreOwed` | internal/pkg/workerpool/deduplication.go:140-162 | every error-free completion owes one marker, pending until its goroutine writes it |
| `CrawlMachine.CrawlIsBounded` | internal/pkg/plugins/contact_crawler/crawl.go:85-160 | at most maxPages pages, all on the seed's registrable domain, none tried twice; the collected traces are those of the loaded pages, once each |
| `CrawlMachine.TracesKeepOrder` | internal/pkg/plugins/contact_crawler/crawl.go:127-135 | a page's new traces are collected in the order in which they first stand on it |
| `CrawlMachine.LinksKeepPageOrder` | internal/pkg/plugins/contact_crawler/crawl.go:141-156 | exactly the unvisited links on the seed's site are queued, each as often and in the order they stand on the page |
| `CrawlMachine.VisitDecreases` | internal/pkg/plugins/contact_crawler/crawl.go:93-157 | each turn fetches a page or shortens the queue |
| `CrawlMachine.SeedTryIsSeed` | internal/pkg/plugins/contact_crawler/crawl.go:116-124 | the http fallback and the early return are offered to the seed and to no other page |
| `CrawlMachine.LoadIsPage` | internal/pkg/plugins/contact_crawler/crawl.go:162-187 | a load yields the page parsed from the address itself, or, for the seed only and only if https does not answer, the page parsed from the same address over http; it yields none exactly if neither answers |
| `CrawlPages.CrawlStartsAtSeed` | internal/pkg/plugins/contact_crawler/crawl.go:85-187 | a crawl never refused a page has as its first page what the seed answers over https, else over http, else no page and no trace; every later page comes from its own address as it stands; a seed off its site yields nothing |
| `CrawlMachine.CrawlIsComplete` | internal/pkg/plugins/contact_crawler/crawl.go:85-160 | if neither cap binds and the seed loads, the tried pages are exactly the in-scope ones within maxDepth, at their shortest depth, nearest first, given that fragment stripping is stable on the links of the pages that loaded |
| `CrawlMachine.CrawlIsBreadthFirst` | internal/pkg/plugins/contact_crawler/crawl.go:85-160 | also when the page cap binds: as long as the budget refused nothing, the tried pages come nearest first, each once at its shortest distance, and no page nearer than the last of them was left out |
| `ContactCrawler.GrantsAreCapped` | internal/pkg/plugins/contact_crawler/crawl.go:45-65 | over any interleaving a domain is granted the smaller of its requests and the maximum |
| `ContactCrawler.ServeRequests` | internal/pkg/plugins/contact_crawler/crawl.go:38-65 | a budget asked by any sequence of requests gives the answers that theorem counts, hosts without a domain included |
| `ContactCrawler.DomainBudget.TrySpend` | internal/pkg/plugins/contact_crawler/crawl.go:45-65 | granted exactly while spends are below the maximum; remaining stays maximum minus spends, per domain |
| `ContactCrawler.Crawler.CollectTraces` | internal/pkg/plugins/contact_crawler/crawl.go:127-135 | adds the page's traces not collected before, and the key set matches the list |
| `ContactCrawler.Crawler.QueueLinks` | internal/pkg/plugins/contact_crawler/crawl.go:141-156 | appends the unvisited same-site links, stripped, one level deeper |
| `ContactCrawler.Crawler.Fetch` | internal/pkg/plugins/contact_crawler/crawl.go:116-156 | what a granted fetch does to queue, traces and counters: a page more with its traces, or nothing and, for the seed, the end |
| `ContactCrawler.Crawler.FetchURL` | internal/pkg/plugins/contact_crawler/crawl.go:162-187 | the first of the addresses to try that answers, parsed under that address |
| `ContactCrawler.NormalizeURL` | internal/pkg/plugins/contact_crawler/crawl.go:278-284 | a trimmed input with an http or https scheme is kept, any other becomes the root page of an https site |
| `ContactCrawler.Crawler.Crawl` | internal/pkg/plugins/contact_crawler/crawl.go:85-160 | terminates as a run of the machine from the normalized seed, under interference from other crawls; its pages come from where `CrawlStartsAtSeed` says; every fetch is paid from the budget, and one is refused only once the budget is used up |
| `CircuitBreakers.CircuitBreaker.constructor` | internal/pkg/workerpool/circuitbreaker.go:37-56 | a positive value given is kept, any other becomes 5 failures, 60 seconds, 3 calls, 60 seconds |
| `CircuitBreakers.CircuitBreaker.Execute` | internal/pkg/workerpool/circuitbreaker.go:197-219 | whether fn is called and the whole new state |
| `CircuitBreakers.CircuitBreaker.RecordResult` | internal/pkg/workerpool/circuitbreaker.go:118-164 | the state after a success or a failure |
| `CircuitBreakers.CircuitBreaker.TryHalfOpen` | internal/pkg/workerpool/circuitbreaker.go:172-195 | half-open exactly from open after the recovery timeout |
| `CircuitBreakers.OpenIffTrailingFailures` | internal/pkg/workerpool/circuitbreaker.go:119-219 | for every run and clock: between any two calls the breaker is open if the trailing failures reach the threshold and closed otherwise, if and only if no failure that brings them there is recorded later than the window allows |
| `CircuitBreakers.FailingCallsAreRare` | internal/pkg/workerpool/circuitbreaker.go:119-219 | an all-failing run calls fn at most threshold plus elapsed time over recovery timeout times, provided no such late failure occurs or the window is at least the recovery timeout less one tick |
| `CircuitBreakers.RareIffWindowCoversRecovery` | internal/pkg/workerpool/circuitbreaker.go:119-219 | over all all-failing runs of a configuration, late ones included, that bound holds if and only if the recovery timeout is at most the window plus one tick, as in the defaults |
| `CircuitBreakers.CountersFollowOutcomes` | internal/pkg/workerpool/circuitbreaker.go:119-164 | over any run the success count is the number of successes and the failure time that of the last failure; refused calls leave no trace |
| `CircuitBreakers.TrialMayEndHalfOpen` | internal/pkg/workerpool/circuitbreaker.go:137-164 | one trial of an open breaker ends half-open exactly when it fails and is recorded later than the window allows |
| `CircuitBreakers.HalfOpenIffLateTrial` | internal/pkg/workerpool/circuitbreaker.go:119-219 | a run leaves the breaker half-open between calls if and only if one of its trials was such a one |
| `CircuitBreakers.LateRunsExist` | internal/pkg/workerpool/circuitbreaker.go:119-219 | every configuration has a run from a new breaker that ends half-open, and one that ends closed with the threshold reached |
| `CircuitBreakers.HalfOpenIsStuck` | internal/pkg/workerpool/circuitbreaker.go:60-73 | a half-open breaker refuses every later call if and only if it has trials to spare |
| `CircuitBreakers.StuckUnlessOneTrial` | internal/pkg/workerpool/circuitbreaker.go:197-219 | after a run that ends half-open, every later call is refused if and only if more than one trial is configured |
| `TraceMetrics.TraceTypeMetrics.Record` | internal/pkg/metrics/metrics.go:171-195 | the counters and the truncated average after one recording |
| `TraceMetrics.AverageErrorIsBounded` | internal/pkg/metrics/metrics.go:189-194 | after n traces the average is short by at most n(n-1)/2 in total and stays within the recorded range |
| `TraceMetrics.TotalsAddUp` | internal/pkg/metrics/metrics.go:171-195 | over any recordings, processed or not, the counters are the totals, the average stays within the recorded range, and is the last time recorded until a trace was processed |
| `TraceMetrics.QuotientTruncates` | internal/pkg/metrics/metrics.go:189-192 | the division truncates toward zero for negative times as well |
| `TraceMetrics.BoundIsTight` | internal/pkg/metrics/metrics.go:189-194 | the times 0, 1, 2, ... reach that bound |

## Left out

- Fetching and parsing in the plugins, HTML parsing, URL parsing, the public suffix list, the CLI,
  reports and logging: input and output; where needed they are functions given from outside.
- ScanEngine.Engine.ProcessInput: asks for a positive concurrency and a finite set the plugins do not
  lead out of, because without them the loop need not end; `ScanMachine` has no such condition.
- Columns that no modelled query reads: edge ids, `discovered_at`, `metadata`, session statistics. Edges are kept in
  insertion order instead.
- Locks inside the repository, the cache and the budget: each of their calls is one atomic step.
- A second process on the same database file, and a connection recycled after an hour, on which
  `PRAGMA foreign_keys` would be off.
- SHA-256 in task ids and cache keys, taken as injective; JSON of cache rows; text encoding of times.
- Repositories.Repository.GetOrCreateTrace: on an error it does not say which statement failed, so
  the trace may or may not have been added.
- Updates in place inside the pool: its channels, counters and reply channels are parts of a state
  value, because one step of the model is one goroutine's.
- `GetScanGraph`, `CountEdges` and the other repository queries: they read rows back unchanged.
- How often the recursion of `GetReachableTraces` comes to one row: the grouping hides it.
- Order of ties in the two queries: SQLite leaves it open; the path query is given one order, the
  reachability query any.
- Inside the pool: shutdown, the shared result queue of `GetResult`, the panics of plugins, the
  token-bucket rate limiter, and which of the refusals in `Submit` occurs.
- The pool never calls `tryHalfOpen`, and concurrent calls may interleave inside `Execute`; the
  breaker is modelled for sequential `Execute` calls.
- The duplicate check as two separate steps: one call of `IsDuplicate` is atomic here, so nothing is
  claimed about two concurrent first submissions of one task.
- Accuracy of the average when recordings of skipped traces are mixed in: only its range is stated.
- Machine integer overflow: ids, hop counts, nanoseconds and counters are unbounded.
- Fetches of one URL at different times: within one crawl a URL has one outcome.
