# Verified model of the company-intelligence backend

This project models the parts of the backend whose correctness rests on more than one
function, and proves what they promise. All paths below are relative to the repository.

**Ownership engine** (`Ownership*.dfy` without `Extract` and `Ingestion`). The tenant's
ownership links are a sequence in query order; percentages are reals. The wave loader, the
breadth-first graph builder, the recursive walks `traverse` and `walkUp`, the path dedupe
and the cycle search are methods with the loops and recursion of the source. Each is proved
against a specification function over *all* links (chains, distances, path sums), and
`GetOwnershipGraph` ties them together: what is computed from the loaded subgraph is what
all canonically stored links would give. `OwnershipRows` tells the answer a second time from
the rows of the table alone, so that it shows only the tenant's own current rows.

**Registry pipeline** (`Bv*.dfy`). Parsed tables, views, loaders, the three queues, lookup
rows and the physical read tables. A worker's attempt at a queue row is one action with an
ok/fail choice, since the exception block undoes everything but the bookkeeping. `Database`
holds the tables as fields and runs the worker procedures on them; every batch is proved to
be a run of actions, so the theorems about runs speak of the procedures. `BvReadTheorems`
tells what a refreshed company shows from the stored payloads.

**Weekly universe** (`BulkHistory*.dfy`, `BulkRemovals.dfy`, `BulkClosings.dfy`,
`BulkIngest.dfy`, `FailureMessage.dfy`). The current table and its temporal history over any
sequence of file runs, also told from the files alone, the checkpointed ingest with its
failure points, and the failure message.

**Step machines** (`RateLimiter`, `RateLimiterClock`, `ProviderPacing`, `TenantSlots`,
`Alerts`, `AlertRuns`, `AlertPasses`, `OwnershipExtract`, `OwnershipIngestion`). The
sliding-window limiter and its clock, provider pacing, the per-tenant slots under any
interleaving, alert cooldown and dedupe, and the rebuild of registry-sourced ownership links
with its queue.

`Sequences`, `Strings` and `Wrappers` hold what the models share.

## What the code does not do

Where a natural reading of the code is false, the project keeps the code's behaviour, gives
an input that breaks the reading, and proves when it does hold.

- A link whose owned number is stored with punctuation ("556000-1234") is grouped by its
  digits but never queried by them. The answer is the full one exactly when no such link lies
  into a company within four steps, on a credited chain or on a recorded path.
- `traverse` and `walkUp` treat an explicit zero control percentage differently. Control
  totals differ exactly when a counted chain passes such a link on a positive stake and every
  link of the chain passes some control on in `walkUp`, which also follows chains of seven
  links, one more than `traverse`.
- The cap of 40 control paths is looked at only on entering a company, so more can be kept:
  exactly those later ones whose person directly owns a company along the 40th.
- A payload that names another company than its raw row can leave that company's read rows
  stale without any refresh job. Exactly the payloads that name another company do so in
  some run whose other payloads match.
- The FI officer loader appends on every load. Officers are stored once exactly when the
  payload's parse row was done once; the application has two callers that enqueue a payload.
- History rows stay open on "unchanged" and rows of the same run are never closed. The
  history as of a moment still agrees with the current table exactly when no file carries
  two different records for one company.
- Lineage row numbers pair a batch's staged rows with its raw rows by position, so they are
  right exactly when no malformed row precedes a parsed one in the batch.
- The sliding window holds too many calls for some clocks: at given clock readings every
  pattern of calls obeys a limit of two or more exactly when the clock, once it has left the
  window after a reading, never comes within the window of that reading again.
- A detection pass reads the clock for every alert. Two of its alerts of one subscription,
  type and organisation lie more than the cooldown apart, so it creates at most one exactly
  when it is no longer than the cooldown; with a cooldown of zero it may create several.
- A rebuild of ownership links is exact and repeatable exactly when the item's own number is
  the requested one (or it has no owner edges). For an item filed under an `identitet` of at
  least ten digits that means a request of exactly ten digits, so twelve-digit and punctuated
  requests miss. A queue row whose rebuild throws is not tried again.

## Model

| member | source | states |
|---|---|---|
| OwnershipSubgraph.CollectRelevantOwnershipLinks | backend/src/ownership/ownership.service.ts:46-101 | whatever the links, cyclic or not, what is loaded is exactly the tenant's current rows, stored as digits, about companies that at most 47 such rows lead up to, each once, each company's in table order; no row of another tenant and no retired one |
| OwnershipSubgraph.LoadedExactly | backend/src/ownership/ownership.service.ts:64-94 | a row is loaded if and only if it is current, the tenant's, stored as digits, and about a company within 47 steps of the subject |
| OwnershipSubgraph.LoadWave | backend/src/ownership/ownership.service.ts:64-94 | one wave adds exactly the live links into its companies, whatever the chunking, and the next frontier is exactly the companies owning them |
| OwnershipSubgraph.AbsorbBatch | backend/src/ownership/ownership.service.ts:80-92 | links already seen, before or earlier in the answer, are skipped; the others are kept in order and their company owners with a number are queued |
| OwnershipSubgraph.WavesSettle | backend/src/ownership/ownership.service.ts:64-73 | once a wave brings nothing new, no later wave would |
| OwnershipSubgraph.LoadedLinksSuffice | backend/src/ownership/ownership.service.ts:46-101 | for every company within 47 steps the loaded links list the same owners in the same order as all canonically stored links of the tenant |
| OwnershipSubgraph.CanonicalIsEnough | backend/src/ownership/ownership.service.ts:76-83 | canonically stored links list all owners up to a distance if and only if no link into a company that near is stored with punctuation |
| OwnershipService.GetOwnershipGraph | backend/src/ownership/ownership.service.ts:336-560 | computed from the loaded subgraph: the edges are, if and only if and field by field, the tenant's current rows about companies within four steps; every node but the subject's tells of such a row; owners and control paths are the lines of such rows up to a person; all of it equals the answer of all the tenant's canonical links, and of all its links if and only if no punctuated link lies within four steps, on a credited chain or on a recorded path |
| OwnershipService.TenantsAreApart | backend/src/ownership/ownership.service.ts:76-79 | two tables with the same current rows of the tenant, in the same order, give equal answers, whatever other tenants' or retired rows they hold |
| OwnershipService.OnlyOwnRowsMatter | backend/src/ownership/ownership.service.ts:76-79 | rows of other tenants and retired rows can be dropped from the table, wherever they stand |
| OwnershipRows.EdgesAreRows | backend/src/ownership/ownership.service.ts:384-420 | each of the tenant's current rows about a company within four steps is one edge with that row's id, ends and percentages, direct if and only if it is about the subject; there are no other edges |
| OwnershipRows.NodesAreOfRows | backend/src/ownership/ownership.service.ts:367-420 | the subject is listed, every other node is the owner or the company of such a row, named as there, and all edge ends are listed once |
| OwnershipRows.OwnersAreEnds | backend/src/ownership/ownership.service.ts:425-453 | the derived owners are exactly the persons at the ends of lines of at most six rows, each once, named as in such a row |
| OwnershipRows.PathsAreLines | backend/src/ownership/ownership.service.ts:498-550 | every control path is a line of at most seven rows with the products of their percentages and its unknown-weights flag; below 40 paths every such line has one |
| OwnershipRows.OnePersonExactly | backend/src/ownership/ownership.service.ts:103-109 | two rows name one person if and only if both carry the same ten or more digits, or neither has ten and the trimmed names match up to case |
| OwnershipService.AnswerLooksSixStepsUp | backend/src/ownership/ownership.service.ts:348-560 | the whole answer depends only on the owners of companies within six steps |
| OwnershipService.LoadedGivesSameAnswer | backend/src/ownership/ownership.service.ts:336-348 | loading only what is reachable does not change the answer |
| OwnershipService.AnswerIsFullExactly | backend/src/ownership/ownership.service.ts:76-79 | the whole answer of the canonical links is that of all links under exactly that condition |
| OwnershipService.SmallAnswerIsFullExactly | backend/src/ownership/ownership.service.ts:76-79 | with fewer than 40 paths the condition is: no punctuated link into a company within four steps, and none on any ownership chain of at most seven links |
| OwnershipService.GraphIsFullExactly | backend/src/ownership/ownership.service.ts:378-420 | nodes and edges are those of all links if and only if no punctuated link is within four steps |
| OwnershipPunctuation.CanonicalChains | backend/src/ownership/ownership.service.ts:425-453 | the chains of the canonical links are those of all links that pass no punctuated link, in the same order |
| OwnershipPunctuation.OwnersKeptExactly | backend/src/ownership/ownership.service.ts:425-453 | the derived owners are those of all links if and only if no chain of at most six links passes a punctuated one |
| OwnershipPunctuation.PathsKeptExactly | backend/src/ownership/ownership.service.ts:498-550 | the control paths are those of all links, cap included, if and only if none of those passes a punctuated link |
| OwnershipPunctuation.FewPathsKeptExactly | backend/src/ownership/ownership.service.ts:505-505 | with fewer than 40 paths that is, if and only if no chain of at most seven links does |
| OwnershipService.PunctuatedNumberIsMissed | backend/src/ownership/ownership.service.ts:76-79 | a company whose sole owner is filed under "556000-1234" loses its edge, its owner and its control path |
| OwnershipService.CycleNodesOf | backend/src/ownership/ownership.service.ts:746-768 | on an answer's graph every cycle, and every cycle of ownership links whose companies all lie within four steps, has one of its companies reported; reported are exactly the nodes the search came to first on some cycle |
| OwnershipLinkCycles.CycleOfOwned | backend/src/ownership/ownership.service.ts:384-420 | every cycle of links within four steps is a cycle of the graph through the companies those links are into |
| OwnershipLinkCycles.GraphCyclesAreLinkCycles | backend/src/ownership/ownership.service.ts:384-420 | the graph has a directed cycle if and only if such a cycle of links exists |
| OwnershipAggregates.BuildOwnedByMap | backend/src/ownership/ownership.service.ts:350-356 | the map lists for every company exactly its links, in order, keyed by digits; numbers without digits are dropped |
| OwnershipAggregates.Traverse | backend/src/ownership/ownership.service.ts:425-453 | the recursive walk credits exactly the chains of at most six links, in walking order, each to the person it ends at |
| OwnershipChains.ChainsExact | backend/src/ownership/ownership.service.ts:425-453 | the enumeration behind both walks finds every ownership chain up to a length and nothing else |
| OwnershipChains.ChainsDistinct | backend/src/ownership/ownership.service.ts:425-453 | no chain is counted twice |
| OwnershipChains.ChainsInOrder | backend/src/ownership/ownership.service.ts:425-453 | both walks take the chains in the order of the table, by the first row in which two chains differ |
| OwnershipChains.ChainsAgree | backend/src/ownership/ownership.service.ts:425-453 | chains depend only on owners of companies nearer than their length |
| OwnershipMass.CreditIsPathSum | backend/src/ownership/ownership.service.ts:434-448 | a person's ownership and control are the sums, and `paths` the number, of the chains that end at them |
| OwnershipMass.ChainsPassOnAtMost | backend/src/ownership/ownership.service.ts:425-433 | with non-negative shares of at most 100 per company, any holding passes on at most itself over all chains, cycles included |
| OwnershipMass.OwnershipIsConserved | backend/src/ownership/ownership.service.ts:423-472 | derived ownership over all persons is at most 100, so at most four persons reach 25 through chains |
| OwnershipControlPaths.WalkUp | backend/src/ownership/ownership.service.ts:498-550 | the walk appends exactly the records of the chains it reaches, with its own factors, and stops as the cap of 40 demands |
| OwnershipControlPaths.RecordedAreChains | backend/src/ownership/ownership.service.ts:498-550 | every recorded path is an ownership chain of at most seven links, cap or no cap |
| OwnershipControlPaths.RecordedDistinct | backend/src/ownership/ownership.service.ts:498-550 | no chain is recorded twice |
| OwnershipControlPaths.RecordedComplete | backend/src/ownership/ownership.service.ts:505-505 | chains that fit under the cap are all recorded, in order |
| OwnershipControlPaths.RecordedReachesCap | backend/src/ownership/ownership.service.ts:505-505 | paths are missing only when at least 40 were recorded |
| OwnershipPathCap.RecordedIsCut | backend/src/ownership/ownership.service.ts:495-550 | with more than 40 paths the walk keeps the first 40 chains in walking order and, of the others, exactly those whose person directly owns a company along the 40th |
| OwnershipPathCap.BeyondTheCap | backend/src/ownership/ownership.service.ts:505-505 | so every control path past the 40th ends beside it |
| OwnershipControlPaths.RecordedAgree | backend/src/ownership/ownership.service.ts:498-550 | recorded paths, cap included, depend only on owners nearer than seven steps |
| OwnershipPathSums.PathSumAgreement | backend/src/ownership/ownership.service.ts:425-550 | with non-negative weights and no path cut off, each person's ownership and path count by `traverse` equal the sum and count over recorded paths of at most six links |
| OwnershipPathSums.FewRecordsMeansAll | backend/src/ownership/ownership.service.ts:496-505 | fewer than 40 records prove that none was cut off |
| OwnershipPathSums.ControlAlongChain | backend/src/ownership/ownership.service.ts:428-433 | along a chain `walkUp` never reports less control than `traverse`, and they differ exactly when some link has explicit zero control on a positive stake and every link passes some control on in `walkUp` |
| OwnershipPathSums.ControlSumAgreement | backend/src/ownership/ownership.service.ts:425-550 | a person's control by `traverse` equals the recorded paths' total if and only if none of their chains is disputed |
| OwnershipPathSums.WaivedOwnerDisputed | backend/src/ownership/ownership.service.ts:509-512 | every sole owner with waived control gets less control from `traverse` than from `walkUp` |
| OwnershipPathSums.ControlCanDiffer | backend/src/ownership/ownership.service.ts:509-512 | a concrete link on which the two control figures differ |
| OwnershipPathDedupe.DedupeControlPaths | backend/src/ownership/ownership.service.ts:552-560 | keeps one path per signature, invents none, and keeps everything when signatures are distinct |
| OwnershipPathDedupe.SignatureIdentifies | backend/src/ownership/ownership.service.ts:552-552 | joined link ids identify the chain |
| OwnershipPathDedupe.DedupeRemovesNothing | backend/src/ownership/ownership.service.ts:552-560 | recorded paths have distinct signatures, so the dedupe removes none |
| OwnershipGraph.BuildGraph | backend/src/ownership/ownership.service.ts:367-421 | the queue loop visits in breadth-first order and emits the nodes and edges of that order |
| OwnershipGraph.ListOwners | backend/src/ownership/ownership.service.ts:384-420 | expanding a company adds its owners' edges in order, the nodes they touch, and its company owners to the queue |
| OwnershipGraphShape.ExpandsExactlyWithinFour | backend/src/ownership/ownership.service.ts:378-384 | the expanded companies are exactly those within four steps, each once and at its true distance |
| OwnershipGraphShape.EdgesAreTheLinksInReach | backend/src/ownership/ownership.service.ts:384-420 | each link into a company within four steps is exactly one edge, direct if and only if it is into the root; there are no others |
| OwnershipGraphShape.NodesAreTheEnds | backend/src/ownership/ownership.service.ts:367-420 | every edge joins two listed nodes, no node is listed twice, and only edge ends and the root are listed |
| OwnershipGraphShape.GraphDependsOnFourSteps | backend/src/ownership/ownership.service.ts:378-420 | the graph depends only on the owners of companies within four steps |
| OwnershipCycles.BuildAdjacency | backend/src/ownership/ownership.service.ts:746-751 | the adjacency lists hold exactly the edges |
| OwnershipCycles.DetectCycleNodes | backend/src/ownership/ownership.service.ts:753-767 | a node is reported if and only if it was the first to be discovered of all nodes of some directed cycle; so every reported node lies on a cycle and every cycle through a listed node has a node reported |
| OwnershipCycles.FinishedCycleIsReported | backend/src/ownership/ownership.service.ts:756-766 | a cycle through a node the search has finished has a reported node |
| BvParsed.LatestIsNewest | backend/src/migrations/1000000000026-AddBvParsedPayloadTables.ts:364-410 | the "latest" views pick a company's row with the newest payload, the higher id on ties, and none only if it has no row |
| BvParsed.ChildrenExactly | backend/src/migrations/1000000000028-BvPipelineQueueServingTables.ts:351-352 | a snapshot's children in the views are all rows stored under it, with their ids, in id order |
| BvReadContents.AlwaysWhole | backend/src/migrations/1000000000026-AddBvParsedPayloadTables.ts:415-874 | over any run each snapshot's reports and names are stored once, whole and in order, its documents once per document id, and nothing is stored under a snapshot that does not exist |
| BvReadTheorems.AlwaysMirrors | backend/src/migrations/1000000000026-AddBvParsedPayloadTables.ts:415-874 | over any run an element has its snapshot if and only if its payload was parsed |
| BvReadTheorems.FreshShowsNewest | backend/src/migrations/1000000000028-BvPipelineQueueServingTables.ts:278-402 | over any run a fresh company shows the newest parsed item about it: core fields, reports and officers of that payload item, all and in order, with source_index 1 to n when the payload has one done parse row, and the newest HVD item's core; without such an item it shows nothing |
| BvReadTheorems.FreshShowsDocuments | backend/src/migrations/1000000000028-BvPipelineQueueServingTables.ts:278-402 | over any run a fresh company shows the documents of its newest parsed list, in order, without those whose id came before; without a list it shows none |
| BvReadTheorems.NothingOwedShowsNewest | backend/src/migrations/1000000000028-BvPipelineQueueServingTables.ts:278-402 | so it does whenever every payload keeps to its own company and no refresh of the company is owed |
| BvLoaders.DispatchFaithful | backend/src/migrations/1000000000026-AddBvParsedPayloadTables.ts:415-960 | after any load every snapshot row is that element of its payload, stored once per payload and element |
| BvLoaders.DispatchFrame | backend/src/migrations/1000000000028-BvPipelineQueueServingTables.ts:99-141 | loading a payload changes the view of no company the payload does not name |
| BvLoaders.HvdLoadIsIdempotent | backend/src/migrations/1000000000026-AddBvParsedPayloadTables.ts:438-537 | loading an HVD organisation payload twice equals loading it once, from any state |
| BvLoaders.DocsLoadIsIdempotent | backend/src/migrations/1000000000026-AddBvParsedPayloadTables.ts:826-872 | loading a document list twice equals loading it once, from any state |
| BvLoaders.DispatchOfficers | backend/src/migrations/1000000000026-AddBvParsedPayloadTables.ts:692-746 | one more load stores each officer list of the payload one more time behind what is there, and touches no other snapshot's officers |
| BvDatabase.SelectBatch | backend/src/migrations/1000000000028-BvPipelineQueueServingTables.ts:502-510 | a batch is the best-ranked eligible rows no other worker holds, in order, as many as the limit allows |
| BvDatabase.NextRow | backend/src/migrations/1000000000028-BvPipelineQueueServingTables.ts:505-508 | the next row has the highest priority, the lowest id on ties |
| BvDatabase.Database.LoadFiOrganisation | backend/src/migrations/1000000000026-AddBvParsedPayloadTables.ts:540-803 | the loop leaves the tables the loader's specification gives |
| BvDatabase.Database.LoadHvdOrganisation | backend/src/migrations/1000000000026-AddBvParsedPayloadTables.ts:415-538 | the loop leaves the tables the loader's specification gives |
| BvDatabase.Database.DispatchRawPayload | backend/src/migrations/1000000000028-BvPipelineQueueServingTables.ts:99-141 | the organisation loaders run by the payload's provider source, the document list whenever it is present |
| BvDatabase.Database.ParseRow | backend/src/migrations/1000000000028-BvPipelineQueueServingTables.ts:510-549 | one turn is the atomic attempt: work and follow-up row, or only the failure bookkeeping |
| BvDatabase.Database.ProcessParseQueue | backend/src/migrations/1000000000028-BvPipelineQueueServingTables.ts:494-552 | a call attempts exactly its batch, in order |
| BvDatabase.Database.RefreshCompany | backend/src/migrations/1000000000028-BvPipelineQueueServingTables.ts:278-402 | the four deletes and inserts leave the refreshed tables |
| BvDatabase.Database.RefreshRow | backend/src/migrations/1000000000033-OwnershipBvIngestionQueue.ts:57-93 | one turn is the atomic attempt, with its ingest row on success |
| BvDatabase.Database.ProcessRefreshQueue | backend/src/migrations/1000000000033-OwnershipBvIngestionQueue.ts:40-97 | a call attempts exactly its batch, in order |
| BvDatabase.ParseBatchIsARun | backend/src/migrations/1000000000028-BvPipelineQueueServingTables.ts:501-550 | every row of a batch is still eligible at its turn, so the batch is a run of single attempts, and other rows stay as they are |
| BvDatabase.RefreshBatchIsARun | backend/src/migrations/1000000000033-OwnershipBvIngestionQueue.ts:40-93 | likewise for refresh batches |
| BvPipeline.RefreshIsExact | backend/src/migrations/1000000000028-BvPipelineQueueServingTables.ts:278-402 | a refresh makes one company's rows equal its view and changes no other company's rows |
| BvPipelineSafety.InvKept | backend/src/migrations/1000000000028-BvPipelineQueueServingTables.ts:494-552 | every action keeps the pipeline's invariant |
| BvPipelineSafety.ReachableInv | backend/src/migrations/1000000000028-BvPipelineQueueServingTables.ts:494-552 | every reachable state satisfies it |
| BvPipelineTheorems.StaleReadModelHasJobOwed | backend/src/migrations/1000000000028-BvPipelineQueueServingTables.ts:495-552 | from an empty start, in every reachable state, each company's read rows equal its view or a pending, retry or failed refresh row exists for it, given that payload numbers match their raw rows |
| BvLostTrack.PayloadIsHarmlessExactly | backend/src/migrations/1000000000028-BvPipelineQueueServingTables.ts:510-531 | a payload holds data of its own company only, if and only if no run in which all other payloads do so ever leaves a company neither up to date nor owed a refresh |
| BvLostTrack.ForeignPayloadLoses | backend/src/migrations/1000000000028-BvPipelineQueueServingTables.ts:520-531 | for every payload with another company's data there is a run, its other payloads matching, that loses that company |
| BvLostTrack.MismatchIsForgotten | backend/src/migrations/1000000000028-BvPipelineQueueServingTables.ts:520-531 | a three-step run after which a company is stale and nothing is owed |
| BvPipelineTheorems.OfficersStoredOncePerLoad | backend/src/migrations/1000000000026-AddBvParsedPayloadTables.ts:692-746 | however many attempts failed, a snapshot's officers are stored once per done parse row, with running source_index |
| BvPipelineTheorems.EnqueuedOnceIsStoredOnce | backend/src/migrations/1000000000026-AddBvParsedPayloadTables.ts:692-746 | a payload with one done parse row has each FI officer stored once with source_index 1 to n |
| BvPipelineTheorems.StoredOnceMeansLoadedOnce | backend/src/migrations/1000000000026-AddBvParsedPayloadTables.ts:692-746 | officers are stored once if and only if the payload was loaded once |
| BvPipelineTheorems.EnqueuedTwiceIsStoredTwice | backend/src/migrations/1000000000028-BvPipelineQueueServingTables.ts:76-92 | a payload with one officer, enqueued by two callers and parsed, has its officer stored twice |
| BvPipelineTheorems.QueuesStaySane | backend/src/migrations/1000000000028-BvPipelineQueueServingTables.ts:533-541 | every row may fail five times, retry_count never exceeds that, a row fails for good exactly at the fifth, and every retry row is still eligible |
| BvPipelineTheorems.EachDoneRowLeadsToOne | backend/src/migrations/1000000000033-OwnershipBvIngestionQueue.ts:57-77 | done parse rows and refresh rows, and done refresh rows and ingest rows, correspond one to one, per company and lookup |
| BvPipelineTheorems.FinishedRowsAreFinal | backend/src/migrations/1000000000028-BvPipelineQueueServingTables.ts:502-508 | done and failed rows never change again |
| BvPipelineTheorems.EveryAttemptCounts | backend/src/migrations/1000000000028-BvPipelineQueueServingTables.ts:510-549 | every attempt, failed or not, lowers a weighted measure of the work left |
| BvPipelineTheorems.DrainingEnds | backend/src/migrations/1000000000028-BvPipelineQueueServingTables.ts:494-552 | with nothing new enqueued only that many attempts are possible |
| BvPipelineTheorems.LookupStatusIsJustified | backend/src/migrations/1000000000033-OwnershipBvIngestionQueue.ts:68-89 | `completed` implies a done refresh row of the lookup, a pipeline failure that one of its rows failed, `parsing` that a parse row of it was tried and `queued` that none was |
| BvPipelineTheorems.FinishedLookupIsFinal | backend/src/migrations/1000000000033-OwnershipBvIngestionQueue.ts:68-89 | a lookup that owns one parse row never changes status once completed or failed |
| BvPipelineTheorems.StatusTellsOutcome | backend/src/migrations/1000000000033-OwnershipBvIngestionQueue.ts:68-89 | over any run a lookup with one parse row is completed if and only if its refresh row is done, and failed in the pipeline if and only if one of its rows failed for good |
| BulkHistory.BulkUniverse.ApplyStagingToCurrent | backend/src/bolagsverket-bulk/bolagsverket-bulk-upsert.service.ts:97-233 | applies the rows in file order, and counts new and changed ones |
| BulkHistory.BulkUniverse.CloseOlder | backend/src/bolagsverket-bulk/bolagsverket-bulk-upsert.service.ts:218-227 | closes exactly the company's open history rows of other runs |
| BulkHistory.BulkUniverse.DetectRemovedCompanies | backend/src/bolagsverket-bulk/bolagsverket-bulk-upsert.service.ts:235-261 | notes each company the run did not write, once, with the record it had, and deactivates it, in any order |
| BulkRemovals.CurrentTellsFiles | backend/src/bolagsverket-bulk/bolagsverket-bulk-upsert.service.ts:97-261 | over any runs the current table lists exactly the companies some file mentioned, each with the record and run of its last row, the time of its first run, and active if and only if that row is not deregistered and no later run was completed |
| BulkRemovals.RemovedExactly | backend/src/bolagsverket-bulk/bolagsverket-bulk-upsert.service.ts:235-261 | from a run on, the history holds a removal of a company noted by it if and only if the run was completed, the company was in the table before it and no row of its file is about it |
| BulkRemovals.ActiveExactly | backend/src/bolagsverket-bulk/bolagsverket-bulk-upsert.service.ts:162-171 | after a completed run a company is active if and only if its file mentions it and the last row about it is not deregistered |
| BulkRemovals.RowsAreNoted | backend/src/bolagsverket-bulk/bolagsverket-bulk-upsert.service.ts:173-217 | the history gets one row for each file row with a number, in order: new, updated or unchanged against the record last known of the company, in this file or before it |
| BulkRemovals.ChangedIsNoted | backend/src/bolagsverket-bulk/bolagsverket-bulk-upsert.service.ts:173-175 | the count of changes is how many rows were noted as new or updated |
| BulkClosings.ClosedExactly | backend/src/bolagsverket-bulk/bolagsverket-bulk-upsert.service.ts:218-227 | over any runs a history row is valid from its run to the first later run that noted the company as updated, and open if none has |
| BulkHistoryAsOf.HistoryAgreesExactly | backend/src/bolagsverket-bulk/bolagsverket-bulk-upsert.service.ts:173-261 | over any runs at increasing times, all history rows valid at a moment carry the record the current table held then, and one exists from first sight on, if and only if no file holds two different records for one company |
| BulkHistoryAsOf.ContradictionDisagrees | backend/src/bolagsverket-bulk/bolagsverket-bulk-upsert.service.ts:218-227 | one file with two records for a company breaks the agreement |
| BulkIngest.IngestRun.Ingest | backend/src/bolagsverket-bulk/bolagsverket-bulk.service.ts:456-663 | whatever fails, the stream included, the stored rows are a prefix of the non-blank lines that ends at the last checkpoint; on return inserted plus failed equals the line count, and either all lines are stored, with fewer parsed than the row limit, or exactly the limit is staged and the last row stored is the one that reached it; no batch is larger than the configured size, and all but the last hold at least the minimum size |
| BulkIngest.LimitIsReachedLast | backend/src/bolagsverket-bulk/bolagsverket-bulk.service.ts:618-638 | no shorter prefix has as many parsed rows: nothing past the limit is stored |
| BulkIngest.IngestRun.Flush | backend/src/bolagsverket-bulk/bolagsverket-bulk.service.ts:509-564 | a flush that throws, before or after the write, leaves a sound prefix and right counters; the next batch size is four fifths, down to the minimum, after a memory warning and unchanged otherwise |
| BulkIngest.RowsAreLines | backend/src/bolagsverket-bulk/bolagsverket-bulk.service.ts:567-570 | the rows of a stream are its lines that are more than white space, in order, numbered from 1 |
| BulkIngest.InitialBatchSize | backend/src/bolagsverket-bulk/bolagsverket-bulk.service.ts:471-474 | the configured size where it lies between the minimum, 50 or 1 for a limited run, and 1000; else the nearer of the two |
| BulkIngest.IngestRun.TakeRow | backend/src/bolagsverket-bulk/bolagsverket-bulk.service.ts:567-631 | a line read joins the chunk, and the staged rows if it parsed |
| BulkIngest.IngestRun.WriteStagingBatch | backend/src/ingestion/batch-writer.service.ts:16-58 | raw rows, staged rows, lineage and checkpoint are stored together or not at all; a timeout may leave the write in flight |
| BulkIngest.IngestRun.LateCommit | backend/src/ingestion/batch-writer.service.ts:28-55 | a batch that commits after its timeout extends the prefix and its checkpoints correctly |
| BulkIngest.CommitKeepsPrefix | backend/src/ingestion/batch-writer.service.ts:28-50 | after a commit every checkpoint's line is still the sum of the rows written up to it |
| BulkIngest.LineageRightExactly | backend/src/ingestion/batch-writer.service.ts:33-41 | lineage row numbers are right if and only if no malformed row precedes a parsed one in the batch |
| BulkIngest.MalformedFirstShifts | backend/src/ingestion/batch-writer.service.ts:33-41 | a malformed line before a parsed one: the parsed row is recorded under the malformed row's number |
| FailureMessage.RoundTripExactly | backend/src/bolagsverket-bulk/bolagsverket-bulk.service.ts:440-454 | phase and detail are read back whole if and only if each is one trimmed, non-empty line |
| FailureMessage.DecodeEncoded | backend/src/bolagsverket-bulk/bolagsverket-bulk.service.ts:440-454 | for any strings the trimmed first line of the phase is read back, and the trimmed first line of the detail unless a later line of the phase carries the detail prefix, which is then read instead; empty reads as absent |
| FailureMessage.StepsSurvive | backend/src/bolagsverket-bulk/bolagsverket-bulk.service.ts:57-63 | every pipeline step is read back whatever the detail |
| RateLimiter.AuthLimiter.ConsumeRateLimit | backend/src/auth/auth.service.ts:67-76 | prunes, refuses or records as specified; a refusal changes nothing and other keys keep their buckets |
| RateLimiter.RefusedExactlyWhenFull | backend/src/auth/auth.service.ts:69-73 | a call is refused if and only if `max` accepted calls are no older than the window, if an accepted call seen more than the window ago stays so |
| RateLimiter.WindowHoldsAtMostMax | backend/src/auth/auth.service.ts:67-76 | any closed window holds at most `max` accepted calls of a key, unless, after an accepted call has seen an earlier one more than the window ago, a later call comes within the window of that one again, on either side |
| RateLimiterClock.LimitHoldsExactly | backend/src/auth/auth.service.ts:67-76 | for any clock readings, every pattern of calls made at them obeys the limit if and only if the clock, once it has left the window after a reading, never comes within the window of that reading again; a limit of one call or none is obeyed at any readings |
| RateLimiter.NonDecreasingClock | backend/src/auth/auth.service.ts:67-76 | for a clock that never goes back, any closed window holds at most `max` accepted calls, and a call is refused if and only if that many lie in the window that ends with it |
| RateLimiterClock.ClockStepBreaksTheLimit | backend/src/auth/auth.service.ts:70-70 | a clock that does come back lets three calls into a two-call window |
| ProviderPacing.ProviderRateLimit.WaitTurn | backend/src/bulk/provider-rate-limit.service.ts:7-16 | returns the turn and reserves the interval after it |
| ProviderPacing.MinInterval | backend/src/bulk/provider-rate-limit.service.ts:8-9 | the most milliseconds that allow the configured rate, between 1 and 20 a second; 1000 below and 50 above |
| ProviderPacing.TurnsAreSpaced | backend/src/bulk/provider-rate-limit.service.ts:10-12 | turns lie at least the interval apart on the clock the service reads, however it runs |
| ProviderPacing.TurnIsTheLatestDemand | backend/src/bulk/provider-rate-limit.service.ts:9-12 | a turn is neither sooner nor later than the latest demand: some earlier call's time plus the intervals reserved since |
| ProviderPacing.WindowHoldsFewTurns | backend/src/bulk/provider-rate-limit.service.ts:7-16 | a window of W ms holds at most W / interval + 1 turns |
| TenantSlots.BulkService.TryTakeSlot | backend/src/bulk/bulk.service.ts:204-209 | a slot is taken if and only if the tenant is below its limit |
| TenantSlots.BulkService.ReleaseTenantSlot | backend/src/bulk/bulk.service.ts:211-218 | one slot is given back, and the last one removes the tenant |
| TenantSlots.CountersAreHolders | backend/src/bulk/bulk.service.ts:129-160 | under any interleaving and any failures each tenant's counter is the number of item runs holding a slot, at most the limit |
| TenantSlots.NoLeak | backend/src/bulk/bulk.service.ts:154-160 | the map is empty if and only if no run holds a slot |
| TenantSlots.NeverStuck | backend/src/bulk/bulk.service.ts:204-208 | any unfinished run, or a holder of the slot it waits for, can be brought forward |
| Alerts.MonitoringService.CreateAlertIfMissing | backend/src/monitoring/monitoring.service.ts:172-220 | creates the alert, with the candidate's fields, exactly when no stored one of its tenant, subscription and type is of its organisation and within the cooldown, or has its key in its text up to case |
| Alerts.MonitoringService.DetectChangesAndCreateAlerts | backend/src/monitoring/monitoring.service.ts:222-345 | the nested loops consider exactly the specified candidates in order, each at its own clock reading, and count what they created |
| AlertRuns.CooldownAndDedupeHold | backend/src/monitoring/monitoring.service.ts:183-219 | over any runs and clocks a detected alert lies more than its cooldown after every earlier one of its subscription, type and organisation, and no earlier one of its subscription and type mentions its key |
| AlertRuns.DedupeKeysDiffer | backend/src/monitoring/monitoring.service.ts:194-204 | no two detected alerts of a subscription and type share a dedupe key, up to case |
| AlertRuns.ProposesExactly | backend/src/monitoring/monitoring.service.ts:274-345 | a pass proposes an alert for exactly the events of a watched number whose attribute maps to a wanted type, ownership before board before filings, and the signals whose score rose or fell by the threshold |
| AlertRuns.PassSettles | backend/src/monitoring/monitoring.service.ts:183-219 | after a pass every proposal has an alert that accounts for it, in cooldown at the moment it was considered or mentioning its key |
| AlertRuns.SecondPassCreatesNone | backend/src/monitoring/monitoring.service.ts:222-345 | a second pass on the same data, its clock readings no later than the first one's, creates none |
| AlertRuns.LaterPassCreatesNoneExactly | backend/src/monitoring/monitoring.service.ts:183-204 | a later pass on the same data, at any clock, creates none if and only if everything the first one held back is still in cooldown when it is considered again |
| AlertRuns.LaterPassCreates | backend/src/monitoring/monitoring.service.ts:183-204 | a later pass creates only proposals the first held back for a cooldown that is over, and each of them unless it has already created one for that subscription and type |
| AlertPasses.OneAlertPerPass | backend/src/monitoring/monitoring.service.ts:183-192 | the clock moves during a pass: one in which no candidate is considered more than its cooldown after an earlier one creates at most one alert per subscription, type and organisation |
| AlertPasses.OnePassExactly | backend/src/monitoring/monitoring.service.ts:183-204 | a pass over proposals of one subscription, type and organisation, none stored or in cooldown beforehand and none mentioning a later one's key, creates at most one alert if and only if it is no longer than the cooldown |
| AlertPasses.OneAlertPerPassExactly | backend/src/monitoring/monitoring.service.ts:183-192 | with one cooldown, all passes of that many candidates do so if and only if the pass is no longer than the cooldown |
| AlertPasses.NoCooldownCreatesTwo | backend/src/monitoring/monitoring.service.ts:278-278 | with a cooldown of zero, two events considered a millisecond apart in one pass create two alerts |
| OwnershipExtract.ExtractOwnershipEdges | backend/src/ownership/ownership-bv-extract.util.ts:232-288 | there is an edge of rank k if and only if engagement k has an official with a partner role or a stake and its organisation names no number of ten digits or the subject's; it carries that official's name, stake and numbers, and keys are pairwise distinct |
| OwnershipExtract.DedupeKeysDistinct | backend/src/ownership/ownership-bv-extract.util.ts:236-287 | keys differ whatever the names and numbers in them |
| OwnershipExtract.OwnersAreIdentified | backend/src/ownership/ownership-bv-extract.util.ts:104-140 | a company owner has a ten-digit number and no personal number; a person never has a company number, and a personal number has twelve digits |
| OwnershipExtract.EdgesExactly | backend/src/ownership/ownership-bv-extract.util.ts:232-288 | the edges are, in rank order, those of exactly the engagements that tell of an owner of the subject, read off their fields |
| OwnershipIngestion.OwnershipBvIngestion.SyncFromLatestFiSnapshot | backend/src/ownership/ownership-bv-ingestion.service.ts:173-274 | leaves the rebuilt table, or the table untouched when a number is blank or nothing was parsed |
| OwnershipIngestion.OwnershipBvIngestion.DrainIngestQueue | backend/src/ownership/ownership-bv-ingestion.service.ts:68-111 | marks its batch, then rebuilds in order; a malformed or throwing row has no effect |
| OwnershipIngestion.RebuildIsExact | backend/src/ownership/ownership-bv-ingestion.service.ts:207-273 | the current registry links into the company are one per extracted edge if and only if the item speaks of that company or of no owner |
| OwnershipIngestion.RebuildIsIdempotent | backend/src/ownership/ownership-bv-ingestion.service.ts:207-273 | a second rebuild leaves the same current links, ids aside, under exactly the same condition |
| OwnershipIngestion.OthersUntouched | backend/src/ownership/ownership-bv-ingestion.service.ts:183-273 | links of other tenants, sources and companies stay as they are, only the company's current registry links are closed, as of the item's day, and one current link per edge is added behind them, valid from that day |
| OwnershipIngestion.FiledRebuildIsExact | backend/src/ownership/ownership-bv-ingestion.service.ts:183-240 | for an item as the loader files it the rebuild is exact if and only if it tells of no owner or the number asked for fits: exactly ten digits when the item has an `identitet` of at least ten, else the ten digits of its top-level number, else at most ten digits or none |
| OwnershipIngestion.ForeignItemMisses | backend/src/migrations/1000000000026-AddBvParsedPayloadTables.ts:616-618 | an item that names another company only at its top level is filed under its payload's company, which is then left without the item's partner |
| OwnershipIngestion.TwelveDigitsMiss | backend/src/ownership/ownership-bv-extract.util.ts:183-197 | a twelve-digit request with owner edges never meets the condition |
| OwnershipIngestion.TwelveDigitItemMisses | backend/src/ownership/ownership-bv-extract.util.ts:183-197 | not even for an item filed under the twelve digits asked for |
| OwnershipIngestion.HandedOverOnce | backend/src/ownership/ownership-bv-ingestion.service.ts:69-96 | over any runs the rows with a tenant and a number of more than spaces are those handed over, once each and in order, and those still waiting |

## Left out

- Controllers, guards, mail, payments, storage, downloads, document rendering and the web client: input and output only.
- Plain record keeping (parties, property, cases, enrichment, dashboards, entitlements): only easy members.
- OwnershipService.GetOwnershipGraph: stops at the derived owners and the deduplicated paths; the merge of recorded beneficial owners, the 25 percent filter, sorting and the cut to 25 paths, summaries, `toFixed` rounding and reconciliation with annual reports are not modelled. It takes link ids to be free of `>`, as UUIDs are, and the query order to be the table's, so ties of `createdAt` are not modelled.
- OwnershipAggregates.Traverse: percentages are reals; non-numeric and non-finite values are not modelled.
- OwnershipSubgraph.CollectRelevantOwnershipLinks: the chunks of a wave come in any order, and the log line's counters are limited to waves and companies.
- Case folding (`toLowerCase`, `ILIKE`) covers ASCII and Latin-1 letters.
- BvParsed.LatestIsNewest: row ids are positions in their table, so gaps in the id sequence are not modelled.
- BvLoaders.DispatchFaithful: `parse_runs` audit rows are not modelled; the one a failed load writes is undone with its attempt.
- BvDatabase.Database.LoadFiOrganisation: names, officer roles, report cases, share capital and engagements are part of the item or officer they belong to, not rows of their own.
- BvDatabase.Database.LoadHvdOrganisation: activity-code rows are not modelled.
- BvDatabase.Database.ParseRow: the column, cast and constraint errors that make an attempt fail are one ok/fail choice, and concurrent workers interleave by whole attempts.
- BvPipelineTheorems.FinishedLookupIsFinal: covers lookups with one parse row; with more, a later row may change the status.
- BulkHistory.BulkUniverse.ApplyStagingToCurrent: the name and restructuring child tables, labels and the seeding of companies are not modelled, and one row's saves are one step.
- BulkHistory.BulkUniverse.DetectRemovedCompanies: a pass that stops half-way is not modelled.
- BulkIngest.IngestRun.Ingest: parsing a line is an ok/fail function of its text; pauses, throttling and memory readings are the environment's choices, and a batch size that is not a number is not modelled.
- BulkIngest.IngestRun.LateCommit: the aborted run is not restarted while its last write is in flight.
- ProviderPacing.TurnsAreSpaced: the turn is the clock reading the timer is set for; a timer that fires late, or a clock step while it runs, can bring two turns closer in real time.
- TenantSlots.CountersAreHolders: the limit is a whole number; item and job statuses, and the job totals recomputed by concurrent workers, are not modelled.
- Alerts.MonitoringService.CreateAlertIfMissing: the moment the database stamps an alert with is the one its check read, cooldowns are whole minutes, and keys hold no `%` or `_`.
- Alerts.MonitoringService.DetectChangesAndCreateAlerts: signals come grouped by organisation and type, newest first, as the query orders them; titles, descriptions and the audit entry are not modelled.
- OwnershipExtract.ExtractOwnershipEdges: an owner's display name, partner role and parsed stake are given; share-class summaries and raw copies are not modelled.
- OwnershipIngestion.OwnershipBvIngestion.DrainIngestQueue: log throttling of malformed rows is not modelled.
- Hashing, tokens and passwords are not modelled.
