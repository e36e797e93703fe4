# Models of the assistant's deterministic kernels

The assistant answers questions over a document corpus.  Most of it connects services, but several parts
decide things on their own, and those are modelled here: loops and mutable objects as methods and classes
in the form of the source, each proved against a function on values, and the promises of the source proved
about those functions for all inputs, all runs and all reachable states.

| file | part |
|---|---|
| `ClaimMatching.dfy` | distinct claims for the dimensions of a comparison (augmenting paths) |
| `SseParser.dfy`, `StreamContract.dfy`, `GraphEvents.dfy`, `Reducers.dfy`, `ChatTypes.dfy`, `ChatEndToEnd.dfy` | the chat stream, from the graph's events to the frontend's contract check |
| `DependencyGraph.dfy`, `ResearchPlan.dfy`, `ResearchRounds.dfy`, `EvidenceAggregation.dfy` | research plans, rounds under a shared budget, evidence ledger |
| `TokenBucket.dfy`, `TokenBucketRuns.dfy` | the rate limiter and its runs, over the reals |
| `MemoryTurns.dfy`, `MemoryStore.dfy`, `MemoryRuns.dfy`, `MemoryService.dfy` | bounded conversation memory and its logs |
| `FilterCompiler.dfy`, `Calendar.dfy` | typed filters compiled to metadata queries |
| `HybridFusion.dfy` | weighted fusion of two result lists, over the reals |
| `FrontMatter.dfy`, `JsonStrings.dfy` | printing and parsing front matter |
| `Words.dfy`, `MarkdownBlocks.dfy`, `BlockSplitting.dfy`, `ChunkPacking.dfy`, `ChunkDocument.dfy` | tokens, Markdown blocks, chunks |
| `Prelude.dfy`, `Sequences.dfy`, `Sorting.dfy`, `Text.dfy` | shared results, sequences, stable sorting, string operations |

Run `dafny verify dfyconfig.toml` in this directory.

Some promises turn out to need a condition, and the condition is proved exact:

- One first heading per chunk fails when a short tail is merged into the last core without the check on
  section paths (`ingestion/src/enterprise_ai_ingestion/chunker.py:88-91`); it holds exactly when that merge
  stays within one first heading (`ChunkDocument.OneRootPerChunk`, `ChunkDocument.MergeCanCross`).
- The hard split counts words, not tokens (`chunker.py:203`); `BlockSplitting.SplittingFits` says when the
  parts of a block are within the token maximum, `BlockSplitting.HardSplitCanExceed` shows parts that are not.
- Greedy packing charges one separator to a core that a flush has just started (`chunker.py:67`, `82`): its
  running count is then the tokens and separators plus one, and never more
  (`ChunkPacking.SeparatorCharge`, `ChunkPacking.ChargedAtMostOnce`).
- A compiled plan has distinct ids exactly when the tasks it keeps have distinct ids
  (`ResearchPlan.PlanIdsDistinct`, `ResearchPlan.SharedIdsOccur`); then everything promised of it holds
  (`ResearchPlan.CompiledPlan`), and no id is dispatched twice (`ResearchRounds.RunRounds`).
- Request-id idempotency of the memory store covers retained turns only
  (`MemoryRuns.DuplicateIffRetained`), and a turn whose own references exceed the cap is stored again on a
  retry (`MemoryRuns.RetryIsRecognised`); the service's caps rule that out (`MemoryService.ServiceTurnSurvives`).
- The service's assistant cap may be set above what a stored turn accepts; `MemoryService.RefusedIff` says when
  an update is refused for that, and `MemoryService.CapacityErrorIsRuledOut` when the character cap can still matter.
- Eviction of idle buckets changes no answer exactly when ttl x rate reaches every capacity
  (`TokenBucketRuns.CleanupNeverShowsIff`); a bucket evicted earlier is worth one more capacity to its key
  (`TokenBucketRuns.WindowBound`), and never more than that.
- The front-matter round trip needs metadata and values without the three separators that the JSON writer
  leaves raw (`FrontMatter.PrintedParsesBack` is an equivalence).
- A stream that ends inside a message is refused, except right after a first line that carries an empty id:
  nothing of the message shows then (`SseParser.CutStreamIsRefused`).
- The event-stream parser follows its code, not sections 9.2.5 and 9.2.6 of the WHATWG HTML Living Standard:
  it splits at LF and CRLF only, and dispatches an event that has an id or a name but no data.

## Model

| member | source | states |
|---|---|---|
| ClaimMatching.Matcher.Assign | backend/src/enterprise_ai/llm/response_service.py:803-815 | one augmenting search: on success the map is still a matching and serves one more dimension; on failure the visited claims form a closed region, all held by dimensions confined to it |
| ClaimMatching.ClosedRegionBlocks | backend/src/enterprise_ai/llm/response_service.py:800-818 | Hall: once a search has failed, no later reassignment can serve a dimension whose candidates lie in the closed region |
| ClaimMatching.AssignDistinctClaims | backend/src/enterprise_ai/llm/response_service.py:800-818 | the covered dimensions have pairwise distinct claims, no assignment covers more dimensions, and dimension i is left out exactly when it cannot join those covered before it |
| ClaimMatching.CoveredIsMaximum | backend/src/enterprise_ai/llm/response_service.py:800-818 | Koenig: a matching left by failed searches covers at least as many dimensions as any assignment |
| ClaimMatching.GreedyIsUnique | backend/src/enterprise_ai/llm/response_service.py:800-818 | the covered set is the one the greedy rule determines, so it does not depend on the search order |
| ClaimMatching.OwnClaimsAreAMatching | backend/src/enterprise_ai/llm/response_service.py:741-754 | every requirement has a factual claim of its own that cites its evidence and mentions it, if and only if the candidate table has a full distinct assignment |
| ClaimMatching.NothingMissing | backend/src/enterprise_ai/llm/response_service.py:752-754 | the list of missing dimensions is empty exactly when every dimension is covered |
| ClaimMatching.MissingMeans | backend/src/enterprise_ai/llm/response_service.py:752-754 | the missing dimensions are those of exactly the uncovered requirements, in their order |
| ClaimMatching.FactualMeans | backend/src/enterprise_ai/llm/response_service.py:741 | exactly the factual claims are considered, in their order |
| ClaimMatching.UncoveredDimensions | backend/src/enterprise_ai/llm/response_service.py:741-754 | no dimension is reported missing exactly when each requirement has a claim of its own; the list keeps the requirements' order |
| ClaimMatching.ValidateComparisonDraft | backend/src/enterprise_ai/llm/response_service.py:732-797 | the comparison errors are appended, in order, exactly when some requirement has no factual claim of its own that cites its evidence and mentions it, when evidence is called absent, and when no factual claim states all shared facets and cites every requirement; the draft stays as it was exactly when there is no error, and the list of unvalidated dimensions says which part failed |
| SseParser.SSEParser.Line | frontend/enterprise_ai_frontend/sse.py:63-94 | one line changes the pending event, dispatches it or raises exactly as the line function says, charging its bytes |
| SseParser.SSEParser.Feed | frontend/enterprise_ai_frontend/sse.py:38-53 | the loop over complete lines returns the events, state and verdict of the drain function and leaves the rest buffered |
| SseParser.CharBytesIsLeast | frontend/enterprise_ai_frontend/sse.py:52-66 | a character is charged the least number of UTF-8 bytes whose payload holds its code point |
| SseParser.DrainSplit | frontend/enterprise_ai_frontend/sse.py:38-53 | draining a text in two pieces composes to draining it whole, wherever it is cut |
| SseParser.OversizedIsFatal | frontend/enterprise_ai_frontend/sse.py:38-53 | once the buffered bytes pass the budget no continuation is accepted |
| SseParser.FeedTwice | frontend/enterprise_ai_frontend/sse.py:38-53 | two feeds amount to one feed of the concatenation, in events, state and verdict |
| SseParser.ChunkingIrrelevant | frontend/enterprise_ai_frontend/sse.py:38-53 | any split of a stream into chunks gets the verdict of one feed and, when accepted, the same events and the same final state |
| SseParser.FeedKeepsBetween | frontend/enterprise_ai_frontend/sse.py:38-53 | between feeds no complete line is buffered, and event bytes plus buffered bytes stay within the limit |
| SseParser.BudgetAlwaysHolds | frontend/enterprise_ai_frontend/sse.py:38-94 | the byte budget holds after every accepted feed of every run |
| SseParser.AllFields | frontend/enterprise_ai_frontend/sse.py:73-94 | the three field lines build the same event at the same charge in every order |
| SseParser.DrainFrames | frontend/enterprise_ai_frontend/sse.py:38-94 | a stream of frames, each with its fields in any order and lines ended by LF or CRLF, is drained to its messages exactly when every frame fits the budget |
| SseParser.FramesRoundTrip | frontend/enterprise_ai_frontend/sse.py:26-94 | however the frames are laid out and the stream is cut, the parser returns the messages sent, in order, with nothing left over, if and only if every frame fits the budget |
| SseParser.SSEParser.Finish | frontend/enterprise_ai_frontend/sse.py:55-61 | the end is refused exactly when characters, an event name, an id or data lines are left |
| SseParser.CutStreamIsRefused | frontend/enterprise_ai_frontend/sse.py:38-61 | a stream cut inside a message is refused by the budget or at the end, and returns nothing of the message, except when the cut is right after a first line with an empty id, which leaves nothing that shows |
| StreamContract.RuntimeItems | backend/src/enterprise_ai/graph/runtime.py:202-241 | the stream loop computes the filter function for every sequence of parts |
| StreamContract.FilteredShape | backend/src/enterprise_ai/graph/runtime.py:202-241 | whatever the graph streams, the events that pass carry the request's ids and are numbered 0, 1, 2, ..., at most one is terminal, and one output may follow it, last |
| StreamContract.ChatEventStream | backend/src/enterprise_ai/api/sse.py:26-150 | for every script the wait loop sends the envelopes of the stream function: a bare opening, exactly the activity events before the first output in order, each with its event, and a closing envelope with that output and the last response event before it, or an error when there is no output; and one keepalive for each ping before the end |
| StreamContract.StreamDelivers | backend/src/enterprise_ai/api/sse.py:42-121 | the same of the stream function, over the items of the script alone |
| StreamContract.StreamContractValidator.Accept | frontend/enterprise_ai_frontend/sse.py:117-162 | the validator's fields and verdict after one envelope |
| StreamContract.AcceptsIff | frontend/enterprise_ai_frontend/sse.py:108-166 | the validator accepts a stream through finish exactly when it is numbered 0, 1, 2, ..., correlated, free of repeated ids, and has its one consistent terminal envelope last |
| StreamContract.AcceptsMeans | frontend/enterprise_ai_frontend/sse.py:108-166 | the same field by field: which envelopes agree with their event and output, and which one concludes |
| StreamContract.ProducedWellFormed | backend/src/enterprise_ai/api/sse.py:65-121 | the producer numbers its envelopes consecutively with fresh ids and ends with exactly one terminal envelope |
| StreamContract.LastEnvelope | backend/src/enterprise_ai/api/sse.py:85-121 | the last envelope is acceptable exactly when the output carries the request's ids and agrees with a failure announced before it |
| StreamContract.StreamMeetsContract | backend/src/enterprise_ai/api/sse.py:26-150 | for correlated items and however the iterator ends, the validator accepts the produced stream exactly when the output is consistent with the announced terminal event |
| StreamContract.FilteredStreamMeetsContract | backend/src/enterprise_ai/graph/runtime.py:202-241 | the same for whatever the graph streams and wherever the filtered stream is cut: only the consistency of the output is left to the graph |
| StreamContract.PrefixConsistent | backend/src/enterprise_ai/api/sse.py:65-121 | cutting a consistent item stream short, by an exception or a timeout, keeps it consistent |
| Reducers.AppendUniqueLoop | backend/src/enterprise_ai/graph/reducers.py:10-17 | the loop of the reducer: an empty right operand resets, otherwise new items are added once, in order |
| Reducers.AppendNewKeepsAll | backend/src/enterprise_ai/graph/reducers.py:10-17 | items that are new and pairwise distinct are all kept in order |
| Reducers.AppendNewTwice | backend/src/enterprise_ai/graph/reducers.py:10-17 | reducing in two updates gives what one update with both gives |
| GraphEvents.EventJournal.Append | backend/src/enterprise_ai/graph/events.py:30-46 | raises and changes nothing on an event that does not continue the journal; otherwise the event is kept and the next number grows by one |
| GraphEvents.EventJournal.Event | backend/src/enterprise_ai/graph/events.py:66-101 | an event made while the journal is active takes its next number and is kept |
| GraphEvents.EmitAll | backend/src/enterprise_ai/graph/events.py:66-101 | the events a node body emits carry consecutive numbers from the journal's next number |
| GraphEvents.RunGuarded | backend/src/enterprise_ai/graph/nodes.py:145-240 | the events streamed and the update returned by one guarded node, whether it returns, raises or trips the step budget |
| GraphEvents.HistoryContinues | backend/src/enterprise_ai/graph/reducers.py:26-32 | appending consecutive events to a history that ends at n - 1 gives one that ends at the last of them, even when it is truncated to the last 200 |
| GraphEvents.RetainedMeans | backend/src/enterprise_ai/graph/reducers.py:26-32 | the history keeps its longest end of at most 200 events |
| GraphEvents.StepNumbered | backend/src/enterprise_ai/graph/nodes.py:145-274 | every node's events continue the numbering of the history, and the history the node leaves ends with them |
| GraphEvents.StepKeepsStatus | backend/src/enterprise_ai/graph/nodes.py:145-240 | status FAILED is only ever written together with the failure route |
| GraphEvents.NextNode | backend/src/enterprise_ai/graph/builder.py:80-159 | every edge lowers the rank of the node, so a run visits finitely many nodes |
| GraphEvents.RoutesAreWired | backend/src/enterprise_ai/graph/builder.py:80-159 | without a failure a request passes the same five nodes to the supervisor, then the path of its route, and ends with the memory update; a failure leads from everywhere but the start to its handler, and from there to the end |
| GraphEvents.GuardedMeans | backend/src/enterprise_ai/graph/nodes.py:145-240 | a guarded node streams one event for each emission, in order, and after a raise one more that reports the failure unless an emission did |
| GraphEvents.FailureCloses | backend/src/enterprise_ai/graph/nodes.py:1195-1240 | a run in which a node raises, trips the step budget or leaves the failure flag set closes with the failed response event, status FAILED and the failure route, whatever the other nodes would do |
| GraphEvents.SuccessCloses | backend/src/enterprise_ai/graph/nodes.py:1195-1240 | a run whose nodes all succeed within the step budget closes with the completed response event and a status other than FAILED, unless no route was selected |
| GraphEvents.GraphRunSucceeds | backend/src/enterprise_ai/graph/builder.py:80-159 | from the start of a request on a thread without a failure thirteen steps are enough for that |
| GraphEvents.RunNumbered | backend/src/enterprise_ai/graph/nodes.py:145-274 | from any node on, the run streams consecutively numbered activity events and closes with at most one terminal event and the output it announces |
| GraphEvents.GraphRunNumbered | backend/src/enterprise_ai/graph/nodes.py:244-274 | across a whole run, with raising nodes, a tripped step budget or truncated history, the streamed events are numbered 0, 1, 2, ..., the runtime filter drops none, and at most one terminal event is seen, last |
| ChatEndToEnd.RunConsistent | backend/src/enterprise_ai/graph/nodes.py:1195-1211 | the output of a run is consistent with the terminal event it announced |
| ChatEndToEnd.ChatRunAccepted | backend/src/enterprise_ai/api/sse.py:26-150 | whatever the nodes do and wherever the run is cut by a failure or a timeout, the public stream satisfies the frontend's contract |
| ChatEndToEnd.WireDecodes | frontend/enterprise_ai_frontend/sse.py:97-107 | decoding the parsed frames of a stream, in any layout, gives exactly the envelopes sent |
| ChatEndToEnd.ChatReachesClient | frontend/enterprise_ai_frontend/sse.py:26-170 | graph run, public stream, framing in any layout, parsing, decoding and contract check composed: a run that is not cancelled reaches the user however its bytes are chunked |
| DependencyGraph.CycleSearch.Visit | backend/src/enterprise_ai/research/plan_validator.py:95-104 | a visit that does not raise finishes the node after all its dependencies; a raise exhibits a cycle on the stack |
| DependencyGraph.RankFalls | backend/src/enterprise_ai/research/plan_validator.py:90-107 | along every path finishing times fall |
| DependencyGraph.RankedIsAcyclic | backend/src/enterprise_ai/research/plan_validator.py:90-107 | a graph whose nodes all have a finishing time has no cycle |
| DependencyGraph.RejectCycles | backend/src/enterprise_ai/research/plan_validator.py:90-107 | terminates on every closed graph and raises if and only if the graph has a cycle |
| DependencyGraph.RenamingKeepsCycles | backend/src/enterprise_ai/research/plan_validator.py:54-73 | an injective renaming keeps and reflects cycles |
| ResearchPlan.CheckAndDedupe | backend/src/enterprise_ai/research/plan_validator.py:29-49 | the first loop keeps the first task of each equivalence key or stops with the first broken rule |
| ResearchPlan.Renumber | backend/src/enterprise_ai/research/plan_validator.py:54-72 | the second loop renames ids and dependencies or reports a dropped dependency |
| ResearchPlan.CompilePlan | backend/src/enterprise_ai/research/plan_validator.py:24-87 | the result or error of the whole compilation for every list of tasks |
| ResearchPlan.UniqueKeepsFirst | backend/src/enterprise_ai/research/plan_validator.py:29-49 | for every list, the next task is kept, last, exactly when no earlier task has its key |
| ResearchPlan.TaskIdInjective | backend/src/enterprise_ai/research/plan_validator.py:54 | different positions get different ids, also past the two-digit padding |
| ResearchPlan.RewrittenDependencies | backend/src/enterprise_ai/research/plan_validator.py:62-72 | a rewritten dependency is the new name of a source dependency, and conversely |
| ResearchPlan.CompiledClosed | backend/src/enterprise_ai/research/plan_validator.py:54-72 | every dependency of a renumbered plan is the id of one of its tasks |
| ResearchPlan.RenumberedGraph | backend/src/enterprise_ai/research/plan_validator.py:50-73 | for distinct ids the renumbered graph is the kept tasks' graph under one injective renaming |
| ResearchPlan.CompiledPlan | backend/src/enterprise_ai/research/plan_validator.py:24-87 | when the kept tasks have distinct ids, a plan is refused for a cycle exactly when their own graph has one, and an accepted plan is the kept tasks ordered and renamed, closed, acyclic, with exactly their edges |
| ResearchPlan.PlanOutcome | backend/src/enterprise_ai/research/plan_validator.py:24-87 | which check refuses a plan, for every list: size, number of tasks, the first task with a wrong depth, blank or unsafe question or unusable queries, the first kept task with an unknown or own dependency, and nothing else but a cycle; an accepted plan lists the kept tasks by priority, kind and question, ties in order of appearance |
| ResearchPlan.TaskChecksMean | backend/src/enterprise_ai/research/plan_validator.py:30-44 | the checks of the first loop pass exactly for acceptable tasks, and the error is that of the first task and check to fail, with whether its queries are safe |
| ResearchPlan.KeyMeans | backend/src/enterprise_ai/research/plan_validator.py:45-49 | two tasks have one key exactly when they have one type and the same folded queries in order |
| ResearchPlan.TaskIdMeans | backend/src/enterprise_ai/research/plan_validator.py:54 | an id is T and the decimal position, padded to two digits |
| ResearchPlan.PlanIdsDistinct | backend/src/enterprise_ai/research/plan_validator.py:49-72 | an accepted plan has distinct ids, T01, T02, ..., if and only if the kept tasks have distinct ids; a repeated id on a dropped task does no harm |
| ResearchPlan.SharedIdsMerge | backend/src/enterprise_ai/research/plan_validator.py:24-87 | two kept tasks that share an id are accepted as a plan whose two tasks share one id |
| ResearchPlan.SharedIdsOccur | backend/src/enterprise_ai/research/plan_validator.py:24-87 | a concrete list whose compiled plan repeats an id |
| ResearchRounds.BudgetLedger.Consume | backend/src/enterprise_ai/research/budgets.py:14-31 | grants exactly when the amount still fits the limit; a refusal marks exhaustion and spends nothing |
| ResearchRounds.Approve | backend/src/enterprise_ai/research/service.py:101-106 | tasks of the plan are approved in order while the task budget lasts, and each one approved is charged |
| ResearchRounds.CollectChildren | backend/src/enterprise_ai/research/service.py:164-191 | one result adds exactly the candidates it offers below the maximum depth, in order, that are new and for which the budget has room; each is charged one task |
| ResearchRounds.NothingRefusedWithoutReason | backend/src/enterprise_ai/research/service.py:187-189 | a candidate is left out only if an equivalent task was known or admitted, or the task budget was used up |
| ResearchRounds.AllOfferedDistinct | backend/src/enterprise_ai/research/service.py:175-185 | results of different tasks offer children with different ids |
| ResearchRounds.AllOfferedMeans | backend/src/enterprise_ai/research/service.py:163-186 | each result below the maximum depth offers a child for every proposal up to the limit, in order, and no others; the results follow each other |
| ResearchRounds.AdmittedMeans | backend/src/enterprise_ai/research/service.py:187-191 | exactly the first candidates that are equivalent neither to a known task nor to an earlier candidate are admitted, as many as there is room for |
| ResearchRounds.InOrderOfId | backend/src/enterprise_ai/research/service.py:148-194 | results are aggregated and tasks dispatched in dictionary order of their ids |
| ResearchRounds.AdmittedFresh | backend/src/enterprise_ai/research/service.py:187-190 | admitted tasks are equivalent neither to known tasks nor to each other |
| ResearchRounds.AggregateRound | backend/src/enterprise_ai/research/service.py:142-196 | the children of a round are exactly the admitted candidates of all its results, pairwise new, charged one task each, with distinct ids when the results have them |
| ResearchRounds.ChildIdInjective | backend/src/enterprise_ai/research/service.py:175-185 | child ids of different parents or positions differ |
| ResearchRounds.RunStep | backend/src/enterprise_ai/research/service.py:108-196 | one round keeps the run's invariant: one level per round, the results are everything returned with equal results once, and ids stay distinct if the approved plan has distinct ids |
| ResearchRounds.RunRound | backend/src/enterprise_ai/research/service.py:108-196 | one round of workers and aggregation keeps the run's invariant and leaves waiting exactly what the results offer and the budget allows |
| ResearchRounds.RunRounds | backend/src/enterprise_ai/research/worker_graph.py:25-42 | for every plan and arbitrary workers each round dispatches exactly the tasks that wait, the rounds end within maximum depth + 1 when none is waiting, a child is one level below its parent and within the maximum, the task count of the ledger equals the tasks dispatched and stays within its limit, and no id is dispatched twice exactly when the approved tasks have distinct ids; then the results answer the tasks one for one |
| ResearchRounds.CompiledPlanStartsRun | backend/src/enterprise_ai/research/plan_validator.py:24-87 | every compiled plan meets what a run of the rounds starts from, and shares no id exactly when the kept tasks share none |
| EvidenceAggregation.CollectResult | backend/src/enterprise_ai/research/aggregation.py:40-87 | the loop over one worker's items |
| EvidenceAggregation.AggregateEvidence | backend/src/enterprise_ai/research/aggregation.py:23-113 | the ledger for every list of results, budgets included |
| EvidenceAggregation.AcceptLoop | backend/src/enterprise_ai/research/aggregation.py:88-113 | entries are taken in sort order while both budgets allow |
| EvidenceAggregation.CollectionDescribes | backend/src/enterprise_ai/research/aggregation.py:40-87 | the collection describes exactly the contributing items: each chunk's entry is its first best copy under exactly the task ids that contributed it; every other item was dropped |
| EvidenceAggregation.AdmissibleTest | backend/src/enterprise_ai/research/aggregation.py:52-70 | the three tests on authorization, fingerprint and identity conflicts amount to one admissibility condition on the items kept so far |
| EvidenceAggregation.AcceptedWithinBudgets | backend/src/enterprise_ai/research/aggregation.py:88-113 | accepted entries respect both budgets and the total is the sum of their sizes |
| EvidenceAggregation.WhatFitsIsTaken | backend/src/enterprise_ai/research/aggregation.py:88-113 | entries that fit the budgets together are all accepted |
| EvidenceAggregation.NothingDroppedWithoutNeed | backend/src/enterprise_ai/research/aggregation.py:88-113 | of the sorted entries the ledger takes each one that fits the budgets next to those it took before, and leaves out every other one |
| EvidenceAggregation.ItemsConserved | backend/src/enterprise_ai/research/aggregation.py:23-113 | every input item is accepted, merged as a further copy, or counted as dropped |
| EvidenceAggregation.LedgerDescribed | backend/src/enterprise_ai/research/aggregation.py:23-113 | the ledger is sorted by rank, score and chunk, within its budgets, holds each chunk's best copy with its contributing tasks, and pairs chunk and evidence ids one to one |
| EvidenceAggregation.OrderIrrelevant | backend/src/enterprise_ai/research/aggregation.py:23-113 | for distinct task ids the ledger does not depend on the order in which workers finished |
| TokenBucket.InMemoryBucketStore.Section | backend/src/enterprise_ai/rate_limit/store.py:56-92 | the locked part of consume: the new bucket and the answer for every stored state |
| TokenBucket.SectionMeans | backend/src/enterprise_ai/rate_limit/store.py:56-92 | one call on its bucket, or on a full one: it fails exactly when the stored tokens are outside [0, capacity + EPSILON] and then changes nothing; otherwise the cost is granted exactly when it fits what is available give or take EPSILON, a denied call learns the least number of whole seconds that refills what is missing, and only its own bucket changes |
| TokenBucket.InMemoryBucketStore.Consume | backend/src/enterprise_ai/rate_limit/store.py:46-92 | one call, including the cleanup due every so many accesses |
| TokenBucket.InMemoryBucketStore.Cleanup | backend/src/enterprise_ai/rate_limit/store.py:94-103 | the bounded scan removes exactly the idle buckets in its window, keeps the dictionary order, and returns how many it removed |
| TokenBucket.CleanedMeans | backend/src/enterprise_ai/rate_limit/store.py:94-103 | a bucket goes exactly when it is among the first scanned and was not seen for longer than the ttl; the others stay as they are, in their order |
| TokenBucketRuns.RunStaysInRange | backend/src/enterprise_ai/rate_limit/store.py:110-119 | in every run with one policy per key the stored tokens stay within [0, capacity], so the state check never fires and a call fails exactly on a non-positive cost |
| TokenBucketRuns.TooCostlyIsDenied | backend/src/enterprise_ai/rate_limit/store.py:57-78 | a cost above capacity + EPSILON is denied in every run, on any clock |
| TokenBucketRuns.NeverGrantedIff | backend/src/enterprise_ai/rate_limit/store.py:57-78 | a positive cost is denied in every run from the empty store if and only if it is above capacity + EPSILON |
| TokenBucketRuns.KeptLevels | backend/src/enterprise_ai/rate_limit/store.py:57-92 | a call reads and lowers the level of its own key and leaves every other level alone |
| TokenBucketRuns.CleanupInvisible | backend/src/enterprise_ai/rate_limit/store.py:46-103 | on a monotone clock with ttl x rate at least the capacity, a store with cleanup answers every call exactly as one that never cleans up |
| TokenBucketRuns.ShortTtlShows | backend/src/enterprise_ai/rate_limit/store.py:46-103 | for every cleanup interval and scan limit: if some bucket needs longer than the ttl to refill, a run from the empty store shows a difference |
| TokenBucketRuns.CleanupNeverShowsIff | backend/src/enterprise_ai/rate_limit/store.py:46-103 | cleanup changes no answer of any monotone run if and only if ttl x rate reaches the capacity for every key |
| TokenBucketRuns.DeniedCallsLeaveNoTrace | backend/src/enterprise_ai/rate_limit/store.py:46-103 | in a store with cleanup whose idle buckets refill in time, removing denied calls from a run changes no other answer |
| TokenBucketRuns.GrantedPlusLevel | backend/src/enterprise_ai/rate_limit/store.py:46-103 | in every run with cleanup, what is granted on a key plus what is left is at most what was there plus what refilled, plus EPSILON for each grant and one capacity for each time the bucket is evicted before it has refilled |
| TokenBucketRuns.GrantsMean | backend/src/enterprise_ai/rate_limit/store.py:66-68 | the grants that the bounds count are exactly the granted calls of the key |
| TokenBucketRuns.WindowBound | backend/src/enterprise_ai/rate_limit/store.py:46-103 | in any window of any run the cost granted on a key is at most capacity + rate x elapsed + EPSILON x grants, plus one capacity for each early eviction |
| TokenBucketRuns.WindowBoundUnremoved | backend/src/enterprise_ai/rate_limit/store.py:46-103 | the plain bound holds whatever the ttl in every window in which cleanup does not remove the key |
| TokenBucketRuns.WindowBoundWithCleanup | backend/src/enterprise_ai/rate_limit/store.py:46-103 | the plain bound holds in every window when the key's own bucket refills within the ttl |
| TokenBucketRuns.RetryIsSound | backend/src/enterprise_ai/rate_limit/store.py:46-103 | after a denied call whose cost fits the capacity, and any denied calls and cleanups in between, the retry is granted at or after now + retry_after whatever the ttl; one second earlier the tokens fall short if the bucket stays or has refilled when removed |
| TokenBucketRuns.RefilledStays | backend/src/enterprise_ai/rate_limit/store.py:46-103 | a key whose bucket refills within the ttl meets that condition in every run |
| MemoryTurns.EvictTurns | backend/src/enterprise_ai/memory/in_memory.py:151-164 | the loop drops the oldest turn until the rest fits and counts what it dropped |
| MemoryTurns.EvictShape | backend/src/enterprise_ai/memory/in_memory.py:151-164 | what eviction keeps is the longest end of the turns that fits all three caps |
| MemoryTurns.CapsHold | backend/src/enterprise_ai/memory/in_memory.py:151-164 | what is kept is within the caps on turns, characters and references, and one more turn of the log would break one of them |
| MemoryTurns.EvictFromLog | backend/src/enterprise_ai/memory/in_memory.py:132-136 | evicting from the retained turns keeps exactly the longest fitting end of the whole log |
| MemoryTurns.NewTurnSurvives | backend/src/enterprise_ai/memory/in_memory.py:132-164 | a new turn survives its own eviction pass exactly when it fits the caps by itself |
| MemoryStore.InMemoryConversationStore.Load | backend/src/enterprise_ai/memory/in_memory.py:77-90 | a foreign owner is refused and changes nothing; None is the answer exactly when the session is absent or the owner's session has expired, which removes and counts it; otherwise the owner gets the stored session, marked as accessed in the store too, and nothing else changes |
| MemoryStore.InMemoryConversationStore.UpsertTurn | backend/src/enterprise_ai/memory/in_memory.py:92-149 | the store and the answer after one upsert in every case: foreign identity or owner, expired session, turn outside the bounds of its model, duplicate, conflicting content, turn over the character cap, stored turn |
| MemoryStore.InMemoryConversationStore.Delete | backend/src/enterprise_ai/memory/in_memory.py:177-185 | a foreign owner is refused and changes nothing; otherwise the answer says whether the session was there, and exactly it is removed, all others in their order |
| MemoryStore.InMemoryConversationStore.CleanupExpired | backend/src/enterprise_ai/memory/in_memory.py:187-196 | removes and counts the first expired sessions in dictionary order |
| MemoryStore.InMemoryConversationStore.MakeCapacity | backend/src/enterprise_ai/memory/in_memory.py:166-175 | expired sessions go first, then at most one more |
| MemoryStore.CleanedShape | backend/src/enterprise_ai/memory/in_memory.py:187-196 | a cleanup removes only expired sessions, counts them exactly, and leaves one behind only when it reached its maximum |
| MemoryStore.CleanedInOrder | backend/src/enterprise_ai/memory/in_memory.py:187-196 | the expired sessions a cleanup removes are the first ones in dictionary order, and those that stay keep their order |
| MemoryStore.CapacityShape | backend/src/enterprise_ai/memory/in_memory.py:166-175 | there is room for one more session afterwards; an unexpired session gives way only in a full store and only if it was accessed longest ago |
| MemoryStore.OldestIsFirst | backend/src/enterprise_ai/memory/in_memory.py:173-175 | of the sessions accessed longest ago the first in dictionary order gives way |
| MemoryRuns.UpsertAnswers | backend/src/enterprise_ai/memory/in_memory.py:92-149 | the answer and the new store of an upsert for every opened session, in the order of the checks: identity, owner, bounds of a turn, the first retained turn of the request and its content, character cap, stored turn with its number, expiry and evictions |
| MemoryRuns.OpenedAnew | backend/src/enterprise_ai/memory/in_memory.py:97-114 | an upsert works on the live session of its id, or else on a new empty one of the caller that lives for the whole time to live |
| MemoryRuns.OpenedCounts | backend/src/enterprise_ai/memory/in_memory.py:97-114 | opening a session counts every expired session it removes and no other, and besides those at most one gives way |
| MemoryRuns.StoredFollows | backend/src/enterprise_ai/memory/in_memory.py:126-136 | storing a turn keeps the session equal to what its log determines |
| MemoryRuns.StepTracks | backend/src/enterprise_ai/memory/in_memory.py:77-196 | every operation keeps the session bound, the dictionary order and the agreement of every session with its log |
| MemoryRuns.EveryRunFollowsItsLogs | backend/src/enterprise_ai/memory/in_memory.py:77-196 | after any run each session holds exactly the longest end of its full log that fits the caps, numbered consecutively up to next_sequence - 1, with distinct requests, every turn within the bounds of its model, and the session count stays within its maximum |
| MemoryRuns.SessionsChangeForAReason | backend/src/enterprise_ai/memory/in_memory.py:77-196 | a session stays as it was unless its owner acts, it has expired, or it was accessed longest ago when a full store needs room |
| MemoryRuns.DuplicateIffRetained | backend/src/enterprise_ai/memory/in_memory.py:116-125 | a request stored before is answered as the duplicate of its turn exactly while that turn is retained |
| MemoryRuns.RetryIsRecognised | backend/src/enterprise_ai/memory/in_memory.py:116-142 | resending a stored turn before expiry is recognised exactly when its own references fit the cap; otherwise it is stored again |
| MemoryService.EvidenceReferences | backend/src/enterprise_ai/memory/service.py:36-68 | the loop over evidence returns the references of the first visible item of each chunk, capped, or fails when the fields of one of them, even past the cap, are outside the bounds of the reference model |
| MemoryService.FirstVisibleShape | backend/src/enterprise_ai/memory/service.py:36-68 | the kept items are exactly the first visible ones of their chunks, one for each chunk |
| MemoryService.UpdateMemory | backend/src/enterprise_ai/memory/service.py:70-113 | nothing is stored when memory is off, the run failed or a reference is refused; otherwise the truncated messages, capped references (none for a denied run) and capped distinct warnings are upserted, with every outcome of an upsert |
| MemoryService.PreparedMeans | backend/src/enterprise_ai/memory/service.py:85-113 | nothing is prepared exactly when memory is off or the run failed; an update carries the principal's own ids, the starts of both messages and of the distinct warnings, and the references of the first visible items of their chunks up to the cap, or none for a denied run |
| MemoryService.RefusedIff | backend/src/enterprise_ai/memory/models.py:38-54 | a prepared update is refused by the turn model exactly when a message is empty, the assistant message is longer than 8,000 characters even after the cut, or a kept warning is longer than 500, unless the session is foreign; the session has been opened by then and is left as it is |
| MemoryService.ServiceTurnSurvives | backend/src/enterprise_ai/memory/service.py:95-113 | a turn capped by the service survives its own eviction pass, and its retry is recognised while the session lives |
| MemoryService.CapacityErrorIsRuledOut | backend/src/enterprise_ai/memory/service.py:87-113 | within the bounds of the settings the capacity error is impossible exactly when the user cap and the assistant cap, the latter at most 8,000, together fit the character cap of the store |
| MemoryService.CapacityErrorOccurs | backend/src/enterprise_ai/memory/in_memory.py:126-131 | otherwise two storable messages of a new session meet it |
| FilterCompiler.BuildAuthorizationFilter | backend/src/enterprise_ai/retrieval/filters.py:42-84 | refused exactly when the filters name a level the principal may not see; otherwise the query holds of a chunk's metadata if and only if the build fingerprint matches and the direct predicate holds |
| FilterCompiler.AppendOptional | backend/src/enterprise_ai/retrieval/filters.py:63-84 | the clauses appended add exactly the conditions the filters ask for, for every record |
| FilterCompiler.BaseMeans | backend/src/enterprise_ai/retrieval/filters.py:53-57 | the three mandatory clauses mean fingerprint, access level and role |
| FilterCompiler.RangeMeans | backend/src/enterprise_ai/retrieval/filters.py:74-84 | a range clause on day numbers means the comparison of the dates themselves |
| FilterCompiler.OptionalMeans | backend/src/enterprise_ai/retrieval/sparse/retriever.py:204-219 | the optional clauses on a chunk's metadata mean the sparse branch's tests on the chunk |
| Calendar.OrdinalOrder | backend/src/enterprise_ai/retrieval/metadata.py:39-40 | dates compare like their epoch days, across months, leap years and centuries |
| Calendar.EpochDayCounts | backend/src/enterprise_ai/retrieval/filters.py:74-84 | day numbers start with 0 on 1 January 1970 and grow by one from each valid date to the next |
| HybridFusion.NormalizedRange | backend/src/enterprise_ai/retrieval/hybrid/normalization.py:9-17 | normalized scores lie in [0, 1] |
| HybridFusion.NormalizedOrder | backend/src/enterprise_ai/retrieval/hybrid/normalization.py:9-17 | normalization keeps the order of scores, an absent id counting as lowest |
| HybridFusion.Fuse | backend/src/enterprise_ai/retrieval/hybrid/fusion.py:27-93 | the fused list or the error for every pair of branches, repeated ids included |
| HybridFusion.UnionShape | backend/src/enterprise_ai/retrieval/hybrid/fusion.py:50 | the ids visited are exactly those of the two branches, once each, in increasing order |
| HybridFusion.RowOrder | backend/src/enterprise_ai/retrieval/hybrid/fusion.py:81-90 | the six-part key is a total order, and rows it cannot tell apart have the same id |
| HybridFusion.FusionFails | backend/src/enterprise_ai/retrieval/hybrid/fusion.py:50-58 | fusion fails exactly for weights that do not add up to more than zero, or when the last hits of some chunk in the two branches have different attributions |
| HybridFusion.FusedRows | backend/src/enterprise_ai/retrieval/hybrid/fusion.py:36-93 | of every returned row: hybrid score times the sum of the weights is dense weight x dense score + sparse weight x sparse score; each normalized score times the span of its branch is the raw score of the chunk's last hit above the lowest; ranks and evidence are those of that hit; rows are ordered by hybrid, dense, sparse and raw scores and id, of different chunks, and complete unless more than asked for |
| HybridFusion.BranchMeans | backend/src/enterprise_ai/retrieval/hybrid/normalization.py:9-17 | a chunk's score in a branch is that of its last hit, scaled between the lowest and the highest of the hits that count, and 1 when they agree |
| HybridFusion.FewerRows | backend/src/enterprise_ai/retrieval/hybrid/fusion.py:91-93 | asking for fewer rows gives the start of the same ranking |
| Sorting.StringLeMeans | backend/src/enterprise_ai/retrieval/hybrid/fusion.py:89 | the string order of the sort keys is prefix order, then the first difference by code point |
| Sorting.SortStable | backend/src/enterprise_ai/research/plan_validator.py:50-53 | sorting keeps members with equal keys in their order |
| HybridFusion.FusionRanks | backend/src/enterprise_ai/retrieval/hybrid/fusion.py:59-93 | the result has min(top_k, union) rows ranked from 1 with scores in [0, 1], each strictly ahead of every chunk not ranked before it |
| HybridFusion.BetterComesFirst | backend/src/enterprise_ai/retrieval/hybrid/fusion.py:59-93 | a chunk at least as good in both branches and better in one is always ranked strictly earlier |
| FrontMatter.Print | scripts/generate_sample_documents.py:666-677 | the printing loop writes the fences and the lines of every entry |
| FrontMatter.Parse | scripts/validate_sample_documents.py:99-123 | the parsing loop, with the list shared between dictionary entry and `active_list`, for every text |
| FrontMatter.PrintedParsesBack | scripts/validate_sample_documents.py:99-123 | parsing what was printed, followed by any body, gives metadata and body back exactly when there is metadata and no value contains U+0085, U+2028 or U+2029; otherwise it is refused |
| FrontMatter.BodyIsKept | scripts/validate_sample_documents.py:123 | the body comes back unchanged exactly when it does not start with a newline |
| FrontMatter.CutIsFound | scripts/validate_sample_documents.py:103 | the first fence found is the printed one, whatever the values and the body contain |
| FrontMatter.LinesFold | scripts/validate_sample_documents.py:108-122 | reading the printed lines rebuilds the entries in order |
| FrontMatter.BrokenLinesFail | scripts/validate_sample_documents.py:108-122 | a line broken by a separator inside a value is refused in any state |
| FrontMatter.EmptyMetadataFails | scripts/validate_sample_documents.py:99-123 | printed empty metadata is never parsed, whatever body follows |
| JsonStrings.LoadsDumps | scripts/generate_sample_documents.py:672-676 | reading a written JSON string literal gives the string back |
| JsonStrings.HexMeans | scripts/validate_sample_documents.py:112-122 | hexadecimal digits of both cases are read with their values, and nothing else |
| JsonStrings.EscapeMeans | scripts/validate_sample_documents.py:112-122 | four hexadecimal digits stand for the character of their number; surrogates are refused |
| JsonStrings.ScanCut | scripts/validate_sample_documents.py:112-122 | a literal cut short anywhere is refused |
| Text.SplitJoined | scripts/validate_sample_documents.py:108 | splitting joined lines that contain no separator gives them back |
| Words.CountConcat | ingestion/src/enterprise_ai_ingestion/tokenizer.py:6-28 | no token spans white space, so counts add up across it |
| Words.CountMeans | ingestion/src/enterprise_ai_ingestion/tokenizer.py:6-28 | the count of a text is the number of matches of the token pattern, one after the other, with only white space around them |
| Words.TokenMeans | ingestion/src/enterprise_ai_ingestion/tokenizer.py:6 | a lexical word takes word characters and single hyphens and apostrophes between them, as far as it can go |
| Words.CountIsTokens | ingestion/src/enterprise_ai_ingestion/tokenizer.py:24-28 | the count of a text is the sum of the counts of its words |
| Words.TokensAtLeast | ingestion/src/enterprise_ai_ingestion/tokenizer.py:6-28 | words count at least one token each, and as many tokens as words only if each is a single token |
| MarkdownBlocks.Blocks | ingestion/src/enterprise_ai_ingestion/parser.py:267-301 | the block loop over the lines of a section |
| MarkdownBlocks.Group | ingestion/src/enterprise_ai_ingestion/parser.py:275-289 | one group: a heading alone, a fence to its closing line or the end, or the lines of one kind |
| MarkdownBlocks.GroupMeans | ingestion/src/enterprise_ai_ingestion/parser.py:275-289 | a heading is a group of its own, a fence ends with the first line that closes it or at the end, any other group at the first blank line or line of another kind |
| MarkdownBlocks.KindMeans | ingestion/src/enterprise_ai_ingestion/parser.py:304-316 | the kind of every line: a heading, or else what its first shown characters mark, or a paragraph |
| MarkdownBlocks.Sections | ingestion/src/enterprise_ai_ingestion/parser.py:225-264 | the section loop, and the error when there is none |
| MarkdownBlocks.SectionsMean | ingestion/src/enterprise_ai_ingestion/parser.py:225-264 | every document has one section for each heading line, in order: its level is the number of hashes, its heading the stripped title, its path the first min(length, level - 1) titles of the path before and the title, its blocks those of its lines, its range theirs; before them at most one untitled section |
| MarkdownBlocks.HeadingMeans | ingestion/src/enterprise_ai_ingestion/parser.py:45 | a line is a heading exactly when one to six hashes, white space and one more character start it, with the level and title it has |
| Text.StripMeans | ingestion/src/enterprise_ai_ingestion/parser.py:251 | stripping takes off the white space at both ends and nothing else |
| MarkdownBlocks.DocumentPartition | ingestion/src/enterprise_ai_ingestion/parser.py:225-301 | every non-blank line lands in exactly one block, blocks have disjoint increasing line ranges, and each is exactly the joined text of its range |
| MarkdownBlocks.BlocksPartition | ingestion/src/enterprise_ai_ingestion/parser.py:267-301 | the same within one section |
| MarkdownBlocks.SectionsKeepWords | ingestion/src/enterprise_ai_ingestion/parser.py:225-301 | the words of the blocks are the words of the lines, in order, for any lines |
| MarkdownBlocks.DocumentChained | ingestion/src/enterprise_ai_ingestion/parser.py:234-261 | along a document each block has the path of the block before it, or that path cut back and one title added; so only blocks before the first heading have an empty path |
| BlockSplitting.GatherSentences | ingestion/src/enterprise_ai_ingestion/chunker.py:185-196 | the gathering loop over sentences |
| BlockSplitting.SplitWords | ingestion/src/enterprise_ai_ingestion/chunker.py:202-205 | the loop that cuts a piece into groups of words |
| BlockSplitting.SplitText | ingestion/src/enterprise_ai_ingestion/chunker.py:178-216 | the parts of one text |
| BlockSplitting.SplitOversizedBlock | ingestion/src/enterprise_ai_ingestion/chunker.py:156-175 | the parts of one block: itself, its lines, or its text |
| BlockSplitting.SentencesKeepWords | ingestion/src/enterprise_ai_ingestion/chunker.py:20 | splitting at sentence ends keeps the word sequence |
| BlockSplitting.SentencesMean | ingestion/src/enterprise_ai_ingestion/chunker.py:20 | a text is cut exactly where white space parts the end of a sentence from a capital letter or a digit |
| BlockSplitting.GatheredMeans | ingestion/src/enterprise_ai_ingestion/chunker.py:185-196 | a gathered piece is closed only before a sentence that would take it over the maximum |
| BlockSplitting.GatheredKeepsWords | ingestion/src/enterprise_ai_ingestion/chunker.py:185-196 | gathering sentences keeps the word sequence |
| BlockSplitting.HardSplitKeepsWords | ingestion/src/enterprise_ai_ingestion/chunker.py:202-205 | the hard split keeps the word sequence and gives groups of exactly maximum words, the last one of 1 to maximum |
| BlockSplitting.HardSplitFits | ingestion/src/enterprise_ai_ingestion/chunker.py:202-205 | all groups are within the token maximum exactly when the words of the full groups are single tokens and the others sum up to at most the maximum |
| BlockSplitting.HardSplitCanExceed | ingestion/src/enterprise_ai_ingestion/chunker.py:202-205 | one word of three tokens stays above a maximum of one |
| BlockSplitting.FinalsMean | ingestion/src/enterprise_ai_ingestion/chunker.py:197-205 | a piece within the maximum stays whole and one above it is cut by words |
| BlockSplitting.PartsMean | ingestion/src/enterprise_ai_ingestion/chunker.py:206-216 | the parts are the texts that show something, with the kind and path of the block and the lines from the given one to its end |
| BlockSplitting.SplitLinesMean | ingestion/src/enterprise_ai_ingestion/chunker.py:161-174 | splitting by lines splits the text of each line, numbered on from the block's start and never past its end |
| BlockSplitting.SplittingMeans | ingestion/src/enterprise_ai_ingestion/chunker.py:156-175 | a block within the maximum stays whole; a larger one is split by lines when it has several and is neither a table nor a code fence, and as one text otherwise |
| BlockSplitting.GatheredFit | ingestion/src/enterprise_ai_ingestion/chunker.py:185-196 | gathering makes no piece too large that is not one sentence too large by itself |
| BlockSplitting.SplitTextFits | ingestion/src/enterprise_ai_ingestion/chunker.py:178-216 | all parts of a text are within the maximum exactly when every sentence over it has words that fit |
| BlockSplitting.SplittingFits | ingestion/src/enterprise_ai_ingestion/chunker.py:156-216 | splitting brings a block within the maximum exactly when it is within it or all sentences of its lines or its text fit in that sense |
| BlockSplitting.SplittingKeepsWords | ingestion/src/enterprise_ai_ingestion/chunker.py:156-216 | splitting keeps the word sequence of the block |
| BlockSplitting.SplittingStaysInside | ingestion/src/enterprise_ai_ingestion/chunker.py:156-216 | every part has the block's kind and path, a line range inside the block's, at least one word and at most maximum words |
| ChunkPacking.PackGreedily | ingestion/src/enterprise_ai_ingestion/chunker.py:62-86 | the greedy loop, including the separator charged after a flush |
| ChunkPacking.MergeTail | ingestion/src/enterprise_ai_ingestion/chunker.py:87-95 | a short tail joins the last core when both fit the maximum, and is a core of its own otherwise |
| ChunkPacking.RebalanceFinalCore | ingestion/src/enterprise_ai_ingestion/chunker.py:126-153 | the rebalancing loop terminates with the last two cores of the balancing function |
| ChunkPacking.FindOverlap | ingestion/src/enterprise_ai_ingestion/chunker.py:101-114 | the backward scan and the trimming loop, with the running count equal to the overlap's tokens |
| ChunkPacking.PackDocument | ingestion/src/enterprise_ai_ingestion/chunker.py:55-117 | the drafts of a document |
| ChunkPacking.TextCount | ingestion/src/enterprise_ai_ingestion/chunker.py:278-279 | the tokens of a chunk text are the sum of those of its blocks |
| ChunkPacking.SeparatorCharge | ingestion/src/enterprise_ai_ingestion/chunker.py:66-86 | a step that flushes and starts a core charges it one separator too many; any other step leaves the excess of the running count as it was or at zero |
| ChunkPacking.ChargedAtMostOnce | ingestion/src/enterprise_ai_ingestion/chunker.py:66-86 | over any blocks the running count is the waiting tokens and separators, or one more |
| ChunkPacking.GreedyKeepsPacking | ingestion/src/enterprise_ai_ingestion/chunker.py:65-86 | the loop invariant over every prefix: blocks partitioned, cores bounded and coherent, the waiting count an upper bound below the target |
| ChunkPacking.GreedyFills | ingestion/src/enterprise_ai_ingestion/chunker.py:62-86 | the greedy parts partition the blocks; each takes every block it has room for and is closed only because it has reached the target, the next block is under another first heading, or it is not all headings and the block with its separator would pass the target; the last part waits exactly when it is short of the target |
| ChunkPacking.TailMeans | ingestion/src/enterprise_ai_ingestion/chunker.py:87-95 | the waiting part joins the one before exactly when it has less than the minimum and both fit the maximum; otherwise the parts stay as they are |
| ChunkPacking.BalancedMeans | ingestion/src/enterprise_ai_ingestion/chunker.py:126-153 | rebalancing moves whole runs of one path while the last core is below the larger of minimum and half target, the rest stays at it, first headings agree and the maximum holds, and stops only when that fails |
| ChunkPacking.CoresMeans | ingestion/src/enterprise_ai_ingestion/chunker.py:62-153 | the final cores are the tailed parts with the last two rebalanced |
| ChunkPacking.BalancedKeeps | ingestion/src/enterprise_ai_ingestion/chunker.py:134-153 | rebalancing keeps the blocks in order, leaves the first core at its bound and above the floor if it changed, and the last within the maximum |
| ChunkPacking.CoresAreGood | ingestion/src/enterprise_ai_ingestion/chunker.py:55-96 | the cores partition the blocks in order; each is at most the target, or a heading run below the target and one block, or the last one within the maximum; cores are coherent exactly unless the tail merge crossed a boundary |
| ChunkPacking.OverlapIsLongest | ingestion/src/enterprise_ai_ingestion/chunker.py:101-114 | the overlap is the longest end of the previous core on the core's path that fits the overlap budget and the maximum, before a full core only |
| ChunkPacking.PackedDraftsFit | ingestion/src/enterprise_ai_ingestion/chunker.py:98-117 | draft i is an end of core i - 1 followed by core i, its overlap count is exact and within budget, and overlap never takes a draft over the maximum |
| ChunkPacking.DraftsCoherent | ingestion/src/enterprise_ai_ingestion/chunker.py:88-96 | neighbouring blocks of every chunk share their first heading if and only if the short tail was not merged across a boundary |
| ChunkDocument.Chunk | ingestion/src/enterprise_ai_ingestion/chunker.py:29-52 | the records, or which check fails: chunk count, a core over the token maximum, or quality; never coverage |
| ChunkDocument.RecordMeans | ingestion/src/enterprise_ai_ingestion/chunker.py:219-275 | a record has the text, path and exact tokens of its blocks and runs from their first line to their last |
| ChunkDocument.QualityMeans | ingestion/src/enterprise_ai_ingestion/chunker.py:303-318 | a record passes exactly when it shows something, more than headings, repeats no earlier record and has the minimum of tokens unless it is the only one |
| ChunkDocument.PreservedMeans | ingestion/src/enterprise_ai_ingestion/chunker.py:293-300 | the coverage check asks for the block's text in one record, or for each of its words in the joined texts |
| ChunkPacking.TextMeans | ingestion/src/enterprise_ai_ingestion/chunker.py:278-279 | a chunk text is the texts of its blocks with one blank line between neighbours, stripped |
| ChunkDocument.TooLargeMeans | ingestion/src/enterprise_ai_ingestion/chunker.py:44-45 | a record is over the maximum exactly when a core is, and such a core is a heading run below the target and one block |
| ChunkDocument.CoverageNeverFires | ingestion/src/enterprise_ai_ingestion/chunker.py:293-300 | the coverage check accepts the chunks of every document |
| ChunkDocument.ExpansionKeepsWords | ingestion/src/enterprise_ai_ingestion/chunker.py:32-37 | expanding oversized blocks keeps the word sequence of the document |
| ChunkDocument.LinesReachChunks | ingestion/src/enterprise_ai_ingestion/chunker.py:29-117 | from the lines of a document to the cores of its chunks every word is kept, in order |
| ChunkDocument.OneRootPerChunk | ingestion/src/enterprise_ai_ingestion/chunker.py:55-117 | every chunk of a parsed document has one first heading if and only if the short tail was not merged across a boundary |
| ChunkDocument.MergeCanCross | ingestion/src/enterprise_ai_ingestion/chunker.py:88-91 | the four lines of a document with two short sections, packed into one chunk under two first headings |
| ChunkDocument.CommonSectionPath | ingestion/src/enterprise_ai_ingestion/chunker.py:282-290 | the filtering loop over the blocks' paths |
| ChunkDocument.CommonPrefixIsKept | ingestion/src/enterprise_ai_ingestion/chunker.py:282-290 | a path common to all blocks is always a prefix of the section path |
| ChunkDocument.ChunkPathIsLongestCommon | ingestion/src/enterprise_ai_ingestion/chunker.py:219-290 | for every document the section path of each chunk is the longest path that all its blocks share, although the loop filters position by position |

## Left out

Shared assumptions:

- UTF-8 decoding and NFC normalization: text is a sequence of characters, each with a byte width where bytes are counted.
- JSON beyond string literals and the empty list: envelopes cross the wire through an encoding and a decoding that undo each other; in front matter any other JSON value, the empty list as a list item, and `\u` escapes of surrogates are refused by the model.
- Unicode tables: `\w` and `\d` are arbitrary predicates, with the one fact that white space is no word character.
- Concurrency: the critical sections of the stores contain no suspension point, so one call is one step; locks are left out, and timeouts appear as streams or runs cut short anywhere.
- Cancellation by a disconnected client: the producer then sends nothing more, and no claim is made about such a stream.
- LangGraph: one node per step in the main graph; all workers of a round answer before the round is aggregated; the order of their results is the dispatch order, which `EvidenceAggregation.OrderIrrelevant` shows to be immaterial for the ledger.
- UUIDs: fresh ids are distinct (an injective supply); hashes and fingerprints are opaque texts.
- Floating point: token buckets and fusion are over the reals; non-finite scores do not exist there.
- Regular expressions for classification, redaction and facet matching: arbitrary predicates or given tables.
- Field bounds of the settings classes are taken as preconditions, since no other settings object can be built.
- Field bounds of data classes: the stored turn and its references are modelled with the errors they raise; other data classes are taken to accept what the modelled code builds.

By member:

- ClaimMatching.ValidateComparisonDraft: the texts of the error messages are constructors, because nothing depends on their wording.
- SseParser.FramesRoundTrip: a message frame has each of its three fields once, on one line with a space after the colon, in any order; the framework that writes the frames is not part of this model.
- GraphEvents.RunGuarded: a node body is any list of emissions and writes with or without a raise; what individual nodes compute, tracing and logging are not modelled.
- GraphEvents.GraphRunNumbered: speaks of one run; other channels of the checkpointed thread, such as the failure carried over by `initialize`, are arbitrary inputs to it, and turns of one session are not claimed to be independent.
- ResearchRounds.CollectChildren: every proposal has a question and queries within the bounds of the task class; the code builds a task from each candidate and raises on an empty or over-long one, which ends the run.
- ResearchRounds.RunRounds: workers report their own task id and depth and spend other resources than tasks; planning, its one repair attempt, conflict analysis and coverage assessment are not modelled.
- MemoryStore.InMemoryConversationStore.UpsertTurn: session records are values in the dictionary rather than objects; no code keeps a second reference to one.
- MemoryStore.InMemoryConversationStore.Load: returns the session itself; the topic and identifier summary of a snapshot is not modelled.
- MemoryService.UpdateMemory: redaction happens before and is an arbitrary change of the texts.
- FilterCompiler.BuildAuthorizationFilter: the metadata record holds the fields a filter can reach; the remaining fields and the size limit of the record are left out.
- HybridFusion.Fuse: the attribution fields are one opaque text; `retrieval_modes` is determined by the two raw scores.
- MarkdownBlocks.DocumentPartition: assumes lines numbered upwards that are empty unless they show something, which is what the normalizer leaves; the normalizer itself is not modelled.
- ChunkDocument.Chunk: the byte maximum of a chunk text and the identifiers, hashes and copied metadata of a record are left out.

Other parts of the repository: user interface, HTTP routing and clients, authentication, adapters for external
services, retrieval scoring, analysis statistics, role and permission tables, prompts, artifact writers and the
corpus texts; they are I/O, data, or finite tables.
