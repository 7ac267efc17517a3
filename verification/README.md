# AgentCorp backend: a verified model

This project models the state-carrying components of the AgentCorp backend in Dafny and proves
what they guarantee over every input and every run. `dafny verify dfyconfig.toml` checks all of it.

| file | component |
|---|---|
| `Prelude.dfy` | the option type |
| `StableSort.dfy` | filtering, and the stable sort that Python's `sorted` promises |
| `Text.dfy` | string order, decimal rendering |
| `TaskManagement.dfy` | task records, the five-field order, the queue, tasks of a goal |
| `AutonomousExecution.dfy` | the autonomous execution loop |
| `Paragraphs.dfy` | paragraph split and join |
| `Chunker.dfy` | the chunker |
| `KnowledgeIngest.dfy` | document ingest and deletion |
| `PolicyEngine.dfy` | policy evaluation and the policy cache |
| `PolicyService.dfy` | the policy service |
| `PolicyCache.dfy` | the cache protocol, interleaved |
| `RateLimiter.dfy` | the fixed-window rate limiter |
| `Streaming.dfy` | interleaved streaming sessions |
| `StreamingRuns.dfy` | what each stream of a run amounts to, told from its own steps |
| `Execution.dfy` | the execution state machine, the tasks of a blueprint, the engine's run |
| `AdaptivePlanning.dfy` | plan revision |
| `ProviderFailover.dfy` | failover order and the failover loop |
| `Delegation.dfy` | collaboration sessions and delegation |
| `DelegationRace.dfy` | delegations that read and insert in two steps, interleaved |

Classes and loops of the source are classes and loops here. A method is proved equal to a
description on values (`Walk`, `Greedy`, `Recorded`, `Run`, ...), and the theorems are about that
description. Lemmas whose names end in `InFields` say what a description means in the fields of the
records and rows themselves.

## What stands out

- The scheduler re-sorts and filters its whole list on every turn, yet it picks exactly the READY
  tasks of the start, sorted once (`ExecuteLoop`).
- Nothing promotes a BLOCKED task, so a goal whose objective has eight or more words (two or three
  tasks) is left ACTIVE whatever the runtime answers (`ExecuteGoal`). A list in which some task was
  COMPLETED beforehand is never marked complete either (`GoalCompletion`).
- The chunker's overlap is always one paragraph, `chunk_overlap` is unused, and the original text
  can be rebuilt exactly from the chunk texts alone (`ChunkRoundTrip`).
- The docstring of `evaluate_policies` says that a matching DENY raises. It does exactly when no
  matching allow, and no conditional whose condition holds, is listed before it
  (`DenyRaisesExactlyWhenFirst`; `AllowHidesDeny` is a list on which it does not). The model follows
  the code.
- A limit per minute admits up to twice the limit within sixty seconds, and no more; the bound is
  reached for every limit (`SpanBound`, `SpanBoundIsTight`).
- A duplicate policy other than "reject" and "replace" adds a second active copy
  (`IngestUniqueExactly`, `TwoCopies`), and so do two "reject" ingests of the same content that both
  pass the duplicate check before either inserts (`CheckedTogether`). A failed ingest blocks a retry
  of the same content under "reject" once its row exists (`FailedIngestBlocksRetry`).
- "replace" is not atomic: when the deletion raises at a chunk, or creating the new row raises, the
  old copy is gone and there is no new one (`ReplaceKeepsContentExactly`, `ReplacedByNothing`). A deletion that raises half
  way leaves a deleted document with active chunks, and no later call ever removes them
  (`TornForGood`, `TornReachable`).
- The log published by the engine is a chain through the transition table only from its second
  entry on (`SeededLogIsChainFromSecond`), and the dispatched provider step does not wait for the
  steps it depends on (`DispatchSkipsDependencies`).
- For a blueprint without capabilities the tasks are sorted by priority alone; the result respects
  the dependency graph exactly when every dependency has an earlier priority, or the same priority
  and an earlier place in the plan (`TopologicalExactly`; `DependencyComesLater` is a plan on which it
  does not).
- A planning call that does not replan resets the planning version to "0" while the revision number
  stays (`VersionFollowsLastCall`).
- The delegation "depth" counts all delegations ever accepted on a session; resolving one does not
  free a place (`AcceptedExactly`). Under concurrency depths still never exceed five and have no gaps
  (`ConcurrentInv`), but the number of delegations is not limited (`NoLimitOnRows`).

## Assumptions

- Runtime, providers, extraction and dispatch are oracles; clocks are parameters that do not go back.
  The policy cache needs a wall clock past its first minute, since invalidation stores time 0.
- Database reads see committed rows, and a single-row write either happens or raises. Cached policies
  are snapshots of rows.
- Calls on the knowledge base run one after the other; so do calls on collaboration sessions in
  `Delegation.dfy`. A query without an order returns rows in the order of insertion.
- Diagnostics registration and event formatting do not raise; a stream is not cancelled as an
  asyncio task (`CancelledError` is caught by no handler).
- `str.lower`, policy conditions and checksums are arbitrary functions or values.

## Model

| member | source | states |
|---|---|---|
| StableSort.SortIsTheStableSort | apps/backend/app/runtime/task_management.py:107-118 | the sort used throughout is the one list that is ascending and keeps each class of equal keys in input order |
| StableSort.FilterSort | apps/backend/app/runtime/task_management.py:200-201 | filtering a sorted list equals sorting the filtered list, ties included |
| StableSort.ResortAfterAppend | apps/backend/app/runtime/task_management.py:91-93 | re-sorting after each arrival equals sorting once at the end, ties included |
| StableSort.SortHead | apps/backend/app/runtime/task_management.py:95-98 | the head of the sorted list is the earliest least element and the tail is the sort of what remains |
| StableSort.SortPositions | apps/backend/app/runtime/execution.py:291 | the sorted list is the input read in the order of keys, and among equal keys of positions, each position once |
| TaskManagement.TaskOrder | apps/backend/app/runtime/task_management.py:107-118 | the five-field key is a total preorder on task records |
| TaskManagement.OrderInFields | apps/backend/app/runtime/task_management.py:107-118 | READY comes first, then urgency, deadline (none counts as the end of 9999), creation time and id |
| TaskManagement.ReadyFirst | apps/backend/app/runtime/task_management.py:107-118 | in a sorted list no READY record comes after another one |
| Text.StrLeMeaning | apps/backend/app/runtime/task_management.py:112-117 | strings compare by the first difference, and a prefix comes first |
| TaskManagement.TaskQueue.Enqueue | apps/backend/app/runtime/task_management.py:91-93 | the entries stay the sort of the arrivals in arrival order |
| TaskManagement.TaskQueue.Dequeue | apps/backend/app/runtime/task_management.py:95-98 | takes the earliest arrival among the least entries, or nothing from an empty queue |
| TaskManagement.TaskQueue.Reorder | apps/backend/app/runtime/task_management.py:103-104 | the queue becomes the sort of the given list |
| TaskManagement.DriveQueue | apps/backend/app/runtime/task_management.py:91-98 | under any mix of enqueue and dequeue the tasks taken are, one by one, the earliest of the least that waited; what is left is in order and nothing is lost or duplicated |
| TaskManagement.ServedConserves | apps/backend/app/runtime/task_management.py:91-98 | that description loses and duplicates nothing |
| TaskManagement.SnapshotOf | apps/backend/app/runtime/task_management.py:213-217 | queueing one at a time and inspecting gives the snapshot of the list sorted once |
| TaskManagement.SnapshotInFields | apps/backend/app/runtime/task_management.py:121-136 | the counts are those of the records with the status, the priority, or with dependencies |
| TaskManagement.WordCountIsStarts | apps/backend/app/runtime/task_management.py:143 | the word count is the number of positions that hold no white space and follow white space or nothing |
| TaskManagement.BaseCount | apps/backend/app/runtime/task_management.py:143 | one to three steps: one below eight words, three from twelve words on |
| Text.ValueOfDecimal | apps/backend/app/runtime/task_management.py:145 | reading a rendered number back gives the number |
| TaskManagement.TaskIdInjective | apps/backend/app/runtime/task_management.py:145-146 | generated ids of one goal are distinct |
| TaskManagement.CreateTasks | apps/backend/app/runtime/task_management.py:140-174 | a chain with distinct ids in which only the first is READY and each other is BLOCKED on exactly its predecessor; id, title, description, priority, deadline and metadata of each step in its fields |
| AutonomousExecution.ExecuteLoop | apps/backend/app/runtime/autonomous_execution.py:82-115 | final list and result lists equal those of one walk over the initially READY records sorted once; the picks are that sorted list; a settled record never changes again; some explanation in fields exists (RunExplained) |
| AutonomousExecution.RunExplained | apps/backend/app/runtime/autonomous_execution.py:82-115 | in fields: a pick is held exactly when a dependency has not completed before it, any other completed exactly when the answer to its own hand-over is Ok and carries the error otherwise; completed, failed and blocked records differ from their picks only in status and error, in the lists and in the final list |
| AutonomousExecution.WalkAnswers | apps/backend/app/runtime/autonomous_execution.py:99-113 | a handed-over record has the verdict of the runtime's answer to its hand-over, counted over those before it |
| AutonomousExecution.BooksInFields | apps/backend/app/runtime/autonomous_execution.py:90-113 | the result lists, record by record |
| AutonomousExecution.FinalInFields | apps/backend/app/runtime/autonomous_execution.py:91-113 | the final list, record by record |
| AutonomousExecution.DecideInFields | apps/backend/app/runtime/autonomous_execution.py:49-58 | the decision for a record in any state |
| AutonomousExecution.Turn | apps/backend/app/runtime/autonomous_execution.py:86-114 | one turn records and rewrites exactly the picked record according to its verdict |
| AutonomousExecution.ReadyTail | apps/backend/app/runtime/autonomous_execution.py:83-86 | after the first READY record is settled, re-sorting and filtering yields the tail of the previous READY list |
| AutonomousExecution.PickOrder | apps/backend/app/runtime/task_management.py:107-118 | no record is picked after a less urgent one; then deadline, creation time and id decide |
| AutonomousExecution.DependencySafety | apps/backend/app/runtime/autonomous_execution.py:49-58 | a picked record reaches the runtime exactly when each dependency completed earlier in the same run |
| AutonomousExecution.PickedOnce | apps/backend/app/runtime/autonomous_execution.py:82-115 | only initially READY records are picked, none twice |
| AutonomousExecution.VerdictsPartition | apps/backend/app/runtime/autonomous_execution.py:76-79 | completed, failed and blocked partition the picked records |
| AutonomousExecution.HandedOverList | apps/backend/app/runtime/autonomous_execution.py:99-104 | the runtime saw exactly the records that were not blocked, in pick order |
| AutonomousExecution.CompletedList | apps/backend/app/runtime/autonomous_execution.py:105-107 | the completed list holds the completed records in pick order, with status COMPLETED |
| AutonomousExecution.FailedList | apps/backend/app/runtime/autonomous_execution.py:110-113 | the failed list holds the failed records in pick order, with status FAILED and the error |
| AutonomousExecution.BlockedList | apps/backend/app/runtime/autonomous_execution.py:90-92 | the blocked list holds the blocked records as they were before the status change |
| AutonomousExecution.SettleAllApplies | apps/backend/app/runtime/autonomous_execution.py:91-113 | ids and order are kept, READY records carry their verdict, the others are untouched |
| AutonomousExecution.ExitAccounting | apps/backend/app/runtime/autonomous_execution.py:117-119 | at exit nothing is READY, and the counts per status are the initial ones plus the result lists, which add up to the initially READY records |
| AutonomousExecution.GoalCompletion | apps/backend/app/runtime/autonomous_execution.py:119 | the goal is marked complete exactly when every record started READY and completed in this run |
| AutonomousExecution.ExecuteGoal | apps/backend/app/runtime/autonomous_execution.py:67-144 | for every goal: completed exactly when the objective has fewer than eight words and the one hand-over succeeds; the first step is the one record picked, and it ends COMPLETED or FAILED with the error; the other steps stay BLOCKED |
| Paragraphs.JoinSplit | apps/backend/app/knowledge/chunker.py:28 | joining the split pieces gives the text back |
| Paragraphs.SplitCanonical | apps/backend/app/knowledge/chunker.py:28 | no piece holds a separator and no piece but the last ends in a newline |
| Paragraphs.CanonicalRoundTrip | apps/backend/app/knowledge/chunker.py:28-37 | splitting undoes joining exactly on the canonical lists |
| Chunker.ChunkText | apps/backend/app/knowledge/chunker.py:28-60 | the chunks are greedy slices, each later one repeating exactly its predecessor's last paragraph and adding at least one |
| Chunker.GreedyUnique | apps/backend/app/knowledge/chunker.py:33-49 | there is only one greedy chunking |
| Chunker.ChunkListCorrect | apps/backend/app/knowledge/chunker.py:28-60 | every text has exactly one chunking |
| Chunker.ChunkRoundTrip | apps/backend/app/knowledge/chunker.py:28-60 | re-splitting the chunk texts, dropping each later chunk's first paragraph and joining gives the original text |
| Chunker.ChunkNeighbours | apps/backend/app/knowledge/chunker.py:33-49 | from the texts alone: each later chunk starts with exactly its predecessor's last paragraph, adds at least one, and that one would have made the predecessor too long |
| Chunker.FirstChunkBound | apps/backend/app/knowledge/chunker.py:33-49 | the first chunk is within the size from two paragraphs on |
| Chunker.ChunkBounds | apps/backend/app/knowledge/chunker.py:33-58 | no more chunks than paragraphs; a chunk of three or more paragraphs is within the size but for separators |
| KnowledgeIngest.KnowledgeService.DeleteDocument | apps/backend/app/services/knowledge_service.py:75-87 | flags an active document, then its active chunks up to the write that raises, and nothing else; nothing at all when the document's own write raises |
| KnowledgeIngest.KnowledgeService.FlagChunks | apps/backend/app/services/knowledge_service.py:84-87 | flags exactly the leading active chunks of the document that come before the write that raises |
| KnowledgeIngest.KnowledgeService.AddDocument | apps/backend/app/services/knowledge_service.py:121-168 | final status, stored chunk rows and the error reported, for success and for a raise at the creation, at every status write, in extraction or preparation, at any chunk write, and in the handler's own write |
| KnowledgeIngest.KnowledgeService.Process | apps/backend/app/services/knowledge_service.py:134-162 | the status and the chunk rows that are stored when the body of the try ends or raises at a given stage |
| KnowledgeIngest.KnowledgeService.StoreChunks | apps/backend/app/services/knowledge_service.py:149-158 | one row per chunk in order, numbered from 0, up to the write that raises |
| KnowledgeIngest.KnowledgeService.IngestDocument | apps/backend/app/services/knowledge_service.py:106-168 | the new tables and the result for every duplicate policy and every place where the request or its deletion raises |
| KnowledgeIngest.RunInv | apps/backend/app/services/knowledge_service.py:75-168 | over every run, wherever ingests and deletions raise: a deleted document has active chunks exactly when its deletion raised half way, READY documents have exactly the chunker's output numbered from 0, documents still VALIDATING or PROCESSING have none, all others a prefix |
| KnowledgeIngest.AddedInFields | apps/backend/app/services/knowledge_service.py:121-168 | the new document row, its status for every place where the ingest raises, and its chunk rows in fields |
| KnowledgeIngest.DeletedInFields | apps/backend/app/services/knowledge_service.py:75-87 | a deletion sets the flag of the document and of its active chunks before the raising write, and nothing else |
| KnowledgeIngest.RefusedChangesNothing | apps/backend/app/services/knowledge_service.py:106-117 | an invalid file, and a duplicate under "reject", change nothing |
| KnowledgeIngest.AcceptedIsStored | apps/backend/app/services/knowledge_service.py:118-162 | any other request without faults ends with a new READY document that holds exactly the chunks of its text, numbered from 0 |
| KnowledgeIngest.RunUnique | apps/backend/app/services/knowledge_service.py:113-119 | over every run with "reject" or "replace", active documents of one base have distinct checksums |
| KnowledgeIngest.IngestUniqueExactly | apps/backend/app/services/knowledge_service.py:113-132 | an ingest keeps checksums unique exactly when it does not create a row for a valid duplicate under another policy |
| KnowledgeIngest.TwoCopies | apps/backend/app/services/knowledge_service.py:113-132 | ingesting any valid content twice under another policy ends with two active copies |
| KnowledgeIngest.CheckedTogether | apps/backend/app/services/knowledge_service.py:113-132 | two ingests that both pass the duplicate check first keep checksums unique exactly when content or base differs or one creates no row |
| KnowledgeIngest.ReplaceKeepsContentExactly | apps/backend/app/services/knowledge_service.py:118-132 | after a replace the content is still there exactly when the old copy could not be flagged or nothing raised before the new row existed |
| KnowledgeIngest.ReplacedByNothing | apps/backend/app/services/knowledge_service.py:118-132 | any document can be ingested and then lost to a replace whose creation raises |
| KnowledgeIngest.TornForGood | apps/backend/app/services/knowledge_service.py:75-87 | the chunks left active by a deletion that raised stay active under every later sequence of calls |
| KnowledgeIngest.TornReachable | apps/backend/app/services/knowledge_service.py:75-87 | any document can be ingested and its deletion torn |
| KnowledgeIngest.FailedIngestBlocksRetry | apps/backend/app/repositories/document_repository.py:22-29 | the same content counts as a duplicate exactly when the first ingest created its row, READY or not, and is then refused under "reject" |
| KnowledgeIngest.FindActive | apps/backend/app/repositories/document_repository.py:22-29 | finds an active document by checksum and base, or shows that there is none |
| PolicyEngine.EvaluatePolicies | apps/backend/app/security/policy_engine.py:155-172 | the answer is the effect of the first decisive policy, and not allowed without one |
| PolicyEngine.NotAllowedInFields | apps/backend/app/security/policy_engine.py:155-172 | not allowed exactly when no active row with the resource and the action denies, allows, or is conditional with a condition that holds |
| PolicyEngine.FirstRowAnswers | apps/backend/app/security/policy_engine.py:155-172 | the first such row gives the answer |
| PolicyEngine.OthersAnswerNothing | apps/backend/app/models/security_policy.py:33-36 | rows for another resource or another action can be left out |
| PolicyEngine.AnswerUnique | apps/backend/app/security/policy_engine.py:155-172 | that description has one answer |
| PolicyEngine.DenyRaisesExactlyWhenFirst | apps/backend/app/security/policy_engine.py:150-170 | a denial is raised exactly when nothing decisive precedes some matching DENY |
| PolicyEngine.AllowHidesDeny | apps/backend/app/security/policy_engine.py:150-165 | a list with a matching DENY that is not raised |
| PolicyEngine.ActiveAnswersAlike | apps/backend/app/models/security_policy.py:26-38 | leaving inactive rows out changes no answer |
| PolicyEngine.PolicyCache.Load | apps/backend/app/security/policy_engine.py:37-49 | reloads exactly when the entry is older than sixty seconds |
| PolicyEngine.PolicyCache.Invalidate | apps/backend/app/security/policy_engine.py:52-56 | resets the load time and keeps the list |
| PolicyEngine.PolicyCache.Evaluate | apps/backend/app/security/policy_engine.py:129-172 | answers on what the load returns |
| PolicyService.SecurityPolicyService.Create | apps/backend/app/services/security_policy_service.py:40-59 | adds the row and leaves the cache due for a reload |
| PolicyService.SecurityPolicyService.Update | apps/backend/app/services/security_policy_service.py:65-74 | changes the row and leaves the cache due, or changes nothing for an unknown id |
| PolicyService.SecurityPolicyService.Delete | apps/backend/app/services/security_policy_service.py:80-86 | removes the row and leaves the cache due, or changes nothing for an unknown id |
| PolicyService.SecurityPolicyService.Evaluate | apps/backend/app/security/policy_engine.py:153-172 | for one caller at a time, every answer is that of the live table |
| PolicyCacheProtocol.ReachableInv | apps/backend/app/security/policy_engine.py:43-56 | the protocol invariant holds in every reachable state of every interleaving |
| PolicyCacheProtocol.DriveCache | apps/backend/app/security/policy_engine.py:37-56 | the cache object driven by any interleaving ends with the list and load time of the protocol |
| PolicyCacheProtocol.Coherence | apps/backend/app/security/policy_engine.py:43-49 | a stale load implies a writer between commit and invalidation or a bypassing write at most sixty seconds old, and in any case a write at most sixty seconds old |
| PolicyCacheProtocol.InvalidationReloads | apps/backend/app/security/policy_engine.py:52-56 | after an invalidation the next load returns the active policies of the table |
| PolicyCacheProtocol.AnswersAsLive | apps/backend/app/security/policy_engine.py:153-172 | without such writers every answer is that of the live table |
| PolicyCacheProtocol.StaleWhilePending | apps/backend/app/services/security_policy_service.py:57-58 | the window between commit and invalidation is reachable, up to sixty seconds after the write |
| PolicyCacheProtocol.StaleAfterBypass | apps/backend/app/security/policy_engine.py:43-49 | a bypassing write can stay hidden for exactly sixty seconds with no writer pending |
| RateLimiting.RateLimiter.GetCount | apps/backend/app/security/rate_limiter.py:30-36 | reads the counter, keeps current and later windows, leaves the identifier with one window |
| RateLimiting.RateLimiter.Increment | apps/backend/app/security/rate_limiter.py:39-42 | raises one counter by one and returns it |
| RateLimiting.RateLimiter.IsRateLimited | apps/backend/app/security/rate_limiter.py:49-59 | true exactly when the calls recorded in this window have reached the limit |
| RateLimiting.RateLimiter.RecordRequest | apps/backend/app/security/rate_limiter.py:62-64 | returns the number of recorded calls in this window, this one included |
| RateLimiting.RateLimiter.EnforceRateLimit | apps/backend/app/security/rate_limiter.py:67-85 | admits exactly when fewer calls than the limit were recorded in this window |
| RateLimiting.WindowBounds | apps/backend/app/security/rate_limiter.py:25-27 | a window is the half-open minute |
| RateLimiting.RecordedInFields | apps/backend/app/security/rate_limiter.py:39-42 | the recorded calls are the enforcements and plain records of the identifier within the minute |
| RateLimiting.AdmittedInFields | apps/backend/app/security/rate_limiter.py:67-85 | the admitted calls are those that the run answers with yes |
| RateLimiting.Serve | apps/backend/app/security/rate_limiter.py:49-85 | each kind of call answers by the number of calls recorded before it in its window |
| RateLimiting.Drive | apps/backend/app/security/rate_limiter.py:25-85 | every run under a clock that does not go back answers as a limiter that never evicts |
| RateLimiting.ChecksUnobservable | apps/backend/app/security/rate_limiter.py:49-59 | inserted checks change no decision, and a check foretells the enforcement with the same limit in the same window |
| RateLimiting.WindowAdmission | apps/backend/app/security/rate_limiter.py:67-85 | a window admits at most the limit, and exactly min(limit, n) of n enforced calls |
| RateLimiting.SpanBound | apps/backend/app/security/rate_limiter.py:67-85 | any half-open span of sixty seconds admits at most twice the limit |
| RateLimiting.SpanBoundIsTight | apps/backend/app/security/rate_limiter.py:67-85 | twice the limit is reached for every limit |
| Streaming.Accounting | apps/backend/app/services/streaming_service.py:199-367 | over every interleaving: active counts the live streams, each ended stream is in exactly one outcome counter (none for HTTPException), clients saw the collected tokens, and stored answers are those of completed streams |
| StreamingRuns.EveryStreamTold | apps/backend/app/services/streaming_service.py:199-367 | over every interleaving each stream is told by its own steps: its conversation, tokens, finish reason and outcome, its user row, and its answer row exactly when it completed |
| StreamingRuns.AnswerIsWhatWasSent | apps/backend/app/services/streaming_service.py:311-324 | a completed stream has exactly one answer row; its content is the concatenation of the token events sent, which are the non-empty tokens of its chunks, and its finish reason that of the last chunk with one |
| StreamingRuns.SentInFields | apps/backend/app/services/streaming_service.py:257-344 | a client is sent the non-empty tokens of the chunks, then on completion the finish reason and the number of tokens, on failure the error code, and nothing more |
| StreamingRuns.LastReasonMeaning | apps/backend/app/services/streaming_service.py:272-273 | the finish reason is that of the last chunk with one, and "stop" without one |
| StreamingRuns.ConcatAppend | apps/backend/app/services/streaming_service.py:312 | joining is the concatenation of the parts |
| StreamingRuns.CountersInFields | apps/backend/app/utils/stream_events.py:201-225 | the counters are the numbers of live, completed, failed and cancelled streams |
| Streaming.StepCounters | apps/backend/app/utils/stream_events.py:201-225 | the counter updates of a step keep the counters equal to the numbers of streams; the floor at zero is never used |
| Streaming.StepStored | apps/backend/app/services/streaming_service.py:311-324 | an answer is stored exactly on completion, with the concatenated tokens as content |
| Streaming.StepAccurate | apps/backend/app/services/streaming_service.py:257-281 | token events equal the collected tokens, followed by at most one final event |
| Streaming.BucketsPartition | apps/backend/app/services/streaming_service.py:283-367 | every stream is live or has exactly one outcome |
| Streaming.EndedForGood | apps/backend/app/services/streaming_service.py:283-367 | an ended stream never changes again |
| Streaming.StepsInFields | apps/backend/app/services/streaming_service.py:199-367 | which steps a stream can take, by where it stands |
| Streaming.StreamingService.Account | apps/backend/app/services/streaming_service.py:283-363 | counter effects of each handler |
| Streaming.StreamingService.Persist | apps/backend/app/services/streaming_service.py:211-324 | the rows stored by a step: the user message, and the joined tokens on completion |
| Streaming.StreamingService.MoveOn | apps/backend/app/services/streaming_service.py:246-367 | tokens, finish reason, sent events and outcome after each step; an HTTP error inside the provider loop is a provider failure |
| Streaming.JoinTokens | apps/backend/app/services/streaming_service.py:311 | the content is the concatenation of the tokens |
| Streaming.StreamingService.Advance | apps/backend/app/services/streaming_service.py:199-367 | one generator step has exactly the effect of the description |
| Streaming.Drive | apps/backend/app/services/streaming_service.py:199-367 | the shared state after any schedule is the predicted one and satisfies the accounting |
| Execution.ExecutionStateMachine.TransitionTo | apps/backend/app/runtime/execution.py:208-220 | a move outside the table is refused and changes nothing, any other is appended |
| Execution.AllowedTable | apps/backend/app/runtime/execution.py:187-195 | every live state can fail or be cancelled; five further steps are allowed and no other |
| Execution.DriveMachine | apps/backend/app/runtime/execution.py:186-220 | the log of a fresh machine is a chain through the table ending in the current state |
| Execution.TerminalIsLast | apps/backend/app/runtime/execution.py:187-195 | nothing follows a terminal state |
| Execution.CompletedPath | apps/backend/app/runtime/execution.py:187-195 | COMPLETED is reached only after READY, then RUNNING, and directly from RUNNING |
| Execution.CapabilityIdsDiffer | apps/backend/app/runtime/execution.py:231-249 | generated ids are distinct, the provider id included |
| Execution.PriorityMeaning | apps/backend/app/runtime/execution.py:224-241 | the priority is the last position in the ordering, or the default |
| Execution.BuildCapabilityTasks | apps/backend/app/runtime/execution.py:227-266 | a chain with distinct ids in which each entry depends on exactly its predecessor; a provider entry always exists and is appended only when missing |
| Execution.CollectSources | apps/backend/app/runtime/execution.py:268-270 | every id maps to the sources of its edges, in edge order |
| Execution.SourcesInFields | apps/backend/app/runtime/execution.py:268-270 | the dependencies of an id are the sources of the edges into it, in edge order |
| Execution.BuildPlannedTasks | apps/backend/app/runtime/execution.py:268-291 | the planned tasks with their dependencies, sorted stably by priority |
| Execution.PlannedInFields | apps/backend/app/runtime/execution.py:273-290 | the entry of a planned task: id, first capability or the default, sources of its edges, priority |
| Execution.TopologicalExactly | apps/backend/app/runtime/execution.py:273-291 | for every plan, shared identifiers included: sorting by priority puts every dependency first exactly when each has an earlier priority, or the same one and an earlier place |
| Execution.DependencyComesLater | apps/backend/app/runtime/execution.py:273-291 | a plan whose sorted list has a task before its dependency |
| Execution.BuildExecutionTasks | apps/backend/app/runtime/execution.py:223-291 | one entry per named capability, chained, with a provider entry added exactly when missing; the sorted plan when none is named |
| Execution.SelectTask | apps/backend/app/runtime/engine.py:149-156 | the first entry with the preferred capability, otherwise the first entry |
| Execution.InitializeRun | apps/backend/app/runtime/engine.py:118-147 | a READY run with the tasks of the blueprint and a two-entry log |
| Execution.FinishRun | apps/backend/app/runtime/engine.py:58-80 | the selected entry, and no other when ids are distinct, is COMPLETED; it is a provider entry whenever there is one; the log is the seeded one |
| Execution.ExecuteChat | apps/backend/app/runtime/engine.py:56-94 | refuses exactly without metadata or blueprint, finds nothing to dispatch exactly for an empty blueprint, publishes nothing more when dispatch raises, otherwise completes the selected entry and publishes the seeded log |
| Execution.SeededLogIsChainFromSecond | apps/backend/app/runtime/engine.py:59-77 | the published log is a chain from its second entry on and not before |
| Execution.DispatchSkipsDependencies | apps/backend/app/runtime/engine.py:58-75 | the completed entry has its dependencies completed exactly when it is the first of the chain |
| AdaptivePlanning.ShouldReplan | apps/backend/app/runtime/adaptive_planning.py:54-77 | replanning is required exactly when one of the five signals is degraded; reason and clamped confidence |
| AdaptivePlanning.JoinedAppend | apps/backend/app/runtime/adaptive_planning.py:77 | reasons are joined by a comma and a blank |
| AdaptivePlanning.ReplanInFields | apps/backend/app/runtime/adaptive_planning.py:124-177 | one replanning field by field: inserted, removed and superseded ids, confidence, rationale, revision number, history, version and trace |
| AdaptivePlanning.SkipInFields | apps/backend/app/runtime/adaptive_planning.py:210-227 | a call that does not replan changes only version and trace, and nothing without metadata |
| AdaptivePlanning.KeptAndRemoved | apps/backend/app/runtime/adaptive_planning.py:124-141 | kept and removed entries partition the previous list |
| AdaptivePlanning.ReplanDistinct | apps/backend/app/runtime/adaptive_planning.py:124-140 | ids stay distinct exactly when no kept entry is already called adaptive_1 |
| AdaptivePlanning.ReplanFixedPoint | apps/backend/app/runtime/adaptive_planning.py:124-144 | after one replanning the list is a fixed point of every later one |
| AdaptivePlanning.TasksOfRun | apps/backend/app/runtime/adaptive_planning.py:103-144 | the list after any run depends only on whether it replanned |
| AdaptivePlanning.TasksInFields | apps/backend/app/runtime/adaptive_planning.py:124-144 | after any run that replanned: the entries of the first plan with confidence at least 0.75 and not called task_2 or task_3, in order, then adaptive_1 |
| AdaptivePlanning.DistinctOverRun | apps/backend/app/runtime/adaptive_planning.py:124-144 | ids stay distinct over every run |
| AdaptivePlanning.HistoryOfRun | apps/backend/app/runtime/adaptive_planning.py:151-158 | the history grows by exactly the snapshots of the replanned blueprints, in order |
| AdaptivePlanning.RevisionOfRun | apps/backend/app/runtime/adaptive_planning.py:142-146 | the revision number strictly rises with each replanning, counts them from a start at 0 or above, and is otherwise untouched |
| AdaptivePlanning.VersionFollowsLastCall | apps/backend/app/runtime/adaptive_planning.py:210-227 | the planning version is the revision number after replanning and "0" after any other call |
| ProviderFailover.GetFailoverOrder | apps/backend/app/providers/manager.py:71-94 | exactly the configured providers without repeats: preferred, then priority list, then registration |
| ProviderFailover.OrderUnique | apps/backend/app/providers/manager.py:80-92 | that description determines the order |
| ProviderFailover.OrderMeaning | apps/backend/app/providers/manager.py:71-94 | every configured provider once; the preferred one first, those of the priority list by position, the others by registration |
| ProviderFailover.ChatOver | apps/backend/app/services/provider_service.py:46-81 | tries each provider at most once in order up to the first tool-capable success; fails only if the list is empty or none succeeds, with the errors in order |
| ProviderFailover.ErrorsInFields | apps/backend/app/services/provider_service.py:49-76 | each failed provider adds its name and its error, a skipped one nothing |
| ProviderFailover.Chat | apps/backend/app/services/provider_service.py:26-81 | MANUAL tries the one provider and passes its error on; other modes fail over in the failover order, with the providers tried and the errors in order |
| Delegation.MultiAgentService.CreateSession | apps/backend/app/services/multi_agent_service.py:79-127 | enrols the coordinator and every other listed agent |
| Delegation.MultiAgentService.DelegateTask | apps/backend/app/services/multi_agent_service.py:340-370 | records the delegation one deeper, or refuses with the first failing guard and changes nothing |
| Delegation.MultiAgentService.ResolveDelegation | apps/backend/app/services/multi_agent_service.py:372-387 | changes the status of a delegation of this session only, or refuses with the failing guard |
| Delegation.DepthIsCount | apps/backend/app/repositories/multi_agent_repository.py:127-132 | the maximum depth of a session is its number of delegations |
| Delegation.MaxDepthMeaning | apps/backend/app/repositories/multi_agent_repository.py:127-132 | the depth read is the greatest one in the session |
| Delegation.RunInv | apps/backend/app/services/multi_agent_service.py:340-387 | over every run: depths of a session are 1..k in creation order with k at most 5, and every target is a participant other than the sender |
| Delegation.AcceptedExactly | apps/backend/app/multi_agent/delegation.py:40-50 | exactly when a delegation is accepted |
| Delegation.DelegateInFields | apps/backend/app/services/multi_agent_service.py:340-370 | after any run: when a delegation is accepted, and the row it then adds |
| Delegation.CreateInFields | apps/backend/app/services/multi_agent_service.py:79-127 | the session row and the participant rows of a new session |
| Delegation.ResolveInFields | apps/backend/app/services/multi_agent_service.py:372-387 | a resolved delegation of the session gets the given status, and nothing else changes |
| Delegation.TargetsInFields | apps/backend/app/services/multi_agent_service.py:340-370 | over every run: every target is a participant of its session other than the sender |
| Delegation.Independent | apps/backend/app/services/multi_agent_service.py:340-387 | over every run: a session has the rows it would have if the calls on other sessions had never been made, up to delegation ids |
| Delegation.IndependentAnswers | apps/backend/app/services/multi_agent_service.py:340-387 | and every delegate or resolve call gets the answer it would then get |
| Delegation.OthersUntouched | apps/backend/app/services/multi_agent_service.py:340-387 | one call leaves the rows of every other session alone; a new session has none |
| DelegationRace.ConcurrentInv | apps/backend/app/services/multi_agent_service.py:349-370 | over every interleaving of reads and inserts: depths of a session are between one and five without gaps, and every target is a participant other than the sender |
| DelegationRace.InsertInOrderExactly | apps/backend/app/services/multi_agent_service.py:351-370 | an insert keeps the depths at 1..k exactly when nothing was inserted on the session since the depth was read |
| DelegationRace.ReadTogether | apps/backend/app/services/multi_agent_service.py:351-370 | two calls that both read first keep the depths at 1..k exactly when they are on different sessions |
| DelegationRace.NoLimitOnRows | apps/backend/app/multi_agent/delegation.py:40-50 | for every n some interleaving leaves n delegations of depth one on a session |

## Left out

- HTTP layer, authentication, schemas, migrations, frontend, observability registries and logging: plumbing around the modelled components.
- Provider SDK calls, embeddings, vector search and retrieval: foreign code, represented by oracles where a result is needed.
- ORM sessions, transaction isolation and row identity: tables are values with explicit commit steps.
- ExecuteLoop: lists in which two records share an id; the generated lists never do. Update times and the rounded progress percentage are not modelled.
- ChunkText: `int(len / 4)` is exact integer division here.
- Coherence: a clock within the first minute of the epoch, where invalidation has no effect.
- Accounting: provider and model names, usage, latency and the total token counter.
- ShouldReplan: rounding of the confidence to two digits.
- GetFailoverOrder: credential lookup and the provider instance cache; the configured names are given.
- Delegation.RunInv: concurrent delegate calls on one session; `DelegationRace` says what is left of it then.
- KnowledgeIngest.RunInv: interleaved ingests and deletions. What two interleaved duplicate checks lead to is `CheckedTogether`.
- KnowledgeIngest.KnowledgeService.AddDocument: a write that is stored and raises all the same.
- Time windows and address ranges in policy conditions: a condition is an arbitrary predicate.
- Reflection, evaluation, learning, optimization and governance scoring: straight-line arithmetic and single branches.
