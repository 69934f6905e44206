# flydocs in Dafny

A model of the deterministic logic of flydocs, and proofs about it. Language models, OCR, the bus, the webhook
receiver and all clocks are oracles: they answer anything, at any time, and every theorem holds for every answer.
Code that updates state step by step is a class or a method with loops, tied to a specification function; code made
of expressions is functions. Each file is one module.

Four areas are covered.

**The leased grounding job.** `ExtractionRows` is one row of the `extractions` table, its conditional UPDATEs and
the reapers' queries, and `RowTheorems` what any history of calls makes of it; `ExtractionRepository` is the table
as a class with the repository's methods, the cancel handler and the reaper's sweep. `LeaseProtocol` is a labelled
transition system: the row, a clock, any number of worker calls in flight, a lossy and duplicating bus, publications
held in memory, crashes, late claimants, webhook failures, UPDATEs that commit although the call raises, and the
main leg as an arbitrary client. `LeaseTheorems` and `EventLedger` say what every execution keeps with no timing
assumption (the ledgers of retries and publications, one outcome, no orphan invisible, recovery possible) and
exactly when the lease is a lock: iff claim latency + work + commit + twice the clock skew fit inside it.
`BboxRefineWorker` is the worker's code, proved to be the protocol's own steps. `SubmitProtocol` and `SubmitHandler`
treat concurrent submits.

**The rule graph.** `RuleGraph` defines walks, cycles and levels; `RuleEngine` has the sorter, the validator's cycle
check and the level-by-level evaluation; `RuleTheorems` says which round hands out a rule and which earlier results
it is shown.

**Rows and fields.** `EntityResolution`, `Canonical`, `JoinTheorems`, `ClusterOrder`, `ResolutionTheorems` and
`FuzzyNames` treat deduplication: what it computes, and exactly when clusters are independent of row order and a
second pass changes nothing. `RowIdentity`, `Grounding`, `ReplyTheorems`, `PartsOfWhole`, `RepairOrder` and
`Consolidation` treat what becomes of rows a model returned; `FieldRepair`, `RepairTheorems` and
`AcceptanceTheorems` closed-loop repair and the count that drives escalation.

**Grounding search and check digits.** `ValueMatcher` and `ValueTheorems`, `LlmMatcher` (the code), `MatcherRuns`
(exactly which outcomes its concurrent runs can have), `HybridMatcher`, `MatcherTheorems`, `BboxRefiner`,
`RefinerTheorems`, `TokenTiling`, `CheckDigits` and `CheckDigitTheorems`.

The code is specified by functions that follow it. The modules named after theorems, and the lemmas beside the
functions, tell what those functions compute in other words: by fields, positions, counts and running sums of the
inputs.

`Wrappers`, `Collections`, `Strings` and `Fields` are shared helpers.

## Where code and comments differ

The model follows the code. These differences are results of it:

- `_enforce_invariant` calls its victim order total, so that the result never depends on list position. Rows
  that differ only in their share tie, and then the position decides (`RepairOrder.TiesDependOnOrder`: shares 1 and 2
  against a whole of 2). `RepairOrder.SameSurvivorsIff` is the exact condition: the ties must leave no choice of the
  rows whose loss first ends the loop.
- The hybrid matcher says successful first-pass matches are kept. A model reply that names a field it was not
  asked about overrides that field's match (`HybridMatcher.RudeReplyLosesHit`). `FuzzyHitSurvivesIff` is the exact
  condition, over every order in which the replies arrive: no other accepted match can win the field.
- The model matcher's second pass is said to go to pages the first did not check. A field without candidate
  pages is asked on every page twice (`LlmMatcher.AskedTwiceIff`).
- The submit handler tests the idempotency key for truth, the unique index for presence: taken by itself, the handler
  lets a second submit with the empty key raise the integrity error (`SubmitProtocol.RepeatedKeyReturnsIffTruthy`,
  reached in `EmptyKeyRaises`).
  Its only caller in the service, `extractions_controller.py`, passes an empty key on as none, so no request gets
  there. For every other key the branch for a winner that vanished is dead (`SubmitProtocol.ConflictAlwaysResolves`).
- Name variants are compared with the first row of a cluster only. Two names without a common word are both variants
  of the name that has the words of both, so the clusters can depend on the order of the rows, and deduplicating twice
  can differ from once (`FuzzyNames`). The clusters are the same in every order iff joining is transitive on the rows
  (`ClusterOrder.SameGroupsIffTransitive`), which strong keys guarantee; then deduplication is idempotent too, and in
  general it is iff no two rows it left can join (`ResolutionTheorems.DedupeTwiceIff`).
- `attempts` is not bounded by the configured maximum: every takeover of a running leg, from a crashed claimant or a
  late one, adds one (`LeaseTheorems.RetryLedger`), and for every number of takeovers some on-time execution reaches
  the bound (`LeaseTheorems.TakeoversAreUnbounded`).
- The empty-ready break of the rule engine's loop is never taken (asserted in `RuleEngine.EvaluateLevel`).
- A phrase box with `xmin >= xmax` never yields one word per token (`TokenTiling.TokenizePhrase`).

## Model

| member | source | states |
|---|---|---|
| ExtractionRows.HistoryIsWellFormed | src/flydocs/models/repositories/extraction_repository.py:254-449 | after any sequence of repository calls by any clients: a grounding leg or a result only on success, `finished_at` iff terminal, running implies started and attempted, on both legs |
| ExtractionRows.SettledIffFrozen | src/flydocs/models/repositories/extraction_repository.py:277-449 | the rows no call at any clock reading can change are exactly the terminal ones without an open grounding leg |
| ExtractionRows.HistoryAbsorbs | src/flydocs/models/repositories/extraction_repository.py:302-449 | along any history terminal states absorb, failed and cancelled rows never change again (so never gain a result), a finished leg keeps row and result |
| ExtractionRows.LegStartsAtMostOnce | src/flydocs/models/repositories/extraction_repository.py:302-329 | no history starts the grounding leg twice |
| ExtractionRows.FoundIffUnsettled | src/flydocs/models/repositories/extraction_repository.py:131-224 | once the longest threshold has passed, the four reaper queries together return exactly the rows some call can still change |
| ExtractionRows.FoundStaysClaimable | src/flydocs/models/repositories/extraction_repository.py:131-224 | what a query returned stays returned, and the claim its event leads to matches at every later reading |
| ExtractionRepository.Repository.GetByIdempotencyKey | src/flydocs/models/repositories/extraction_repository.py:90-93 | the one row with that key, or nothing iff there is none |
| ExtractionRepository.Repository.FindStaleRunning | src/flydocs/models/repositories/extraction_repository.py:131-147 | the running rows started before the cutoff, each once, all of them unless the limit cuts off; a NULL stamp is never old |
| ExtractionRepository.Repository.FindStaleQueued | src/flydocs/models/repositories/extraction_repository.py:149-165 | likewise the queued rows whose start, or submission when never started, is old |
| ExtractionRepository.Repository.FindStaleBboxRefining | src/flydocs/models/repositories/extraction_repository.py:167-183 | likewise the running grounding legs whose lease has passed |
| ExtractionRepository.Repository.FindPendingBboxRevive | src/flydocs/models/repositories/extraction_repository.py:185-224 | likewise the pending legs that are old by the threshold their history selects |
| ExtractionRepository.Repository.Add | src/flydocs/models/repositories/extraction_repository.py:228-233 | inserts a fresh queued row, or hits the partial unique index and leaves the table alone; keys stay unique |
| ExtractionRepository.Repository.AtomicUpdate | src/flydocs/models/repositories/extraction_repository.py:254-273 | one conditional UPDATE: the matching row changes as told and is returned, or nothing happens |
| ExtractionRepository.Repository.MarkRunning | src/flydocs/models/repositories/extraction_repository.py:277-300 | claims a queued row or takes over one whose lease has passed, counts the attempt; otherwise nothing |
| ExtractionRepository.Repository.MarkSucceeded | src/flydocs/models/repositories/extraction_repository.py:302-329 | a running row takes its result, loses its error and, if asked, opens the grounding leg |
| ExtractionRepository.Repository.MarkFailed | src/flydocs/models/repositories/extraction_repository.py:331-347 | a running row fails with its error |
| ExtractionRepository.Repository.MarkCancelled | src/flydocs/models/repositories/extraction_repository.py:349-357 | a queued row is cancelled, no other is |
| ExtractionRepository.Repository.RequeueForRetry | src/flydocs/models/repositories/extraction_repository.py:359-364 | a running row goes back to the queue |
| ExtractionRepository.Repository.ClaimBboxRefinement | src/flydocs/models/repositories/extraction_repository.py:368-394 | claims a pending leg or takes over one whose lease has passed, counts the attempt |
| ExtractionRepository.Repository.RequeueBboxRefinement | src/flydocs/models/repositories/extraction_repository.py:396-405 | a running leg goes back to pending |
| ExtractionRepository.Repository.CompleteBboxRefinement | src/flydocs/models/repositories/extraction_repository.py:407-427 | a running leg succeeds and the result is replaced |
| ExtractionRepository.Repository.FailBboxRefinement | src/flydocs/models/repositories/extraction_repository.py:429-449 | a running leg fails with its error, the result stays |
| RowTheorems.RunLeaseIsRespected | src/flydocs/models/repositories/extraction_repository.py:277-364 | in every history of calls on a row, two claims of the main leg with no requeue between them are more than the later one's lease apart |
| RowTheorems.ClaimLeaseIsRespected | src/flydocs/models/repositories/extraction_repository.py:368-405 | the same for claims of the grounding leg |
| RowTheorems.AttemptsCountRuns | src/flydocs/models/repositories/extraction_repository.py:277-300 | `attempts` is the number of claims that took effect, `started_at` the clock reading of the last |
| RowTheorems.AttemptsCountClaims | src/flydocs/models/repositories/extraction_repository.py:368-394 | the same for the grounding leg's counter and stamp |
| ExtractionRepository.CancelExtraction | src/flydocs/core/services/extractions/cancel_extraction_handler.py:54-69 | with other clients acting between its two statements: cancels iff the row was queued, reports a missing row as missing and any other with the status it has when read; a cancelled row is settled and has no result |
| ExtractionRepository.BboxSweep | src/flydocs/core/services/workers/bbox_reaper.py:94-105 | publishes each id once and only ids still claimable whenever the event arrives; unless a publication raises, every open leg old by both clock readings, when no more rows than the limit share its state |
| ExtractionRepository.Republish | src/flydocs/core/services/workers/bbox_reaper.py:107-128 | appends one event per found id that still has a row, up to the first publication that raises |
| LeaseProtocol.StepKeepsInv | src/flydocs/core/services/workers/bbox_refine_worker.py:161-271 | every step of every party keeps the ledger, the outcome accounting and what claimants carry |
| LeaseProtocol.BehaviourKeepsInv | src/flydocs/core/services/workers/bbox_refine_worker.py:161-271 | the invariant holds in every state of every execution |
| LeaseTheorems.RetryLedger | src/flydocs/core/services/workers/bbox_refine_worker.py:170-271 | claims = 1 + requeues + takeovers − (1 while pending); the k-th claim is attempt k; requeues ≤ max − 1, claims ≤ max(1, max) + takeovers |
| LeaseTheorems.TakeoversAreUnbounded | src/flydocs/core/services/workers/bbox_refine_worker.py:170-271 | for every configuration and number of takeovers an execution with everyone on time reaches max(1, max) + takeovers claims |
| EventLedger.PublicationsAreAccountedFor | src/flydocs/core/services/workers/bbox_refine_worker.py:161-271 | in every execution, held + published + dropped publications = the one of the request + requeues, and events on the bus + lost + delivered = published + duplicated + swept |
| EventLedger.LostAnswerStands | src/flydocs/core/services/workers/bbox_refine_worker.py:192-271 | when the complete UPDATE commits but the call raises, the `except` branch leaves the grounded row alone and the webhook is never entered |
| LeaseTheorems.FinishedLegIsFrozen | src/flydocs/models/repositories/extraction_repository.py:407-449 | after the outcome nothing, stale claimants and webhook errors included, writes the row again |
| LeaseTheorems.ExactlyOnceOutcome | src/flydocs/core/services/workers/bbox_refine_worker.py:192-271 | at most one complete-or-fail takes effect, the webhook is entered at most once and only for a grounded result, and the result is the main one or grounded from exactly it |
| LeaseTheorems.NoOrphanIsInvisible | src/flydocs/core/services/workers/bbox_reaper.py:94-105 | from every reachable state the reaper queries return the row iff some leg is unfinished, and its claim then matches |
| LeaseTheorems.OpenLegIsRecoverable | src/flydocs/core/services/workers/bbox_reaper.py:94-128 | from every reachable state with an open leg, one sweep and one worker can finish it, all events and claimants lost |
| LeaseTheorems.EverythingMayBeLost | src/flydocs/core/services/workers/bbox_reaper.py:17-32 | from every state an execution loses every held publication, every event and every claimant, row, clock and log as they were |
| LeaseTheorems.ClaimFindsNobody | src/flydocs/models/repositories/extraction_repository.py:368-394 | when the window fits the lease, a successful claim finds no live claimant |
| LeaseTheorems.ShortLeaseIsBroken | src/flydocs/models/repositories/extraction_repository.py:368-394 | when it does not, an execution in which everyone is on time has two claimants |
| LeaseTheorems.LeaseIsALockIffWindowFits | src/flydocs/config.py:151-161 | at most one live claimant, no takeover while one lives, every effective outcome by the holder, in all on-time executions: iff latency + work + commit + 2·skew ≤ lease |
| LeaseTheorems.ShippedLeaseLeavesSixtySeconds | src/flydocs/config.py:79-161 | with the shipped 600 s and 660 s that is iff latency + commit + 2·skew ≤ 60 s |
| BboxRefineWorker.Process | src/flydocs/core/services/workers/bbox_refine_worker.py:161-271 | the row one call leaves, whether the webhook was entered, whether a publication was scheduled; no webhook failure moves the leg |
| BboxRefineWorker.RefineClaimed | src/flydocs/core/services/workers/bbox_refine_worker.py:184-271 | work, outcome and the failure branch after a claim, for every work and webhook behaviour |
| BboxRefineWorker.HandleFailure | src/flydocs/core/services/workers/bbox_refine_worker.py:223-271 | fails for good or puts the leg back, by permanence and budget; does nothing to a leg no longer running |
| BboxRefineWorker.ProcessIsTheProtocol | src/flydocs/core/services/workers/bbox_refine_worker.py:161-271 | the protocol's labelled steps of a call end with the row, webhook entries and publications the code produces |
| BboxRefineWorker.RowAfterTold | src/flydocs/core/services/workers/bbox_refine_worker.py:161-271 | that row column by column: claim stamped and counted, result grounded, failed or put back by permanence and budget, every other column kept |
| SubmitProtocol.StepKeepsInv | src/flydocs/core/services/extractions/submit_extraction_handler.py:188-223 | every interleaved step keeps unique keys, one event per row and what callers have seen |
| SubmitProtocol.TableOnlyGrows | src/flydocs/core/services/extractions/submit_extraction_handler.py:188-223 | rows and published events are never taken back |
| SubmitProtocol.SubmitIsIdempotent | src/flydocs/core/services/extractions/submit_extraction_handler.py:93-223 | in every interleaving one row and one submitted event per key, and all submits that return give the same id |
| SubmitProtocol.ConflictAlwaysResolves | src/flydocs/core/services/extractions/submit_extraction_handler.py:188-223 | a conflicted caller returns the winner iff its key is not the empty string |
| SubmitProtocol.RepeatedKeyReturnsIffTruthy | src/flydocs/core/services/extractions/submit_extraction_handler.py:93-97 | a repeated key yields the existing id iff it is non-empty; the empty key raises |
| SubmitProtocol.EmptyKeyRaises | src/flydocs/core/services/extractions/submit_extraction_handler.py:93-209 | an execution reaches a row of the empty key and a second submit with it that raises |
| SubmitProtocol.SubmitsAreShort | src/flydocs/core/services/extractions/submit_extraction_handler.py:93-223 | in every execution a submit takes at most four steps of its own: arrival, select, insert, and re-select or publication |
| SubmitProtocol.NeverStuck | src/flydocs/core/services/extractions/submit_extraction_handler.py:93-223 | and one that is not answered yet can always take another, whatever the table holds |
| SubmitHandler.Persist | src/flydocs/core/services/extractions/submit_extraction_handler.py:188-209 | the insert with its `except` branch, other clients acting before the re-select: a new row, the winner of a lost race, or for the empty key the integrity error |
| SubmitHandler.Submit | src/flydocs/core/services/extractions/submit_extraction_handler.py:93-223 | with other clients acting between any two statements: the answer is the row of the key, a new row is inserted iff reported, only the empty key raises |
| RuleGraph.ResolvedIffShortChains | src/flydocs/core/services/rules/rule_engine.py:119-172 | after k rounds exactly the rules with no parent chain longer than k are resolved |
| RuleGraph.AcyclicIffResolved | src/flydocs/core/services/rules/rule_engine.py:93-97 | no cycle iff everything resolves within as many rounds as there are rules |
| RuleGraph.StuckMeansDoneOrCyclic | src/flydocs/core/services/rules/rule_engine.py:119-130 | a round that resolves nothing means everything is resolved, or there is a cycle |
| RuleGraph.LongWalkMeansCycle | src/flydocs/core/services/validation/request_validator.py:318-337 | a walk longer than the number of rules proves a cycle |
| RuleEngine.TopologicalSorter.Add | src/flydocs/core/services/rules/rule_engine.py:174-185 | predecessors pool per node and become nodes |
| RuleEngine.TopologicalSorter.Prepare | src/flydocs/core/services/rules/rule_engine.py:93-97 | succeeds iff the graph has no cycle |
| RuleEngine.TopologicalSorter.GetReady | src/flydocs/core/services/rules/rule_engine.py:119-130 | hands out, once each, the nodes whose predecessors are all done |
| RuleEngine.BuildDag | src/flydocs/core/services/rules/rule_engine.py:174-185 | one node per rule id, one edge per parent rule that exists |
| RuleEngine.CheckRuleDag | src/flydocs/core/services/validation/request_validator.py:318-337 | reports a cycle iff the engine's graph has one |
| RuleEngine.Evaluate | src/flydocs/core/services/rules/rule_engine.py:77-172 | finds a cycle iff there is one; else terminates, hands the rules to the model each in the round 1 + its longest parent chain, shows it what they name, and returns all replies in order for all rules, or ends on the first level whose call raises |
| RuleEngine.EvaluateLevel | src/flydocs/core/services/rules/rule_engine.py:119-172 | one round hands out exactly what became ready, never nothing, and marks it done iff the model answered |
| RuleEngine.HandedOnce | src/flydocs/core/services/rules/rule_engine.py:119-172 | no rule id is handed to the model twice |
| RuleEngine.ParentIsEarlier | src/flydocs/core/services/rules/rule_engine.py:119-172 | a known parent is evaluated in an earlier round |
| RuleEngine.ParentsAreInContext | src/flydocs/core/services/rules/rule_engine.py:132-172 | with unique ids, a parent's result is shown with each of its children |
| RuleTheorems.WaitsFor | src/flydocs/core/services/rules/rule_engine.py:174-185 | an edge is a declared rule named as a parent by some declaration of a declared id |
| RuleTheorems.HandedAfterLastParent | src/flydocs/core/services/rules/rule_engine.py:119-130 | a rule is handed out in the round right after the last of its known parents, in the first iff it has none |
| RuleTheorems.RepliesInOrder | src/flydocs/core/services/rules/rule_engine.py:160-172 | the results are all replies, each once, call after call |
| RuleTheorems.ShownIffNamed | src/flydocs/core/services/rules/rule_engine.py:141-149 | a call is shown exactly the earlier results of rules that one of its rules (by its last declaration) names as a parent, in the order and as often as they were replied |
| RuleTheorems.RaisingCallIsShown | src/flydocs/core/services/rules/rule_engine.py:141-158 | so was the call that raised |
| RuleTheorems.NothingElseIsShown | src/flydocs/core/services/rules/rule_engine.py:243-248 | whatever a call is shown was replied earlier and is named as a parent by a rule it was handed |
| EntityResolution.DedupeRows | src/flydocs/core/services/transformations/entity_resolution.py:174-222 | the dictionary-and-scan loop puts every row in the first cluster it fits and collapses each |
| EntityResolution.PlaceRow | src/flydocs/core/services/transformations/entity_resolution.py:189-220 | one row lands in the first cluster it fits: by dictionary when keyed, by scan otherwise |
| EntityResolution.FindVariant | src/flydocs/core/services/transformations/entity_resolution.py:200-217 | the scan finds the first keyless cluster whose opener is a name variant |
| EntityResolution.ClustersFollowKeys | src/flydocs/core/services/transformations/entity_resolution.py:174-222 | clusters partition the rows; keyed rows share one iff their normalised keys agree; keyless rows never join keyed ones |
| JoinTheorems.JoinsIff | src/flydocs/core/services/transformations/entity_resolution.py:152-231 | two rows can join iff the first scalars under the first `match_by` name agree after normalising, or both rows have none and under the next different name one set of words holds the other, both large enough |
| JoinTheorems.EveryRowIsPlaced | src/flydocs/core/services/transformations/entity_resolution.py:174-222 | every row is in the first opened cluster whose opener it can join, or opens one because there is none |
| JoinTheorems.TwoRowsCollapse | src/flydocs/core/services/transformations/entity_resolution.py:174-222 | two rows become one iff the second can join the first |
| ClusterOrder.SharesIffJoins | src/flydocs/core/services/transformations/entity_resolution.py:174-222 | when joining is transitive on the rows, keyed and keyless, two rows share a cluster iff they can join |
| ClusterOrder.SameGroupsIffTransitive | src/flydocs/core/services/transformations/entity_resolution.py:174-222 | the same rows share clusters in every permutation of the input iff joining is transitive on them |
| Canonical.CanonicaliseRows | src/flydocs/core/services/transformations/entity_resolution.py:234-276 | gathers candidates by name and keeps the best of each, pages unioned and sorted |
| Canonical.PickedIsBest | src/flydocs/core/services/transformations/entity_resolution.py:279-297 | the picked candidate is maximal in completeness, then printed value |
| Canonical.PresentBeatsAbsent | src/flydocs/core/services/transformations/entity_resolution.py:279-297 | a null is never picked while some candidate is none |
| Canonical.LongestTextWins | src/flydocs/core/services/transformations/entity_resolution.py:279-297 | no text among the candidates is longer when stripped than a picked text, and of equally long ones none sorts after it |
| Canonical.LongestListWins | src/flydocs/core/services/transformations/entity_resolution.py:279-297 | no list has more sub-fields than a picked list, and of equally long ones none is shown after it |
| Canonical.ScalarsWeighOne | src/flydocs/core/services/transformations/entity_resolution.py:279-297 | numbers and truth values count as one character against texts and as one sub-field against lists, and go by how they print |
| Canonical.LongerOfBothWins | src/flydocs/core/services/transformations/entity_resolution.py:279-297 | a text and a list are compared by length |
| Canonical.FirstOfEqualsWins | src/flydocs/core/services/transformations/entity_resolution.py:279-297 | of candidates with the picked value the first is picked |
| Canonical.NamesInOrderSeen | src/flydocs/core/services/transformations/entity_resolution.py:250-262 | sub-field names come in the order first seen |
| ResolutionTheorems.OutputKeys | src/flydocs/core/services/transformations/entity_resolution.py:174-276 | every output row is keyed, or keyless, like its cluster, with the same normalised key, and no two keyed ones share one |
| ResolutionTheorems.CanonicalRow | src/flydocs/core/services/transformations/entity_resolution.py:264-276 | a collapsed row has the first row's name and box, all pages in rising order, the greatest confidence and each name once |
| ResolutionTheorems.NothingPresentIsLost | src/flydocs/core/services/transformations/entity_resolution.py:234-276 | each of its sub-fields is one of the cluster's, and null only if null in every row of the cluster that has it |
| ResolutionTheorems.DedupeLosesNothing | src/flydocs/core/services/transformations/entity_resolution.py:174-276 | every value of every input row that is not null leaves one in the output row of its cluster under the same name |
| ResolutionTheorems.CanonicaliseTwice | src/flydocs/core/services/transformations/entity_resolution.py:234-276 | canonicalising a canonical row changes nothing |
| ResolutionTheorems.DedupeTwiceIff | src/flydocs/core/services/transformations/entity_resolution.py:174-305 | for any rows a second pass changes nothing iff no two rows the first left can join: a condition on its output, for which transitive joining of the input is sufficient (`DedupeIsIdempotent`) |
| ResolutionTheorems.DedupeIsIdempotent | src/flydocs/core/services/transformations/entity_resolution.py:174-305 | when joining is transitive on the rows, deduplicating twice is doing it once |
| ResolutionTheorems.KeyedRowsAreIdempotent | src/flydocs/core/services/transformations/entity_resolution.py:174-305 | so it is when every row carries a strong key |
| ResolutionTheorems.EveryDescriptionAppears | src/flydocs/core/services/transformations/entity_resolution.py:279-305 | an output view (key, kept text per name, pages) is exactly what the set of input rows describes: for keyed views always, for keyless ones when joining is transitive |
| ResolutionTheorems.DedupeIgnoresOrder | src/flydocs/core/services/transformations/entity_resolution.py:279-305 | permuting or repeating the rows of any input changes no key, kept text or page list of a keyed output row, nor of any when joining is transitive |
| FuzzyNames.OrderOfNamesMatters | src/flydocs/core/services/transformations/entity_resolution.py:146-217 | two names with enough words each, neither set inside the other, and one with the words of both: two clusters in one order, one in another |
| FuzzyNames.NamesAreNotIdempotent | src/flydocs/core/services/transformations/entity_resolution.py:146-276 | when the third name is also longer than the first, they deduplicate to two rows, and those to one |
| Grounding.DocumentFrequency | src/flydocs/core/services/transformations/llm_transformer.py:294-297 | counts in how many input rows each token occurs |
| Grounding.IsGrounded | src/flydocs/core/services/transformations/llm_transformer.py:278-299 | true iff no input, no identity, or some token is in at least one and at most max(1, half) of the rows |
| Grounding.IdentityContributors | src/flydocs/core/services/transformations/llm_transformer.py:317-340 | the input rows sharing such a token, in order |
| Grounding.GroundedIffContributors | src/flydocs/core/services/transformations/llm_transformer.py:278-340 | the two separately written searches decide the same relation |
| Grounding.ProvenanceSubs | src/flydocs/core/services/transformations/llm_transformer.py:343-365 | per name the first of the firmest cells: with a box before without, then by confidence |
| Grounding.RebuildRows | src/flydocs/core/services/transformations/llm_transformer.py:368-452 | every output row has the contributors, provenance and flag the rules prescribe |
| Grounding.RebuildRow | src/flydocs/core/services/transformations/llm_transformer.py:406-451 | one row: citations, else position, else identity, else the first row |
| RowIdentity.RowTokensAre | src/flydocs/core/services/transformations/llm_transformer.py:265-275 | the identity tokens of a row are those of its string cells that are not blank |
| ReplyTheorems.DistinctiveIff | src/flydocs/core/services/transformations/llm_transformer.py:294-299 | a token tells rows apart iff exactly one input row has it, or several but at most half of them |
| ReplyTheorems.BehindIs | src/flydocs/core/services/transformations/llm_transformer.py:403-420 | the rows behind a reply row: those it cites by `r1`, `r2`, …, in order; else its namesake by position when nothing is cited and the counts agree; else exactly those sharing a distinctive token, in order |
| ReplyTheorems.MadeRowIs | src/flydocs/core/services/transformations/llm_transformer.py:422-451 | a made row: its number, the data cells of the reply with name and value in order, pages, mean confidence and box from the rows behind or from the first row, notes only when flagged |
| ReplyTheorems.FirmestTold | src/flydocs/core/services/transformations/llm_transformer.py:356-365 | the cell whose provenance is taken: with a box if any has one, then most confident, then first |
| Consolidation.FlaggedIffUnmatched | src/flydocs/core/services/transformations/llm_transformer.py:403-451 | a row is flagged as invented iff flagging is on, it has string identity and no input row shares a distinctive token, whatever it cites |
| Consolidation.InventedGoBeforeGenuine | src/flydocs/core/services/transformations/llm_transformer.py:498-511 | no matched or identity-less row is dropped while an invented one is kept |
| Consolidation.LastResort | src/flydocs/core/services/transformations/llm_transformer.py:403-428 | only a row that matches no input wears the first row's provenance |
| Consolidation.ProvenanceIsHonest | src/flydocs/core/services/transformations/llm_transformer.py:343-446 | a consolidated row has the pages of its contributors, each cell the whole provenance of its own firmest source cell |
| Consolidation.Consolidate | src/flydocs/core/services/transformations/llm_transformer.py:144-147 | rebuild, then enforce the declared whole |
| PartsOfWhole.EnforceInvariant | src/flydocs/core/services/transformations/llm_transformer.py:466-527 | the dropping loop ends with the repaired rows; warnings and fitting sums change nothing; kept + dropped = all |
| PartsOfWhole.RepairDropsLeast | src/flydocs/core/services/transformations/llm_transformer.py:498-515 | what remains is the input, in order, minus exactly the shortest run of the victim order after which the sum fits or one row is left |
| PartsOfWhole.InventedRowsGoFirst | src/flydocs/core/services/transformations/llm_transformer.py:503-511 | no sourced row is dropped while an invented one is kept |
| PartsOfWhole.LeastTrustedGoFirst | src/flydocs/core/services/transformations/llm_transformer.py:503-511 | among rows alike in their flag less confident ones are dropped first, then those with fewer identity tokens, then by the sorted tokens, then by position |
| PartsOfWhole.FitsIff | src/flydocs/core/services/transformations/llm_transformer.py:455-486 | rows fit iff the rounded sum of the numbers under the first sub-field of that name, none counting nought, is at most whole plus tolerance |
| PartsOfWhole.RepairedIff | src/flydocs/core/services/transformations/llm_transformer.py:483-515 | rows are dropped iff the sum exceeds that, the mode is repair and there is more than one row |
| RepairOrder.SameSurvivorsIff | src/flydocs/core/services/transformations/llm_transformer.py:483-515 | the survivors are the same in every order of the rows iff the ties leave one choice only of the first n rows to drop, n being the least loss after which, in some order, the loop ends |
| RepairOrder.LeastGoneExists | src/flydocs/core/services/transformations/llm_transformer.py:498-515 | there is such a number for all rows |
| RepairOrder.RepairIgnoresOrder | src/flydocs/core/services/transformations/llm_transformer.py:483-515 | so when no two different rows tie, the survivors do not depend on the order of the input |
| RepairOrder.TiesDependOnOrder | src/flydocs/core/services/transformations/llm_transformer.py:503-515 | rows that differ only in their share, 1 and 2, tie for every tokenizer, and against a whole of 2 the order decides which survives |
| CheckDigits.RemainderOfNumber | src/flydocs/core/services/validation/validator_registry.py:192-196 | the remainder of the spelt-out number is what reading it symbol by symbol gives |
| CheckDigits.IbanCatchesOneChange | src/flydocs/core/services/validation/validator_registry.py:185-197 | no valid IBAN stays valid when one symbol is replaced by another of its kind (ISO/IEC 7064 MOD 97-10) |
| CheckDigits.IbanCatchesSwaps | src/flydocs/core/services/validation/validator_registry.py:185-197 | exchanging any two neighbours goes unseen iff they are equal, or one of B1, M2, X3 within the account part; a country letter and a check digit never change places unseen |
| CheckDigits.CheckCreditCard | src/flydocs/core/services/validation/validator_registry.py:209-225 | the left-to-right parity loop computes the sum weighted from the right; length 13 to 19 |
| CheckDigits.LuhnCatchesOneChange | src/flydocs/core/services/validation/validator_registry.py:213-225 | no valid number of any length stays valid when one digit changes (ISO/IEC 7812-1 Annex B) |
| CheckDigits.LuhnCatchesSwaps | src/flydocs/core/services/validation/validator_registry.py:213-225 | exchanging neighbours goes unseen iff they are equal or 0 and 9 |
| CheckDigits.NifCatchesOneChange | src/flydocs/core/services/validation/validator_registry.py:385-394 | a changed digit or letter always breaks a NIF |
| CheckDigits.NifCatchesSwaps | src/flydocs/core/services/validation/validator_registry.py:385-394 | so does exchanging two different neighbouring digits |
| CheckDigits.NieIsNif | src/flydocs/core/services/validation/validator_registry.py:397-408 | a NIE is valid iff it is a NIF with its initial read as a digit |
| CheckDigits.NieCatchesOneChange | src/flydocs/core/services/validation/validator_registry.py:397-408 | a changed initial, digit or letter always breaks a NIE |
| CheckDigits.CifIsFromRight | src/flydocs/core/services/validation/validator_registry.py:418-421 | the CIF total is the Luhn weighting, doubled from the rightmost digit |
| CheckDigits.CifCatchesOneChange | src/flydocs/core/services/validation/validator_registry.py:411-437 | a changed body digit always breaks a CIF, whichever control form is allowed |
| CheckDigits.CifCatchesSwaps | src/flydocs/core/services/validation/validator_registry.py:411-437 | exchanging neighbouring body digits goes unseen iff they are equal or 0 and 9 |
| CheckDigitTheorems.IbanIs | src/flydocs/core/services/validation/validator_registry.py:182-197 | valid iff two letters, two digits, ten to thirty more symbols, and the number read from these, account part first, letters as 10 to 35, leaves one modulo 97 |
| CheckDigitTheorems.CardIs | src/flydocs/core/services/validation/validator_registry.py:209-225 | the digits taken out in order, every second one from the last but one doubled and its digits added, must sum to a multiple of ten |
| CheckDigitTheorems.NifIs | src/flydocs/core/services/validation/validator_registry.py:382-394 | valid iff eight digits and the letter assigned to their number modulo 23 |
| CheckDigitTheorems.NieIs | src/flydocs/core/services/validation/validator_registry.py:397-408 | valid iff X, Y or Z, seven digits and that letter, the initial read as 0, 1 or 2 |
| CheckDigitTheorems.CifIs | src/flydocs/core/services/validation/validator_registry.py:411-437 | valid iff an admitted initial, seven digits and the control that completes their Luhn sum to a multiple of ten: as a letter, or for initials other than P, Q, R, S, N, W also as a digit |
| ValueMatcher.Slide | src/flydocs/core/services/bbox/value_matcher.py:236-257 | the nested window loops, cut off at the end of the page, compute the fold over all windows |
| ValueMatcher.ScanIsOptimal | src/flydocs/core/services/bbox/value_matcher.py:236-257 | that fold is the lexicographic optimum (score, then reading order) at its first position, or none beats the start value |
| ValueMatcher.OptimalIsUnique | src/flydocs/core/services/bbox/value_matcher.py:236-257 | there is only one such answer |
| ValueMatcher.UnionBoxIsTightest | src/flydocs/core/services/bbox/value_matcher.py:303-315 | the box holds all words and lies in every rectangle that does |
| ValueMatcher.MatchSpaced | src/flydocs/core/services/bbox/value_matcher.py:222-258 | the best word window of a page, if it meets the threshold |
| ValueMatcher.MatchUnspaced | src/flydocs/core/services/bbox/value_matcher.py:260-300 | the best character window, boxed around the words behind it |
| ValueMatcher.PageAnswers | src/flydocs/core/services/bbox/value_matcher.py:222-315 | with a positive threshold a page answers iff some window reaches it, then with the score of the optimal window (score, then reading order, at its first position), in the tightest box around exactly that window's words, or on an unspaced page the words behind its characters |
| ValueMatcher.Locate | src/flydocs/core/services/bbox/value_matcher.py:135-174 | over pages in scope and forms: the first answer of 0.999 or more, else the first of the best; nothing for an empty value |
| ValueMatcher.LocatedIsUnique | src/flydocs/core/services/bbox/value_matcher.py:159-174 | the answers determine the result |
| ValueMatcher.LocatedIsBest | src/flydocs/core/services/bbox/value_matcher.py:148-174 | no answer in scope is better than a result below 0.999, and candidate pages with words are binding |
| ValueTheorems.SpacedRank | src/flydocs/core/services/bbox/value_matcher.py:236-256 | a window of words is ranked by the ratio with what it reads: the non-empty normalised texts in order, each starting where lengths and single blanks before it add up; and by the least reading order of its words |
| ValueTheorems.SpacedWindows | src/flydocs/core/services/bbox/value_matcher.py:231-247 | ranked windows are those of one word up to three times the value's words, at most twelve, with some text |
| ValueTheorems.GlyphsAreWritten | src/flydocs/core/services/bbox/value_matcher.py:268-274 | the characters of a page are those of its words that are not blank, in order |
| ValueTheorems.UnspacedRank | src/flydocs/core/services/bbox/value_matcher.py:280-292 | a window of characters is ranked by the ratio with those characters and the least reading order of the words behind them |
| ValueTheorems.UnspacedWindows | src/flydocs/core/services/bbox/value_matcher.py:277-284 | ranked windows have from two fewer characters than the value (but one) to four more (but six), at most eighty |
| ValueTheorems.WinnerIs | src/flydocs/core/services/bbox/value_matcher.py:236-256 | the winner scores best, then has the least reading order, then starts first, then is shortest |
| ValueTheorems.AnswerScore | src/flydocs/core/services/bbox/value_matcher.py:256-258 | the answer's score is that of the winner, cut off at one and rounded |
| ValueTheorems.FormsAre | src/flydocs/core/services/bbox/value_matcher.py:178-199 | the forms tried: as it is, its digits if four or more, without punctuation, each only if new |
| ValueTheorems.ScopeIs | src/flydocs/core/services/bbox/value_matcher.py:152-159 | the candidate pages in order if one of them has words, else all pages |
| ValueTheorems.ExactTextIsFound | src/flydocs/core/services/bbox/value_matcher.py:135-174 | a value that stands on a searched page, within the size cap, is found; with score one on that page unless an earlier page already answered with 0.999 or more |
| LlmMatcher.Table.MergePage | src/flydocs/core/services/bbox/llm_matcher.py:201-256 | merging a page's reply is merging its accepted matches one after the other, each replacing only a worse entry |
| LlmMatcher.RunPages | src/flydocs/core/services/bbox/llm_matcher.py:187-212 | calls are made on the state before the pass, and the outcome is the replies merged in some order of arrival, each page once |
| LlmMatcher.GroupByPage | src/flydocs/core/services/bbox/llm_matcher.py:166-185 | which fields the first pass puts on which page, with multiplicity |
| LlmMatcher.GroupRest | src/flydocs/core/services/bbox/llm_matcher.py:132-142 | which unmatched fields the second pass puts on which page |
| LlmMatcher.LocateAll | src/flydocs/core/services/bbox/llm_matcher.py:100-143 | the outcome of both passes on every early exit and every arrival order |
| MatcherRuns.OutcomesAreWinners | src/flydocs/core/services/bbox/llm_matcher.py:125-256 | the entries a field can end with, over all orders of arrival in both passes, are exactly the first best matches of the pages that lead the first pass unbeaten by the second, or lead the second above all of the first |
| MatcherRuns.FinalIsMaximum | src/flydocs/core/services/bbox/llm_matcher.py:125-143 | a field ends with the best match accepted for it in either pass |
| MatcherRuns.RunsAgree | src/flydocs/core/services/bbox/llm_matcher.py:187-256 | any two arrival orders give the same fields and scores, and the same box where one match alone has the best score |
| LlmMatcher.AskedTwiceIff | src/flydocs/core/services/bbox/llm_matcher.py:100-212 | in the calls of the two passes, every page with words is asked about a field the first pass left unmatched, and asked in both iff the field names no candidates |
| MatcherTheorems.RepliesTold | src/flydocs/core/services/bbox/llm_matcher.py:243-256 | the accepted matches of a reply are those with enough confidence and a word on the page, in order, each with the tightest box around its words |
| MatcherTheorems.FirstHitsTold | src/flydocs/core/services/bbox/llm_matcher.py:125-127 | the matches of the first pass are those of calls on the last page of each number with words, about each field once per mention, or once when it names no page |
| MatcherTheorems.SecondHitsTold | src/flydocs/core/services/bbox/llm_matcher.py:129-142 | those of the second of calls about each field still missing that did not name the page |
| MatcherTheorems.FinalTold | src/flydocs/core/services/bbox/llm_matcher.py:100-143 | a field is missing iff no call of either pass answered for it, and ends with an answer none of them scores above |
| MatcherTheorems.ResidualTold | src/flydocs/core/services/bbox/hybrid_matcher.py:80-82 | the model is asked about the fields the first matcher missed, in order |
| HybridMatcher.LocateAllHybrid | src/flydocs/core/services/bbox/hybrid_matcher.py:63-98 | the merged results: the model's over the first matcher's, the model asked for the misses only |
| HybridMatcher.FuzzyHitSurvivesIff | src/flydocs/core/services/bbox/hybrid_matcher.py:92-98 | a first-pass match is kept in every order of arrival iff no accepted match that differs from it can win its field |
| HybridMatcher.LoneTopIsKept | src/flydocs/core/services/bbox/hybrid_matcher.py:92-98 | so it is kept when no accepted reply names its field, or when it is alone at the top of those that do |
| HybridMatcher.PoliteRepliesFillMisses | src/flydocs/core/services/bbox/hybrid_matcher.py:78-98 | when replies name only asked fields, every first-pass match is kept and only misses are filled |
| HybridMatcher.RudeReplyLosesHit | src/flydocs/core/services/bbox/hybrid_matcher.py:92-98 | one match naming a field not asked about replaces that field's first-pass match |
| BboxRefiner.CollectLeaves | src/flydocs/core/services/bbox/bbox_refiner.py:164-171 | appends exactly the leaves below a field, in order |
| BboxRefiner.Refine | src/flydocs/core/services/bbox/bbox_refiner.py:69-160 | the new state of every leaf and all four counters; a match that is no valid box raises, with the leaves before it settled and the others untouched |
| BboxRefiner.GroundLeaf | src/flydocs/core/services/bbox/bbox_refiner.py:120-137 | one leaf after the matcher's answer, untouched when the answer is rejected |
| BboxRefiner.ReplaceBbox | src/flydocs/core/services/bbox/bbox_refiner.py:173-192 | raises iff the corners or the score are out of range; else new corners, source and confidence, old quality kept, page prepended if new |
| BboxRefiner.LeafIsSettled | src/flydocs/core/services/bbox/bbox_refiner.py:101-137 | a second look at a leaf changes nothing; values and grounded leaves are never touched |
| BboxRefiner.RefineIsIdempotent | src/flydocs/core/services/bbox/bbox_refiner.py:95-160 | with a matcher deterministic per field, a second pass changes no leaf and reports the same counters, or raises again where the first did |
| BboxRefiner.RefineTwice | src/flydocs/core/services/bbox/bbox_refiner.py:69-160 | the same, run in place |
| BboxRefiner.CountersAddUp | src/flydocs/core/services/bbox/bbox_refiner.py:95-137 | text layer + OCR + kept = leaves − ungrounded leaves without a search string |
| RefinerTheorems.LeftAlone | src/flydocs/core/services/bbox/bbox_refiner.py:93-120 | a leaf with a measured box, or with nothing to search for, is left alone |
| RefinerTheorems.LookedUp | src/flydocs/core/services/bbox/bbox_refiner.py:120-192 | any other leaf: what it is looked up by and where, and each attribute of its box and page list after a miss and after a match |
| RefinerTheorems.CountersTold | src/flydocs/core/services/bbox/bbox_refiner.py:93-137 | the counters are the numbers of leaves, of those left with a text-layer box, with a recognised one, and searched for in vain |
| RefinerTheorems.LeavesInOrder | src/flydocs/core/services/bbox/bbox_refiner.py:164-171 | leaves come in document order |
| TokenTiling.TokenizePhrase | src/flydocs/core/services/bbox/docling_engine.py:368-400 | one word per token, from edge to edge, iff xmin < xmax |
| TokenTiling.WordsTile | src/flydocs/core/services/bbox/docling_engine.py:368-400 | no gap, no overlap, the ends are the phrase's, width goes by length |
| TokenTiling.WindowIsSlice | src/flydocs/core/services/bbox/docling_engine.py:356-400 | the union box of any run of words is exactly the slice between two prefix sums |
| TokenTiling.AllWordsGiveThePhrase | src/flydocs/core/services/bbox/docling_engine.py:356-360 | all words together reconstruct the phrase box |
| FieldRepair.CollectFailingFields | src/flydocs/core/services/repair/field_repairer.py:72-107 | every failing field with its key and all pages it or its rows were reported on, in order |
| FieldRepair.RepairSlice | src/flydocs/core/services/repair/field_repairer.py:304-329 | the whole segment, or a proper slice inside it around every failing page with a page of margin |
| FieldRepair.ShiftMovesPages | src/flydocs/core/services/repair/field_repairer.py:332-339 | shifting moves every page of a field and its rows by the offset, and no other appears |
| FieldRepair.ShiftedInsideSegment | src/flydocs/core/services/repair/field_repairer.py:304-339 | pages reported within the slice land inside the segment once accepted |
| FieldRepair.RepairGroup | src/flydocs/core/services/repair/field_repairer.py:263-283 | in place: exactly the failing fields with a clean candidate are replaced |
| FieldRepair.RepairTask | src/flydocs/core/services/repair/field_repairer.py:171-202 | skipped iff too much fails, unchanged when the re-extraction raises, else merged |
| RepairTheorems.FailingShrinksByAccepted | src/flydocs/core/services/repair/field_repairer.py:260-301 | the failing set afterwards is the failing set before minus the accepted fields |
| RepairTheorems.OthersAreUntouched | src/flydocs/core/services/repair/field_repairer.py:260-301 | a field not accepted is unchanged, and no value becomes null |
| RepairTheorems.RepairIsMonotone | src/flydocs/core/services/repair/field_repairer.py:223-301 | both, for any re-extraction and verdicts, and the bad-verdict count never rises |
| RepairTheorems.CountFailures | src/flydocs/core/services/escalation/judge_escalator.py:187-212 | counts failed or flagged verdicts, and fields, over all documents |
| RepairTheorems.EscalationCountNeverRises | src/flydocs/core/services/escalation/judge_escalator.py:187-212 | over all documents repair never raises the count that triggers escalation, nor changes the total |
| AcceptanceTheorems.FailuresTold | src/flydocs/core/services/repair/field_repairer.py:72-107 | one failure per field that the judge rejects, or flags when flags count, or a validator rejects, in document order, with its names and pages |
| AcceptanceTheorems.PagesTold | src/flydocs/core/services/repair/field_repairer.py:110-117 | a field's pages are its own and those of its rows |
| AcceptanceTheorems.RepairTold | src/flydocs/core/services/repair/field_repairer.py:260-301 | a field is replaced iff one of its names fails and the last candidate with those names has a value, is valid, not flagged, and passed (or, without a judge, not failed); then by that candidate with pages moved; else kept |
| AcceptanceTheorems.ShiftTold | src/flydocs/core/services/repair/field_repairer.py:332-339 | moving adds the offset to every page of a field and its rows and changes nothing else |
| AcceptanceTheorems.AcceptedTold | src/flydocs/core/services/repair/field_repairer.py:260-283 | the accepted fields are reported by their names in document order |
| AcceptanceTheorems.CountsTold | src/flydocs/core/services/escalation/judge_escalator.py:187-212 | the count of bad verdicts and of fields of a document, field by field |

## Left out

- ExtractionRepository.BboxSweep: no other client acts between its two queries.
- ExtractionRepository.OtherClients: stands for other clients between two statements; only its contract is used.
- FieldRepair.CollectFailingFields: the failing value and the evidence text that go into the prompt.
- FieldRepair.RepairGroup: candidates are values, so when two fields of one group share a name the double page shift of the one shared object is not modelled; nor are `rows_changed` and the schema subset sent to the model.
- FieldRepair.RepairTask: tasks run concurrently on disjoint groups in the source; one task is modelled, with its slice offset as a parameter.
- BboxRefiner.Refine: leaves of a tree are distinct objects; word collection is a parameter; the matcher is asked leaf by leaf, not in one batch.
- ValueMatcher.Slide: the source writes the same two loops twice; here the ranking of a window is a parameter of one method. `locate_all` is a plain loop over `Locate`.
- PartsOfWhole.EnforceInvariant: shares, sums and rounding are exact reals with an arbitrary rounding function; float error is not modelled.
- RepairOrder.RepairIgnoresOrder: the convenient special case; `SameSurvivorsIff` is exact.
- ResolutionTheorems.DedupeIsIdempotent: for rows that name each sub-field once (`DedupeTwiceIff` is for any rows), and when joining is transitive, because `FuzzyNames` shows it false otherwise.
- ResolutionTheorems.DedupeIgnoresOrder: for rows that name each sub-field once; compares key, kept text per name and pages; row name, box and the provenance of equal texts come from the first row and do depend on order.
- Grounding.RebuildRows: cell values are scalars; nested lists, citations that are neither strings nor lists, and the JSON sent to the model are not modelled.
- Grounding.RebuildRow: the same.
- CheckDigits.CheckIban: works on the stripped, upper-cased candidate; blanks, case and non-ASCII digits that `\d` would accept are not modelled, here and for NIF, NIE and CIF.
- TokenTiling.TokenizePhrase: page, table position and float drift.
- The unconditional `update` of the repository is not a step of the protocol; it can overwrite any leg.
- The main leg's worker and reaper (`job_worker.py`, `job_reaper.py`) are arbitrary clients of the repository's methods.
- `graphlib.TopologicalSorter`, rapidfuzz, Unicode normalisation, SQL and the bus are modelled by what they document: a graph sorter, uninterpreted text functions, atomic conditional updates with a unique index, lossy at-least-once delivery.
- Back-off delays, the worker's subscription loop, the gather over documents inside one refinement, webhook retries, telemetry and pricing: I/O.
- Escalation's re-extraction and re-judging; only the count that triggers it is modelled.
- The request validator's other checks (unknown references, duplicate names): single loops over seen sets.
- Format validators that are one pattern: single-branch code. HTTP, SDK and CLI: I/O.
