# Search platform: verified models

Dafny 4.11 models of four connected parts of the search platform, with their properties proved.
`dafny verify dfyconfig.toml` checks everything.

**The durable workflow** (`Workflow*.dfy`, `Conversation.dfy`). A search run goes through route,
plan, discover, select, fetch, extract, verify and synthesize. `WorkflowModel` gives every unit
of work as one atomic transition on the stored rows; the environment picks the transitions, so
workers may crash, deliveries repeat, stale workers report late, the reconciler act on snapshots
of any age, users cancel, and the clock only moves forward. `WorkflowInvariant`, `WorkflowGraph`
and `WorkflowPreservation` prove one invariant of all reachable states; `WorkflowSafety`,
`WorkflowDeadline`, `WorkflowJoins`, `WorkflowSchedule` and `WorkflowTransitions` draw the
consequences: what every run keeps, what each join hands on, what each success schedules, and what
each unit of work leaves behind; these hold whatever the step handlers report. `WorkflowLineage`
adds what the handlers' own payloads guarantee, and `WorkflowHandlers` shows that selection and
synthesis keep to it. `WorkflowStore` is the imperative
counterpart: a class whose methods loop over rows and update fields, each proved to refine its
transition. `Conversation` creates the runs, idempotently, and shows that every stored run is one
the workflow model can reach.

**Hit selection** (`Selection.dfy`, `FastSelection.dfy`, `SelectionOrder.dfy`, `HitSelection.dfy`).
Merging discovered hits and choosing pages, as bounded set cover with approximation bounds, and which
page takes each slot.

**From text to answer** (`Chunking.dfy`, `Evidence.dfy`, `Coverage.dfy`, `Answers.dfy`,
`Completeness.dfy`, `AnswerQuality.dfy`, `AnswerClaims.dfy`). Chunk offsets, grounded evidence,
coverage, claims, citations, the decision whether an answer is complete, and what becomes of each
proposal and claim on the way.

**Two protocols.** `DiscoveryLimits.dfy`: nested semaphores with reference-counted tenant
entries. `Migration.dfy`, `MigrationApply.dfy`, `MigrationService.dfy`: planning a memory
migration and applying it under crashes, repeats and concurrent runs.

Each imperative part is proved against a specification function or relation, and the theorems are
about that specification. Two promises do not hold of the code as it stands; each is given with
its exact condition:

- The overlap keeps short spans whole only up to half a window, although any overlap below the
  window size is accepted (`OverlapKeepsSpansIff`). The default sizes, 1800 and 200, are inside.
- Citing a part of a fact's evidence can raise the level above what coverage allows: if and only if
  accepted evidence speaks both for and against the fact and the part shows one side only
  (`SubsetRaisesIff`, `ConflictMayBeCitedAway`). The deterministic path always cites one side
  (`FallbackShowsOneSide`); the answer is then still not complete (`CompleteIff`).

Conventions: identifiers, hashes and artifact references are opaque values compared for equality
(hashing is taken to be injective); identifier factories are supplies of fresh values; time is an
integer.

## Model

| member | source | states |
|---|---|---|
| `WorkflowSafety.NeverStranded` | sana/app/workflow_completion.py:786-918 | in every reachable state, under any interleaving of claims, successes, failures, cancellations, missed phase deadlines and lease reclaims, an unfinished run has an unfinished step; FAST early verify included |
| `WorkflowSafety.CreatedBehindBarrier` | sana/app/workflow_completion.py:103-151 | every step that appears was created behind its join barrier, in an unfinished run |
| `WorkflowSafety.NothingAfterSynthesize` | sana/app/workflow_completion.py:242-313 | once synthesize exists every other step has ended for good and no step is ever added, for every continuation |
| `WorkflowGraph.OnSuccessHealthy` | sana/app/workflow_completion.py:786-884 | the success hook keeps the step graph and the "owed steps exist" invariant, and raises only on a payload of the wrong shape or an inconsistent answer |
| `WorkflowGraph.OnFailureHealthy` | sana/app/workflow_completion.py:886-918 | the failure hook keeps both as well, or ends the run, and never raises |
| `WorkflowJoins.VerifyInputIsExact` | sana/app/workflow_completion.py:324-423 | when verify appears its input lists exactly the outputs of the extracts succeeded by then; in row order with the one that has just succeeded last; in RESEARCH every fetch and extract has ended; in FAST that, or some fact is required, all extracts are direct and each required fact is looked for on one of their pages |
| `WorkflowSchedule.RouteSchedulesPlan` | sana/app/workflow_completion.py:795-805 | a successful route adds the plan step, and nothing else, with its output as input |
| `WorkflowSchedule.PlanSchedulesDiscoveries` | sana/app/workflow_completion.py:806-833 | a successful plan adds a discovery step for each of its queries, with that plan and query as input, and no other step, but synthesize if there is no query |
| `WorkflowSchedule.SelectSchedulesFetches` | sana/app/workflow_completion.py:837-858 | a successful select adds a fetch step for each selected page, at its place and with that page as input, and no other step, but synthesize if nothing was selected |
| `WorkflowSchedule.FetchSchedulesExtract` | sana/app/workflow_completion.py:859-875 | a successful fetch adds the extract step of its page, and nothing else, with its output as input |
| `WorkflowSchedule.RowsAreScheduled` | sana/app/workflow_completion.py:786-884 | in every reachable state the plan, discovery, fetch and extract rows are exactly those the succeeded steps call for, each with the input made from that step's output |
| `WorkflowSchedule.VerifyIsScheduled` | sana/app/workflow_completion.py:315-423 | in every reachable active state verify exists once some extract has succeeded and every fetch and extract has ended or what was extracted is enough for FAST |
| `WorkflowLineage.VerifyStartsDistinct` | sana/app/workflow_completion.py:324-423 | when verify appears in a run of handler-made payloads, its input lists exactly the outputs of the extracts succeeded by then, each once |
| `WorkflowLineage.VerifyInputIsDistinct` | sana/app/workflow_completion.py:334-346 | in every reachable state of such a run the input of verify repeats no output and lists only outputs of successful extracts |
| `WorkflowLineage.LineageKept` | sana/app/search_operations.py:887-985 | every transition keeps that each fetched and extracted page is the selected page at its own place |
| `WorkflowHandlers.SelectionIsProduced` | sana/app/search_operations.py:839-885 | the selection step never lists a page twice, in either mode |
| `WorkflowJoins.SelectInputIsExact` | sana/app/workflow_completion.py:200-240 | when select appears every discovery has ended, and its input holds the plan and the output of each successful discovery, once and in row order |
| `WorkflowJoins.SynthesisInputIsExact` | sana/app/workflow_completion.py:242-313 | when synthesize appears every other step has ended, and its input holds the plan, what verify produced if it succeeded, the provider failures select counted, a code for exactly the ways in which other steps ended, and the code of the failure that brought it about |
| `WorkflowLineage.CodesTellKept` | sana/app/workflow_completion.py:242-313 | every transition keeps the input of synthesize what the other rows tell |
| `WorkflowLineage.CompleteMeansAllSucceeded` | sana/app/search_operations.py:1174-1211 | in a run of handler-made payloads the outcome is COMPLETE only if every step succeeded |
| `WorkflowHandlers.AnswerIsProduced` | sana/app/search_operations.py:1174-1211 | the synthesis step calls no answer complete when its input carries a degradation code |
| `WorkflowSafety.RunningHasOneOpenAttempt` | sana/app/sql_step_execution.py:257-302 | a step is RUNNING exactly when exactly one attempt is open, and that one has the largest number |
| `WorkflowSafety.SucceedsAtMostOnce` | sana/app/sql_step_execution.py:330-410 | at most one attempt of a step ever succeeds, and the completion hook has run once for each SUCCEEDED step and never otherwise |
| `WorkflowSafety.StaleReportChangesNothing` | sana/app/sql_step_execution.py:304-328 | once an attempt has ended or been reclaimed, no later success, failure or renewal it reports changes anything, ever |
| `WorkflowSafety.ExecMonotone` | sana/app/sql_step_execution.py:330-410 | over any run finished rows, finished attempts, inputs and the deadline never change and the clock never goes back |
| `WorkflowSafety.UsageIsSucceededCost` | sana/app/sql_step_execution.py:375-386 | recorded usage, with elapsed time by budget phase, is the sum of the costs of the SUCCEEDED steps, nothing else |
| `WorkflowSafety.RetriesAreBounded` | sana/app/sql_step_execution.py:463-485 | a step is sent to retry at most limit - 1 times, lease reclaims included |
| `WorkflowSafety.NoStepIsLost` | sana/app/reconciliation.py:121-201 | each unfinished step of an active run is a candidate, or undelivered, or in its grace window, or waits for a future retry, or holds a live lease |
| `WorkflowSafety.CandidateBecomesReady` | sana/app/reconciliation.py:203-290 | what the scan returns, recovery makes READY |
| `WorkflowSafety.StaleRecoveryIsHarmless` | sana/app/reconciliation.py:221-290 | recovery from any snapshot, however old, keeps every invariant and leaves finished steps and live leases alone |
| `WorkflowDeadline.PastDeadlineDescends` | sana/app/sql_step_execution.py:195-242 | a transition that changes a step's status, its claims and failures having read the clock past the hard deadline, decreases (#RUNNING, #RETRY_WAIT, #READY) |
| `WorkflowDeadline.WindsDown` | sana/app/sql_step_execution.py:182-207 | under any infinite schedule, once the hard deadline has passed by as much as units of work may commit late, statuses change only finitely often |
| `WorkflowDeadline.AtMostTwoStepsFromTheEnd` | sana/app/sql_step_execution.py:195-207 | past the hard deadline an unfinished run has an unfinished step, and each such step is one recovery and one claim from ending the run |
| `WorkflowTransitions.ClaimOpens` | sana/app/sql_step_execution.py:243-302 | in time, a claim opens the next attempt, with the step's own deadline and a lease of the configured length that never outlasts it |
| `WorkflowTransitions.ClaimPastPhase` | sana/app/sql_step_execution.py:208-242 | past its own deadline the step fails without an attempt, and the run with it only if the step was route or plan |
| `WorkflowTransitions.SuccessIsStored` | sana/app/sql_step_execution.py:330-410 | a stored success ends the newest attempt, books its counts and its elapsed time in its one phase, and ends the run, with the reported outcome, exactly for synthesize |
| `WorkflowTransitions.UnfitOutputIsRefused` | sana/app/sql_step_execution.py:330-410 | in an active run any other success report changes nothing |
| `WorkflowTransitions.ReportInEndedRun` | sana/app/sql_step_execution.py:341-368 | in a run that has ended a report only cancels the step |
| `WorkflowTransitions.RetryDelayDoubles` | sana/app/sql_step_execution.py:469-473 | the wait is the base after the first attempt, then twice the last one up to the maximum |
| `WorkflowTransitions.FailureIsRetried` | sana/app/sql_step_execution.py:463-485 | a failure worth a retry makes the step wait exactly that delay, and does nothing else |
| `WorkflowTransitions.FailureIsFinal` | sana/app/sql_step_execution.py:486-512 | any other failure ends the step, and the run if the step was route, plan or synthesize |
| `WorkflowTransitions.RenewalExtends` | sana/app/sql_step_execution.py:412-435 | a heartbeat moves the open attempt's lease to the extension from now, never past its deadline and never back, and changes nothing else |
| `WorkflowTransitions.RecoveryIs` | sana/app/reconciliation.py:203-290 | recovery closes exactly the expired attempt and makes the step READY if its wait or lease is over, and otherwise changes nothing |
| `WorkflowTransitions.DeliveryPostpones` | sana/app/reconciliation.py:292-310 | a step marked as delivered is no candidate before the grace is over |
| `WorkflowPreservation.NextKeeps` | sana/app/sql_step_execution.py:174-302 | every transition keeps the whole invariant |
| `WorkflowPreservation.ReachableOk` | sana/modules/conversation/domain.py:140-222 | the invariant holds in every state reachable from a submitted message |
| `WorkflowStore.RunStore.Claim` | sana/app/sql_step_execution.py:174-302 | refines the claim transition, with a clock reading that may be older than the locked state, and keeps the invariant |
| `WorkflowStore.RunStore.MissPhase` | sana/app/sql_step_execution.py:208-242 | a step whose phase deadline passed fails without an attempt and its join runs |
| `WorkflowStore.RunStore.IsCurrentAttempt` | sana/app/sql_step_execution.py:304-328 | true exactly for the open attempt with the largest number and its own worker |
| `WorkflowStore.RunStore.Succeed` | sana/app/sql_step_execution.py:330-410 | refines the success transition; stale exactly when the attempt is not current; raising only on a malformed payload or inconsistent answer, and then nothing is stored |
| `WorkflowStore.RunStore.Renew` | sana/app/sql_step_execution.py:412-435 | refines the renewal transition, and reports success exactly for the current attempt before its deadline |
| `WorkflowStore.RunStore.Fail` | sana/app/sql_step_execution.py:437-512 | refines the failure transition; a retry is scheduled only below the attempt limit |
| `WorkflowStore.RunStore.SelectJoin` | sana/app/workflow_completion.py:200-240 | the loop over the rows computes the select join of the specification |
| `WorkflowStore.RunStore.SynthesizeJoin` | sana/app/workflow_completion.py:242-313 | the loops compute the synthesize join of the specification |
| `WorkflowStore.RunStore.VerifyJoin` | sana/app/workflow_completion.py:315-423 | the loops compute the verify join of the specification, with the current step's fresh status |
| `WorkflowStore.RunStore.HookSuccess` | sana/app/workflow_completion.py:786-884 | refines the success hook |
| `WorkflowStore.RunStore.HookFailure` | sana/app/workflow_completion.py:886-918 | refines the failure hook |
| `WorkflowStore.RunStore.Add` | sana/app/workflow_completion.py:103-151 | adds a READY row with its outbox row unless the key exists |
| `WorkflowStore.RunStore.MakeReady` | sana/app/reconciliation.py:203-290 | refines recovery and reports whether the step is READY |
| `WorkflowStore.RunStore.RunOnce` | sana/app/reconciliation.py:325-374 | a cycle over a stale snapshot, with other transactions in between, does nothing but recovery and bookkeeping transitions; it hands over exactly the items that are READY in the snapshot or whose row, when looked at, is READY or has itself lapsed; every delivery that can be is booked, and the three counters count just these |
| `Conversation.EverySubmissionOnce` | sana/modules/conversation/domain.py:106-233 | under any interleaving of submissions and workflow transitions each idempotency key has exactly one message, response run and search run, and every search run is reachable in the workflow model |
| `Conversation.RepeatIsIdempotent` | sana/modules/conversation/domain.py:126-148 | a repeat under the same key, however late: same content gets the same identifiers, other content is refused, nothing is created |
| `Conversation.NewKeyOpensRun` | sana/modules/conversation/domain.py:150-233 | a submission under a new key stores its message, the response run that answers it and a queued run with the deadlines of its mode and one READY route step, and touches no other row |
| `Conversation.OtherwiseNothingIsStored` | sana/modules/conversation/domain.py:106-148 | a submission that is refused or repeated stores nothing, and other content under a key in use is the only conflict |
| `Conversation.StripIs` | sana/modules/conversation/domain.py:106-125 | contents and keys lose exactly the white space at their ends |
| `Conversation.ConversationService.SubmitMessage` | sana/modules/conversation/domain.py:106-233 | computes the answer and the new rows of the submission transition |
| `Selection.ResearchCovers` | sana/app/search_operations.py:449-519 | research selection takes distinct candidates within the limit and either covers every target or fills the limit; a limit of at least the number of targets covers all |
| `Selection.ResearchWastesNothing` | sana/app/search_operations.py:459-490 | no slot goes to a page that covers nothing new before coverage is complete |
| `Selection.ResearchIsSmallAndDiverse` | sana/app/search_operations.py:505-519 | with targets at most one page more than targets is chosen, and two publishers when available and the limit allows |
| `Selection.NoTargetsFillTheLimit` | sana/app/search_operations.py:490-519 | without targets the loop fills the limit or takes everything |
| `Selection.GreedyBound` | sana/app/search_operations.py:459-490 | while no trusted page has gain, if k candidates cover every target then j more picks leave uncovered * k^j <= uncovered-before * (k-1)^j |
| `SelectionOrder.ResearchTakesInOrder` | sana/app/search_operations.py:459-519 | each slot goes to the first of the pages left: trusted pages that add a fact before all others, then those that add most, among equals the smaller, then the official, then a new publisher's, then the better ranked; and the loop ends only where it may |
| `SelectionOrder.FastTakesInOrder` | sana/app/search_operations.py:399-447 | with two trusted pages fast selection takes the one with most facts and the one that adds most to it, ties by rank; otherwise the best-ranked page and, if none is official, the best-ranked page of a second publisher |
| `FastSelection.FastPairIsGood` | sana/app/search_operations.py:399-430 | with two trusted pages and two slots, 4 * covered >= 3 * what any two trusted pages cover |
| `FastSelection.FastIsAuthoritative` | sana/app/search_operations.py:399-447 | fast selection chooses at most two distinct pages; only official ones if there is one, only trusted ones if there is one; otherwise two publishers if there are two |
| `FastSelection.DiverseIsDiverse` | sana/app/search_operations.py:436-447 | deferring repeated publishers gives as many publishers as limit and candidates allow, no page twice, the best-ranked first |
| `HitSelection.SelectRanked` | sana/app/search_operations.py:395-519 | the selection loops compute the fast or the research choice |
| `HitSelection.SelectResearch` | sana/app/search_operations.py:452-519 | the research loop refines the step-by-step specification of the choice |
| `HitSelection.Merge` | sana/app/search_operations.py:841-873 | the nested loops compute order, representative, fact list of every address and the failure count |
| `HitSelection.FactListIsExact` | sana/app/search_operations.py:848-870 | a merged candidate keeps exactly the facts its hits were found for, each once |
| `HitSelection.BestIsFirstOfHighest` | sana/app/search_operations.py:862-872 | the representative is the earliest of the hits with the highest score |
| `HitSelection.OrderIsExact` | sana/app/search_operations.py:848-856 | each address of a hit is listed once |
| `HitSelection.OrderIsByFirstHit` | sana/app/search_operations.py:848-856 | addresses are listed in the order in which they first appear |
| `HitSelection.FactsByFirstHit` | sana/app/search_operations.py:857-872 | an address lists its facts in the order in which they were first found there |
| `HitSelection.HitsInTurn` | sana/app/search_operations.py:841-848 | the hits of all responses are merged in turn, those of failed ones too |
| `HitSelection.CandidateSays` | sana/app/search_operations.py:839-880 | a candidate has exactly the facts the hits of its address were found for and the source of its best hit, and every address of a hit has a candidate |
| `HitSelection.SelectionCoversDiscovery` | sana/app/search_operations.py:839-880 | with as many slots as discovered facts, every fact any hit was found for is covered by a selected page |
| `Chunking.ChunkText` | sana/modules/content/chunker.py:22-54 | the loop terminates with the chunks of the specification |
| `Chunking.ChunksAreExact` | sana/modules/content/chunker.py:26-54 | chunks are exact slices numbered from 0, starts strictly increase, ends never decrease, nothing is left out between, the last ends at the end |
| `Chunking.ChunksAreWindows` | sana/modules/content/chunker.py:26-54 | each chunk ends after the last break in the second half of its window, or fills it, and the next starts the overlap before its end, but at least one character on |
| `Chunking.ChunksRebuild` | sana/modules/content/chunker.py:26-54 | the parts beyond each previous end join to the text |
| `Chunking.OverlapKeepsSpansIff` | sana/modules/content/chunker.py:13-53 | every span of at most overlap + 1 characters of every text lies in one chunk if and only if overlap <= max / 2 |
| `Chunking.ChunkCount` | sana/modules/content/chunker.py:26-53 | with overlap <= max / 2 there are at most 1 + length / (max / 2 + 1 - overlap) chunks |
| `Chunking.RFind` | sana/modules/content/chunker.py:32-36 | the last occurrence inside the window, or -1 |
| `Evidence.BuiltIsGrounded` | sana/modules/evidence/builder.py:48-84 | the builder succeeds exactly on a fitting request whose quote stands in the chunk; the candidate says what the request says, of its fact, run, direction, score and source, and quotes exactly what the document holds at its absolute offsets; the final whole-document check never fails |
| `Evidence.ShortQuotesAreBuildable` | sana/modules/evidence/builder.py:57-70 | with overlap <= max / 2 every occurrence of a quote of at most overlap + 1 characters lies in a chunk from which it is built with its own absolute offsets |
| `Coverage.Evaluate` | sana/modules/evidence/coverage.py:43-143 | the loop computes the assessment of the specification |
| `Coverage.AssessmentMeans` | sana/modules/evidence/coverage.py:54-143 | PARTIAL exactly for a conflict, OPEN exactly for no accepted evidence, VERIFIED exactly for one direction with an official or two independent sources, and the upgrade flag exactly for a conflict on a high-value fact |
| `Coverage.AssessmentLists` | sana/modules/evidence/coverage.py:54-79 | the three identifier lists are exactly those of the accepted evidence, by direction |
| `Answers.Synthesize` | sana/modules/answer/synthesizer.py:22-64 | accepts exactly proposals with distinct keys and assessments of this run; otherwise names the first offence |
| `Answers.FindValidEvidence` | sana/modules/answer/citation_validator.py:112-131 | the loop keeps exactly the valid evidence, each identifier once, in order |
| `Answers.ValidateDraft` | sana/modules/answer/citation_validator.py:34-110 | the loop over the draft computes claims, citations and issues of the specification, or refuses a foreign claim |
| `AnswerClaims.DraftSays` | sana/modules/answer/synthesizer.py:32-91 | a drafted claim says what was proposed, keeps the identifiers accepted for its fact, each once and in order, and has the support its coverage allows |
| `AnswerClaims.FullCitationIsUntouched` | sana/modules/answer/citation_validator.py:34-110 | a factual proposal that cites all accepted evidence of a covered fact leaves the validator as it was drafted, with nothing reported |
| `AnswerClaims.EveryClaimIsAccounted` | sana/modules/answer/citation_validator.py:42-110 | the answer's claims come, in order, from the drafted ones: untouched unless factual, with just the evidence they may cite, or as a marked uncertainty; only factual claims without evidence are dropped, and only under that policy |
| `AnswerClaims.NoMoreCitations` | sana/modules/answer/citation_validator.py:84-104 | there are as many citations as identifiers in the factual claims |
| `AnswerClaims.IssuesTell` | sana/modules/answer/citation_validator.py:50-83 | an issue is reported exactly when some claim lost mappings, has no evidence, or changed its support |
| `Answers.SupportsAgree` | sana/modules/answer/citation_validator.py:133-149 | the recomputed support equals the one drafted from coverage whenever a claim cites all accepted evidence of its fact |
| `Answers.SubsetNeverRaises` | sana/modules/answer/citation_validator.py:133-149 | citing only some evidence never raises the level unless coverage is PARTIAL |
| `Answers.SubsetSupportIs` | sana/modules/answer/citation_validator.py:133-149 | for any citation of a fact's evidence: CONFLICTED if and only if both directions are cited, otherwise VERIFIED if and only if the cited part is well sourced |
| `Answers.SubsetRaisesIff` | sana/modules/answer/citation_validator.py:133-149 | the level is raised above coverage if and only if coverage sees a conflict and the cited part shows one side of it |
| `Answers.ClaimsStand` | sana/modules/answer/citation_validator.py:66-83 | every factual claim that leaves the validator has the support of exactly the evidence it still cites |
| `AnswerQuality.ConflictMayBeCitedAway` | sana/modules/answer/citation_validator.py:133-149 | for any fact with official support and any evidence against it, a claim citing only the former is confirmed although coverage is PARTIAL |
| `AnswerQuality.FallbackShowsOneSide` | sana/modules/answer/model_synthesizer.py:610-648 | a claim of the deterministic answer never shows a conflict: it is VERIFIED if and only if the supporting side is well sourced, whatever speaks against it |
| `Answers.FactualIsCited` | sana/modules/answer/citation_validator.py:66-104 | every factual claim that leaves the validator is cited, once per evidence identifier and with ordinals from 1 |
| `Answers.LabelsRun` | sana/modules/answer/citation_validator.py:42-104 | labels run from 1 without a gap over the whole answer, and every citation is of the answer's run |
| `Answers.CitesAreEntitled` | sana/modules/answer/citation_validator.py:112-131 | every citation shows accepted evidence of the claim's run and fact |
| `Answers.CitationsAreExact` | sana/modules/answer/citation_validator.py:84-104 | over grounded evidence each citation's quote is what its document version holds at the citation's offsets |
| `Completeness.Parse` | sana/modules/answer/model_synthesizer.py:292-343 | the parser accepts exactly replies whose identifiers, keys and sizes pass, and covers every fact with accepted evidence |
| `Completeness.AcceptedReplySurvives` | sana/modules/answer/model_synthesizer.py:292-343 | over same-run evidence an accepted reply passes synthesizer and validator with no mapping dropped, and every fact with accepted evidence has a cited claim |
| `AnswerClaims.ReplyIsAcceptedIff` | sana/modules/answer/model_synthesizer.py:292-343 | a reply is accepted exactly when it is not too long, its keys differ, each claim has its four fields, a planned fact, a usable text and only evidence accepted for that fact, and every fact with accepted evidence is claimed |
| `AnswerClaims.FallbackAnswersEach` | sana/modules/answer/model_synthesizer.py:610-648 | the deterministic answer has, in the order of the facts, one claim for each fact with accepted supporting evidence, citing all of it, and no other |
| `Completeness.Fallback` | sana/modules/answer/model_synthesizer.py:610-648 | the loop proposes for each fact its known supporting evidence, or fails on a blank wording |
| `AnswerQuality.SynthesizeAnswer` | sana/app/search_operations.py:1155-1217 | the deterministic step computes coverage, answer, completeness and missing facts of the specification |
| `AnswerQuality.DeterministicFailsIff` | sana/modules/answer/model_synthesizer.py:727-753 | the deterministic path fails exactly on a blank wording or a repeated key among its proposals |
| `AnswerQuality.CompleteIff` | sana/app/search_operations.py:1200-1217 | complete if and only if some fact is required, nothing is degraded, and every required fact has accepted supporting and no accepted contradicting evidence |
| `AnswerQuality.CompleteIsCited` | sana/app/search_operations.py:1200-1217 | in a complete answer over grounded evidence every required fact has a fully cited claim and every citation is exact |
| `DiscoveryLimits.LimitsHold` | sana/modules/discovery/service.py:64-75 | in every run holders never exceed the overall, per-tenant and per-provider limits |
| `DiscoveryLimits.TenantEntryIffReferenced` | sana/modules/discovery/service.py:40-62 | a tenant is listed exactly while a search of it is under way, its count is their number, and all share the listed semaphore |
| `DiscoveryLimits.SomeSearchMoves` | sana/modules/discovery/service.py:64-75 | while any search is under way some search can move |
| `DiscoveryLimits.Drains` | sana/modules/discovery/service.py:64-75 | from every reachable state all searches can finish in exactly the moves they have left, leaving the overall and every provider's slots free and no tenant listed |
| `DiscoveryLimits.ExecKeeps` | sana/modules/discovery/service.py:40-75 | every interleaving keeps the registry, the counts and the conservation of slots |
| `DiscoveryLimits.DiscoveryConcurrency.Semaphores` | sana/modules/discovery/service.py:40-62 | refines the registration step |
| `DiscoveryLimits.DiscoveryConcurrency.ReleaseTenantReference` | sana/modules/discovery/service.py:64-71 | refines the last step of a search |
| `Migration.Build` | sana/app/migration/service.py:140-184 | the nested loops compute the plan of the specification |
| `Migration.PlanIsUnique` | sana/app/migration/service.py:155-184 | a plan names each source identity once and imports each content at most once |
| `Migration.ConflictsIff` | sana/app/migration/service.py:159-167 | the conflicts of a plan are exactly the identities that occur with two hashes |
| `Migration.EveryFirstIsPlanned` | sana/app/migration/service.py:155-184 | the plan has one record for each identity, in order of first occurrence: the first record of that identity as it is, or a skip that names the record importing the same content |
| `Migration.NoContentLost` | sana/app/migration/service.py:168-184 | what the first record of an identity wants imported is imported by some record of the plan |
| `MigrationApply.ReplayIsSafe` | sana/app/migration/service.py:319-356 | after any crashes, restarts and concurrent runs, once one run is at the end the ledger is the one result and each due import holds its content |
| `MigrationService.ReplayEqualsOneRun` | sana/app/migration/service.py:319-356 | that ledger equals the one a single undisturbed run leaves, with one memory item per IMPORTED row |
| `MigrationApply.NoWriteConflict` | sana/app/migration/postgres.py:177-201 | no run of the plan, in any interleaving, is refused a write |
| `MigrationApply.OneMemoryPerImport` | sana/app/migration/postgres.py:79-118 | there are as many memory items as imported rows |
| `MigrationService.Apply` | sana/app/migration/service.py:304-356 | one run leaves the store of the specification, and each counter is the number of records of its kind |
| `MigrationService.ReportMeans` | sana/app/migration/service.py:318-356 | what each of the five counters counts, in terms of the plan and the ledger at the start |
| `MigrationService.ReportAddsUp` | sana/app/migration/service.py:318-356 | the five counters sum to the number of records |
| `MigrationService.SecondRunIsIdle` | sana/app/migration/service.py:326-340 | running again after a complete run imports and archives nothing |
| `MigrationService.MigrationStore.ImportMemory` | sana/app/migration/postgres.py:77-120 | one transaction writes memory and ledger row together, or neither |
| `MigrationService.MigrationStore.ArchiveRecord` | sana/app/migration/postgres.py:122-175 | one transaction writes archive and ledger row together, or neither |
| `MigrationService.MigrationStore.AlreadyFinished` | sana/app/migration/postgres.py:177-201 | finished exactly on an equal row, refused exactly on a different one |

## Left out

- SQL, row-level security, Redis, Celery, HTTP and artifact storage: a unit of work is one atomic transition, a reference stands for the payload it names.
- WorkflowSafety.UsageIsSucceededCost: model calls and tokens, which the units of work modelled here never charge, are not part of the usage.
- WorkflowStore.RunStore.RunOnce: one run's candidates of one tenant, and no transaction between a recovery and its delivery; the scan's limit and ordering across runs, and the sealing of orphaned model invocations, are not modelled.
- WorkflowModel: the claim handle is the attempt number and its worker, lease and deadline are read from the row; `plan_revision` is always 1 as in the source; the status of the response run and the conversation rows, and the rows the hooks persist for display, are not modelled.
- WorkflowJoins.VerifyInputIsExact: facts, queries and hits are what the join reads of a payload; the rest of each payload is one opaque tag.
- WorkflowSchedule.SelectSchedulesFetches: the plan reference that a fetch input carries along, and the provider list of a discovery input, are not modelled.
- WorkflowLineage.VerifyInputIsDistinct: that fetch and extract pass on the page of their input is what their handlers do; fetching and text extraction themselves are not modelled.
- The upgrade of a run to RESEARCH and the budget limits on queries, providers and fetches: no unit of work modelled here calls them.
- Conversation.RepeatIsIdempotent: white space is space, tab, newline and carriage return; trace context and the shape of the outbox row are not modelled.
- Selection.GreedyBound: the ranking by score is any order of the candidates; fast selection assumes only that official and direct pages come first. Classifying a URL is a parameter.
- HitSelection.Merge: scores are integers, since only their order matters.
- Chunking.ChunkText: a chunk's hash and token count are functions of its text and are left out.
- Evidence.BuiltIsGrounded: the syntax checks on URL and source identity are one flag.
- Coverage.AssessmentMeans: reason codes, the discovery count and the level, which repeats the status, are left out.
- Completeness.Parse: checks and repairs on the wording of a claim are one function that may refuse it; the JSON decoding is left out.
- Completeness.Fallback: the wording made from quotes is an arbitrary function.
- AnswerQuality.SynthesizeAnswer: the stop reason of an incomplete answer, the rendered lines and the model path around the parser are left out; `degraded` is an input.
- DiscoveryLimits.LimitsHold: cancellation of a waiting search is not modelled, and taking or giving back a semaphore slot is one step of the event loop without its waiting queue.
- MigrationApply.ReplayIsSafe: one tenant and one migration version; embeddings, record metadata, time stamps and ledger states other than IMPORTED and ARCHIVED are left out.
- The planner, router, verifier and candidate selector behind the step handlers: their results are arbitrary inputs.
- The shadow campaign runner, the event stream, the legacy agent and all clients: outside these four parts.
