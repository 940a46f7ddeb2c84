# Agora backend: curriculum pipeline, assessments, plans, calendar, gap cards

A Dafny model of the stateful core of the Agora school-management backend, with proofs. `dafny verify dfyconfig.toml`
checks everything.

Code of the original that loops over Maps and arrays, or updates rows, is a method or a class here, proved against a
specification function or relation; the laws are lemmas about that specification. The language model, the database, the
job queue and the clock are parameters: an answer is an arbitrary value of its type, a table is a sequence or a map of
rows, the queue is a map of jobs, and every call takes its clock reading as an argument. Each service call is one atomic
step.

| file | what it models |
|---|---|
| `Prelude.dfy`, `Ordered.dfy`, `Decimals.dfy` | options, filters, sorted map keys, decimal text and text order |
| `ParsedTerms.dfy`, `MergeLaws.dfy` | term/week lists, their merge, and the laws of merging |
| `ParsedContent.dfy` | what a merged or grouped list shows, field by field, in terms of the loose input |
| `ParsedSource.dfy` | storing a parse, reading it back, and the loop over document chunks |
| `MappedYear.dfy` | the 39 slots (3 terms of 13 weeks) that sources are mapped onto |
| `YearShape.dfy`, `YearRepair.dfy` | the full-year check, and the repair that makes any answer pass it |
| `PublishGate.dfy` | the completeness test for publishing |
| `Consolidation.dfy` | the transaction that writes a year over existing topic rows |
| `Drafts.dfy` | draft versions of one subject and grade |
| `SourceQueue.dfy` | the life of a source and its parse jobs, with cancel, retry, crash and restart |
| `SchemeTopUp.dfy` | the top-up of MERGED schemes of work |
| `Deadlines.dfy`, `Submissions.dfy` | start, resume, violation, submit and grade of an assessment |
| `ClassLabels.dfy`, `PendingPlans.dfy` | matching class labels; proposing, applying, cancelling and expiring plans |
| `CivilDate.dfy`, `CalendarWindow.dfy`, `CalendarEvents.dfy` | UTC dates, date text, week windows, events of a window |
| `SowGaps.dfy` | cards for scheme weeks that were not delivered |

Dates follow sections 21.4.1.3 to 21.4.1.12 of ECMA-262 (day numbers, months, weekdays, MakeDay).

## Where the code differs from what it says

The model follows the code. Each difference below is proved, with the exact condition or an input.

- `agora-curriculum.service.ts:613-616` says that a new version is only minted after the latest draft is a complete
  39-week year or is published. On an incomplete draft the code mints one all the same exactly in two cases
  (`Drafts.MintedEarlyExactlyWhen`): a forced request when the draft has any topic (`Drafts.MintedEarlyExample`), and an
  ordinary request when it has 39 topics or more. Manual edits reach the second case: a topic added to a complete draft
  gets a week after the highest one (`Drafts.MintedOverAddedTopic`), and replacing a topic leaves 39 topics of which one is outside the year
  (`Drafts.ReplacedTopicIsStray`). In runs without manual edits the promise holds
  (`Drafts.MintedOnlyOverACompleteYear`).
- A start is checked at one clock reading and stamped at a second one. When the deadline falls between the two, the
  accepted student is later refused for the due date (`Deadlines.AcceptedStartAndDueDate`,
  `Deadlines.StampedOneMillisecondLate`). With one reading this cannot happen.
- A violation threshold of 0 is read as 1, because of `violationThreshold || 1`.
- Cancelling a source whose parse is already running, when the active job is no longer locked, marks it FAILED but does
  not keep it so: the running attempt still writes PARSED (`SourceQueue.CancelledThenParsed`). A FAILED source stays
  FAILED in every run of the workers exactly when no attempt on it is running
  (`SourceQueue.FailedStaysFailedIffNoAttemptRuns`). While the active job is locked the call fails and changes nothing.
- Jobs of new sources are added with a priority and are not among the jobs that a cancellation searches, so cancelling a
  fresh source leaves its job in the queue; its pick-up drops it (`SourceQueue.PrioritisedJobOutlivesCancel`).
- `agora-curriculum.service.ts:60-62` says that a restart brings queue and database perfectly in sync. It does exactly
  when every active job could be moved to failed; a move that throws is ignored and leaves its job
  (`SourceQueue.RestartReconciles`).
- When parsing succeeds but the request for consolidation fails, the delayed job is dropped on its second pick-up, so
  it does not request the consolidation again (`SourceQueue.ConsolidationNotRequestedAgain`).
- Within one source the first chunk that has a week wins; across several sources the last one wins
  (`MergeLaws.FirstSupplier`, `MappedYear.LastSourceWins`).
- `addDaysYmd` prints the year without padding, and `Date.UTC` reads a year below 100 as 19xx. So adding days to a text
  is adding to its day number exactly when the text is not before the year 100 and the result is not before the year
  1000 (`CalendarWindow.AddDaysExact`).
- The weeks of a MERGED scheme are checked before the top-up, which can then introduce a second week of the same number
  or a week without topic or outcomes (`SchemeTopUp.NumbersStillDistinct`, `SchemeTopUp.WeeksStillComplete`,
  `SchemeTopUp.NumbersClashExample`). A required topic with an empty key is appended again on every pass
  (`SchemeTopUp.SecondPassAppendsNothing`).
- Cancelling a plan does not look at the conversation, while applying it does (`PendingPlans.PlanService.Cancel`).

## Model

| member | source | states |
|---|---|---|
| ParsedTerms.DedupeWeeks | src/agora-curriculum/full-year-curriculum.util.ts:395-403 | the result is strictly ascending by week, holds only input weeks, and has for every number the first input week with it |
| ParsedTerms.ListByTerm | src/agora-curriculum/full-year-curriculum.util.ts:133-138 | the collected buckets become one canonical list: exactly their terms, ascending, and the first week of each number |
| ParsedTerms.MergeParsedTerms | src/agora-curriculum/full-year-curriculum.util.ts:124-139 | the result is canonical, has the terms of both inputs, and on every (term, week) the left input's week if it has one, else the right's |
| ParsedContent.MergedWeekReads | src/agora-curriculum/full-year-curriculum.util.ts:92-139 | the first week of the inputs that claims (term, n), by its own positive number or by its place, is listed there: its title, else its topic, else "Untitled topic"; its outcomes, else its objectives; every other field its own or empty |
| ParsedContent.NoClaimNotListed | src/agora-curriculum/full-year-curriculum.util.ts:124-139 | every listed week is claimed by some input week |
| ParsedContent.UnnumberedTermMerged | src/agora-curriculum/full-year-curriculum.util.ts:124-139 | n unnumbered weeks of one term stay n weeks, numbered 1 to n in their order with their own content |
| ParsedTerms.WeeksUnique | src/agora-curriculum/full-year-curriculum.util.ts:395-403 | two ascending week lists with the same week for every number are equal, so deduping determines its result |
| ParsedTerms.CanonicalUnique | src/agora-curriculum/full-year-curriculum.util.ts:124-139 | two canonical lists with the same terms and the same week on every slot are the same list |
| MergeLaws.MergeUnique | src/agora-curriculum/full-year-curriculum.util.ts:124-139 | the merge of two inputs is determined by them |
| MergeLaws.MergeAssociative | src/agora-curriculum/full-year-curriculum.util.ts:124-139 | (a merged with b) merged with c equals a merged with (b merged with c) |
| MergeLaws.MergeIdempotent | src/agora-curriculum/full-year-curriculum.util.ts:124-139 | merging a list with itself only canonicalises it, and merging the result with itself changes nothing |
| MergeLaws.MergeLeftBiased | src/agora-curriculum/full-year-curriculum.util.ts:124-139 | every week of a merge is the left list's wherever that has the slot, and otherwise the right list's |
| MergeLaws.NormalizeFixedIffCanonical | src/agora-curriculum/full-year-curriculum.util.ts:152-163 | reading a stored list of terms leaves it unchanged if and only if it is canonical |
| MergeLaws.FirstSupplier | src/ai/ai-curriculum-pipeline.service.ts:192-286 | after the chunk loop a slot holds what the first chunk with that slot supplied, and is empty exactly when none did |
| MergeLaws.ChunksRegroup | src/ai/ai-curriculum-pipeline.service.ts:192-286 | merging two runs of chunks separately and then together gives the same list as one run over all chunks |
| ParsedSource.GroupParsedTopicsIntoTerms | src/agora-curriculum/full-year-curriculum.util.ts:107-122 | flat topics become the canonical list of their terms; missing or out-of-range terms count as term 1, unnumbered topics take the next position of their term |
| ParsedContent.GroupedTopicReads | src/agora-curriculum/full-year-curriculum.util.ts:92-122 | the first topic that claims a week of its term is listed there field by field; without a number it claims the place after the topics of its term before it |
| ParsedContent.UnnumberedTopicsGrouped | src/agora-curriculum/full-year-curriculum.util.ts:107-122 | n unnumbered topics of one term, a missing or odd term counting as 1, become n weeks numbered 1 to n with their own content |
| ParsedSource.FlattenedTopics | src/agora-curriculum/full-year-curriculum.util.ts:141-143 | the flattened topics are exactly the weeks of the terms, each with its term number and all of its fields |
| ParsedSource.NormalizeSourceParsedData | src/agora-curriculum/full-year-curriculum.util.ts:152-163 | terms are read by merging into nothing, otherwise topics by grouping, otherwise nothing; always canonical |
| ParsedSource.NormalizedUnique | src/agora-curriculum/full-year-curriculum.util.ts:152-163 | what is read from stored data is determined by the data |
| ParsedSource.StoreReadRoundTrip | src/agora-curriculum/full-year-curriculum.util.ts:145-163 | whatever list is read back from a stored list is that list if and only if it was canonical |
| ParsedSource.FlattenGroupRoundTrip | src/agora-curriculum/full-year-curriculum.util.ts:107-143 | whatever list the flattened topics are grouped into is the original if and only if that is canonical, its terms are in 1..3 and none is empty |
| ParsedSource.ParseCurriculumDocument | src/ai/ai-curriculum-pipeline.service.ts:192-295 | the merged list holds each slot's first supplier over all answered chunks; the parse fails exactly when no chunk supplied any slot |
| ParsedContent.FirstOfGradeContributes | src/ai/ai-curriculum-pipeline.service.ts:280-285 | of several results the first one labelled with the grade contributes, or the very first when none is |
| ParsedSource.EmptyIffNothingSupplied | src/ai/ai-curriculum-pipeline.service.ts:293-296 | no topic is left after flattening exactly when no chunk supplied a slot |
| MappedYear.SlotNumberLexicographic | src/agora-curriculum/full-year-curriculum.util.ts:200-211 | the nested loops visit the 39 slots in lexicographic (term, week) order |
| MappedYear.BuildMappedYearSlots | src/agora-curriculum/full-year-curriculum.util.ts:192-213 | 39 slots in order; a slot is mapped exactly when some parsed week claims it, and takes the last claimant's title, else the standard title |
| MappedYear.SlotTitles | src/agora-curriculum/full-year-curriculum.util.ts:200-211 | slot (term, week) is at its place; it shows the last claimant's title, and without one the standard title of weeks 7, 12 and 13 and none elsewhere |
| MappedYear.LastClaimWins | src/agora-curriculum/full-year-curriculum.util.ts:192-198 | a slot goes to the week that claims it last, through the terms and the weeks in order |
| MappedYear.SlotOfSource | src/agora-curriculum/full-year-curriculum.util.ts:192-198 | within one canonical source the slot's week is the one the merge kept |
| MappedYear.LastSourceWins | src/ai/ai-curriculum-pipeline.service.ts:347-351 | over concatenated sources a slot shows the week of the last source that has it |
| MappedYear.UnclaimedSlot | src/ai/ai-curriculum-pipeline.service.ts:347-351 | a slot is left to generate exactly when no source claims it |
| MappedYear.MappedCount | src/ai/ai-curriculum-pipeline.service.ts:351-354 | the number of mapped slots is the number of distinct in-range slots that the sources claim |
| YearShape.StandardTitleFits | src/agora-curriculum/full-year-curriculum.util.ts:325-331 | each standard title fits the pattern of its reserved week, alone and as a prefix of any text |
| YearShape.ReservedTitlesMention | src/agora-curriculum/full-year-curriculum.util.ts:15-21 | which words a title must contain, in any letter case, for each reserved week; every spelling that the patterns admit is listed |
| YearShape.FullTermWeeks | src/agora-curriculum/full-year-curriculum.util.ts:240-249 | thirteen topics covering weeks 1..13 leave no duplicate: the size test and the missing-week loop together say exactly that |
| YearShape.TermAccepted | src/agora-curriculum/full-year-curriculum.util.ts:234-254 | a term raises no error exactly when it has 13 topics, one for each week, with fitting titles in weeks 7, 12 and 13 |
| YearShape.AcceptedTermIs | src/agora-curriculum/full-year-curriculum.util.ts:234-254 | the same without the functions of the check: topics are read by their number, or by their place when it is missing or zero |
| YearShape.TermErrorIsTrue | src/agora-curriculum/full-year-curriculum.util.ts:234-254 | the error raised about a term is true of it, names the first missing week or the first bad title, and comes only when the checks before it hold |
| YearShape.SortedIs123 | src/agora-curriculum/full-year-curriculum.util.ts:228-232 | three terms are sorted and joined to 1,2,3 exactly when each of the numbers occurs |
| YearShape.CheckAcceptsExactlyFullYears | src/agora-curriculum/full-year-curriculum.util.ts:215-256 | the assertion, with its sort and its join, returns exactly on three full terms numbered 1, 2, 3 in any order |
| YearShape.YearErrorIsTrue | src/agora-curriculum/full-year-curriculum.util.ts:215-256 | every error of the check is true of the answer, and a term is complained about only when the terms before it are full |
| YearRepair.PadTermToThirteen | src/agora-curriculum/full-year-curriculum.util.ts:307-323 | the padded term has 13 weeks, each the first topic numbered so, repaired, or a filler continuing the week before |
| YearRepair.NormalizeConsolidateResult | src/agora-curriculum/full-year-curriculum.util.ts:289-305 | any list of terms becomes the three padded terms 1, 2, 3; a missing list stays missing |
| YearRepair.RepairedCarriesOwnTopic | src/agora-curriculum/full-year-curriculum.util.ts:289-344 | for any list of terms: week w of term k carries title, description, the five lists, assessment type and order of the first topic written for it in the last term numbered k; a reserved week keeps a title that fits and otherwise puts the standard title before it |
| YearRepair.RepairedFillsTheRest | src/agora-curriculum/full-year-curriculum.util.ts:307-379 | for any list of terms: a week that nobody wrote is the standard week if reserved, otherwise continues the title, texts and lists of the week before it |
| YearRepair.RepairedPassesCheck | src/agora-curriculum/full-year-curriculum.util.ts:285-305 | whatever terms the model answers with, the repaired answer passes the full-year check |
| YearRepair.EnsureTwice | src/agora-curriculum/full-year-curriculum.util.ts:325-344 | repairing a week twice is repairing it once |
| YearRepair.EnsureFiller | src/agora-curriculum/full-year-curriculum.util.ts:346-379 | a filler week needs no repair |
| YearRepair.RepairIdempotent | src/agora-curriculum/full-year-curriculum.util.ts:289-344 | repairing an answer twice is repairing it once |
| YearRepair.PassingAnswerKept | src/agora-curriculum/full-year-curriculum.util.ts:289-344 | an answer that passes the check gains no filler: each topic stays under its term and week with its own title |
| PublishGate.CompleteIffOncePerSlot | src/agora-curriculum/full-year-curriculum.util.ts:258-270 | the completeness test holds exactly when the topics list every one of the 39 slots once and nothing else |
| Consolidation.AllocateUniqueStableKey | src/common/utils/topic-stable-key.util.ts:31-44 | the key is new and recorded: the preferred one if free, else the first free numbered variant from 2 |
| Consolidation.RepairedInOrder | src/ai/ai-curriculum-pipeline.service.ts:519-526 | the repaired year has its terms and weeks in order, so sorting the topics again changes nothing |
| Consolidation.IndexBySlot | src/ai/ai-curriculum-pipeline.service.ts:511-513 | the slot index holds every row's slot, and for each slot its last row |
| Consolidation.PlanConsolidation | src/ai/ai-curriculum-pipeline.service.ts:507-581 | the k-th operation writes the k-th slot over its last old row or creates it under a new key, and after the deprecation of the unseen rows the table is reconciled; what is written is given by LiveRowHolds |
| Consolidation.TopicStore.RunTransaction | src/ai/ai-curriculum-pipeline.service.ts:583-583 | the operations are applied in order |
| Consolidation.TopicStore.Consolidate | src/ai/ai-curriculum-pipeline.service.ts:475-584 | an answer without terms or overview is an error and changes nothing; any other answer leaves the table reconciled, with the content that AnswerReachesRow states |
| Consolidation.IdentityKept | src/ai/ai-curriculum-pipeline.service.ts:542-581 | no old row changes its id, stable key or slot; it is live afterwards exactly when it is the last row of an in-range slot |
| Consolidation.LiveRow | src/ai/ai-curriculum-pipeline.service.ts:524-570 | a live row afterwards is on the grid and is new only where no old row was; its content is that of its slot, which LiveRowHolds spells out |
| Consolidation.LiveRowHolds | src/ai/ai-curriculum-pipeline.service.ts:519-570 | each of the nine fields of a live row equals the field of that name in the repaired answer's week |
| Consolidation.AnswerReachesRow | src/ai/ai-curriculum-pipeline.service.ts:475-584 | from any answer to the table: the live row of a slot carries, field by field, the first topic written for that week in the last term of that number |
| Consolidation.PassingAnswerReachesRows | src/ai/ai-curriculum-pipeline.service.ts:475-584 | with an answer that passes the check every topic reaches the row of its own term and week, field by field |
| Consolidation.PublishableAfterConsolidation | src/ai/ai-curriculum-pipeline.service.ts:475-584 | whatever rows there were, exactly one live topic is left on each of the 39 slots, so the publish gate accepts |
| Consolidation.ConstraintsKept | prisma/schema/curriculum.prisma:435-436 | after every single operation of the transaction (term, week) and stable keys are unique, so none is refused |
| Consolidation.SecondConsolidationCreatesNothing | src/ai/ai-curriculum-pipeline.service.ts:507-583 | consolidating again creates no row and moves none between live and deprecated |
| Drafts.StepKeepsInv | src/agora-curriculum/agora-curriculum.service.ts:617-753 | enqueue, success, failure, publish and revert keep: versions 1..n, each year complete or empty, all but the last complete, published ones complete |
| Drafts.VersionsInEveryRun | src/agora-curriculum/agora-curriculum.service.ts:655-753 | in every run versions are exactly 1..n, each below n has 39 live topics, and only version n can be incomplete, as an empty draft |
| Drafts.PublishedExactlyWhenSet | src/agora-curriculum/agora-curriculum.service.ts:729-753 | in every run a version is PUBLISHED exactly when the last accepted status event for it was PUBLISHED; publishing is accepted exactly with one live topic on every slot |
| Drafts.ConsolidationCompletes | src/agora-curriculum/curriculum.processor.ts:134-190 | a successful consolidation leaves its draft with one live topic on every slot, keeps its version and status and touches no other version |
| Drafts.MintedOnlyOverACompleteYear | src/agora-curriculum/agora-curriculum.service.ts:613-691 | in every run a request mints a new version exactly when the latest one is a complete year |
| Drafts.MintedEarlyExactlyWhen | src/agora-curriculum/agora-curriculum.service.ts:613-678 | an incomplete draft is not reused exactly when the request is forced and it has a topic, or is not forced and it has 39 topics or more |
| Drafts.MintedEarlyExample | src/agora-curriculum/agora-curriculum.service.ts:655-691 | a forced request on a draft with one topic leaves that incomplete draft behind a second version |
| Drafts.AddedTopicBreaksTheYear | src/agora-curriculum/agora-curriculum.service.ts:767-798 | a topic added by hand to a complete draft makes 40 topics, which are no complete year |
| Drafts.AddedTopicGoesLast | src/agora-curriculum/agora-curriculum.service.ts:767-798 | the added topic is live, takes the week after the highest week of all rows, and no other row changes |
| Drafts.ReplacedTopicIsStray | src/agora-curriculum/agora-curriculum.service.ts:767-805 | deleting any topic of a complete draft and adding one leaves 39 topics, one of them outside the year |
| Drafts.MintedOverAddedTopic | src/agora-curriculum/agora-curriculum.service.ts:655-798 | an ordinary request after a topic was added to a complete draft mints the next version over an incomplete draft |
| Drafts.DraftLine.FindLatest | src/agora-curriculum/agora-curriculum.service.ts:662-668 | the row with the highest version is found |
| Drafts.DraftLine.GetOrCreateDraftForConsolidation | src/agora-curriculum/agora-curriculum.service.ts:655-691 | the in-flight draft is reused, or the next version is appended as an empty draft |
| Drafts.DraftLine.PublishCurriculum | src/agora-curriculum/agora-curriculum.service.ts:729-753 | accepted exactly for a revert or when every slot has one live topic; if accepted the row has the new status and nothing else changes, if refused nothing changes |
| Drafts.DraftLine.ConsolidateDraft | src/agora-curriculum/curriculum.processor.ts:134-190 | a consolidation rewrites its own curriculum's topics by the transaction, or fails and changes nothing |
| SourceQueue.StepKeepsInv | src/agora-curriculum/curriculum.processor.ts:32-115 | every step keeps: a job whose attempt runs is active, every job has an attempt left, and no unsettled source is without a queued, delayed or running job |
| SourceQueue.NoSourceIsEverStranded | src/agora-curriculum/agora-curriculum.service.ts:195-560 | in every reachable state each PENDING_PARSE or PARSING source has a queued, delayed or running job |
| SourceQueue.StatusChangesForAReason | src/agora-curriculum/agora-curriculum.service.ts:35-560 | no source is lost, and each new status has its cause: pending by a request, PARSING by a pick-up, PARSED by an attempt that parsed, FAILED by a cancel, a restart that finds it PARSING, or the failure of a last attempt |
| SourceQueue.RequestsQueueAJob | src/agora-curriculum/agora-curriculum.service.ts:195-503 | a new source is pending with a fresh prioritised job of two attempts; a retried one with a fresh waiting job; retrying any other source changes nothing |
| SourceQueue.PickUpStartsOrDrops | src/agora-curriculum/curriculum.processor.ts:43-61 | picking up the job of a pending or PARSING source makes it PARSING and the job active and running; the job of a settled source is gone |
| SourceQueue.AttemptEnds | src/agora-curriculum/curriculum.processor.ts:63-114 | success makes the source PARSED and removes the job; the failure of the last attempt makes it FAILED and removes the job; an earlier failure delays the job with one attempt less |
| SourceQueue.JobReturnsOrGoes | src/ai/vector-queue.module.ts:124-132 | a delayed or stalled job joins the queue of its priority again, one that stalled too often leaves it, and nothing else changes |
| SourceQueue.CancellationFails | src/agora-curriculum/agora-curriculum.service.ts:540-560 | a cancellation marks the source FAILED and removes an active job of it before a waiting one before a delayed one, never a prioritised one; with a locked active job it changes nothing |
| SourceQueue.RestartReconciles | src/agora-curriculum/agora-curriculum.service.ts:35-81 | from any state a restart turns every PARSING source into a FAILED one that may be retried, leaves every other status, and gives each pending source a new job; queue and database are in sync exactly when every active job could be moved to failed |
| SourceQueue.WorkerStepFalls | src/agora-curriculum/curriculum.processor.ts:32-115 | every promotion, recovery, pick-up and end of an attempt lowers the remaining work |
| SourceQueue.EverySourceIsSettled | src/agora-curriculum/curriculum.processor.ts:32-115 | with no new request workers take at most as many steps as work remains, and end with every source PARSED or FAILED |
| SourceQueue.FailedStaysFailedIffNoAttemptRuns | src/agora-curriculum/agora-curriculum.service.ts:540-560 | a FAILED source stays FAILED in every run of the workers exactly when no attempt on it is running |
| SourceQueue.CancelledThenParsed | src/agora-curriculum/agora-curriculum.service.ts:540-560 | the failing run: a source is created, picked up and cancelled, and its attempt then makes it PARSED |
| SourceQueue.PrioritisedJobOutlivesCancel | src/agora-curriculum/agora-curriculum.service.ts:211-214 | cancelling a source whose job waits with a priority marks it FAILED, leaves the job, and the pick-up of the job drops it |
| SourceQueue.ConsolidationNotRequestedAgain | src/agora-curriculum/curriculum.processor.ts:49-113 | after a parse whose consolidation request failed, the retry is dropped at its pick-up |
| SourceQueue.CurriculumPipeline.CreateNewSource | src/agora-curriculum/agora-curriculum.service.ts:195-217 | a new pending source is added together with one job that has a priority |
| SourceQueue.CurriculumPipeline.RetrySourceParsing | src/agora-curriculum/agora-curriculum.service.ts:481-503 | exactly a failed or pending source is reset to pending with one more waiting job; any other request changes nothing |
| SourceQueue.CurriculumPipeline.FindJob | src/agora-curriculum/agora-curriculum.service.ts:545-546 | a job of the source is found exactly when one is active, waiting or delayed, and no job of an earlier one of these phases exists; prioritised ones are not searched |
| SourceQueue.CurriculumPipeline.CancelSourceProcessing | src/agora-curriculum/agora-curriculum.service.ts:540-560 | a found job is removed and the source is FAILED, also when none is found; or the removal fails and nothing changes |
| SourceQueue.CurriculumPipeline.PickUpJob | src/agora-curriculum/curriculum.processor.ts:43-61 | a settled source's job is dropped; otherwise the source is PARSING and its attempt runs |
| SourceQueue.CurriculumPipeline.FinishAttempt | src/agora-curriculum/curriculum.processor.ts:63-114 | success removes the job, a failure delays it or, on the last attempt, fails the source |
| SourceQueue.CurriculumPipeline.OnModuleInit | src/agora-curriculum/agora-curriculum.service.ts:35-81 | the startup loops, ignoring moves that throw, restore the invariant: sources that were PARSING are FAILED and may be retried, all others keep their status |
| SchemeTopUp.CheckWeeks | src/ai/ai-curriculum-pipeline.service.ts:749-756 | the weeks pass exactly when their numbers are distinct and each has a topic and outcomes; a repeated number is reported first |
| SchemeTopUp.SortIsStable | src/ai/ai-curriculum-pipeline.service.ts:780-781 | sorting by order or week is ascending and keeps topics of the same rank in their order |
| SchemeTopUp.StableSortUnique | src/ai/ai-curriculum-pipeline.service.ts:780-781 | there is only one such order, whatever stable sort computes it |
| SchemeTopUp.KeepCountIsShare | src/ai/ai-curriculum-pipeline.service.ts:776-779 | for weights 0..100 the count is the least number of topics that reaches the weight's share, and at least one |
| SchemeTopUp.RequiredAre | src/ai/ai-curriculum-pipeline.service.ts:776-782 | required are the first topics of the sorted library, at least one, as few as reach the weight's share (70 percent if none is given), or all |
| SchemeTopUp.SortedByOrder | src/ai/ai-curriculum-pipeline.service.ts:780-781 | the library is sorted by order, by week number where the order is zero |
| SchemeTopUp.GenerationResult.TopUp | src/ai/ai-curriculum-pipeline.service.ts:775-800 | the pushed weeks are those of the fold over the required topics |
| SchemeTopUp.ModelWeeksKept | src/ai/ai-curriculum-pipeline.service.ts:784-799 | the model's weeks stay an unchanged prefix; appended weeks are required topics numbered by position, under new and different keys |
| SchemeTopUp.AppendedFromLibrary | src/ai/ai-curriculum-pipeline.service.ts:784-799 | an appended week has its position as number and the key, title and outcomes of a required topic |
| SchemeTopUp.AppendedCount | src/ai/ai-curriculum-pipeline.service.ts:783-799 | one week is appended for each required key that the model's weeks lack |
| SchemeTopUp.RequiredTopicsPresent | src/ai/ai-curriculum-pipeline.service.ts:776-799 | every required topic has a week afterwards |
| SchemeTopUp.SecondPassAppendsNothing | src/ai/ai-curriculum-pipeline.service.ts:783-799 | a second pass appends nothing exactly when no required key is empty |
| SchemeTopUp.NumbersStillDistinct | src/ai/ai-curriculum-pipeline.service.ts:750-788 | with n weeks and m missing keys, the week numbers stay distinct exactly when the model gave no week a number from n + 1 to n + m |
| SchemeTopUp.WeeksStillComplete | src/ai/ai-curriculum-pipeline.service.ts:754-799 | all weeks still have topic and outcomes exactly when every appended library topic does |
| SchemeTopUp.NumbersClashExample | src/ai/ai-curriculum-pipeline.service.ts:750-788 | one week numbered 2 passes the check and is followed by another week 2 |
| Deadlines.AcceptedStartAndDueDate | src/assessments/assessment-deadline.util.ts:51-116 | an accepted first start can later be refused for the due date exactly when it was stamped after the deadline and lateness is not allowed |
| Deadlines.AcceptedStartNeverPastDue | src/assessments/assessment-deadline.util.ts:51-116 | with one clock reading an accepted start is never refused for the due date |
| Deadlines.StampedOneMillisecondLate | src/assessments/assessments.service.ts:325-361 | the failure with two readings, on one input |
| Deadlines.RefusedExactlyByTimer | src/assessments/assessment-deadline.util.ts:86-129 | started in time, a submit is refused exactly when it is timed, past duration plus grace, not allowed late and not automatic |
| Deadlines.StartAnswers | src/assessments/assessment-deadline.util.ts:51-76 | a start is refused as submitted exactly for submitted and graded rows, and as late exactly for a new student once the UTC due day is over and lateness is not allowed |
| Deadlines.SubmitAnswers | src/assessments/assessment-deadline.util.ts:86-129 | both refusals and the three marks of a submit, each with its exact condition on due day, start, duration plus two minutes, permission and automatic submit |
| Deadlines.AllowedEarlier | src/assessments/assessment-deadline.util.ts:86-129 | what is allowed at some time is allowed, and no later, at every earlier time |
| Submissions.ScoreAnswers | src/assessments/assessments.service.ts:542-594 | every answer gets its own score and the total is the sum of the answers' scores |
| Submissions.ViolationCounted | src/assessments/assessments.service.ts:414-434 | one more violation moves count, flag and deductions from n violations to n + 1 |
| Submissions.FinalInRange | src/assessments/assessments.service.ts:734-754 | the computed grade is at least 0, and at most the maximum exactly when the maximum is not negative |
| Submissions.ViolationMovesFinal | src/assessments/assessments.service.ts:748-754 | one more violation never raises the computed grade and lowers it by at most the penalty |
| Submissions.EveryRun | src/assessments/assessments.service.ts:387-659 | in every run the violations are counted, the flag and deductions are those past the threshold, and at most one submit is accepted |
| Submissions.StartedIsNeverPastDue | src/assessments/assessments.service.ts:440-499 | in every run a started submission is refused only for its session, its timer or answers that cannot be stored, never for the due date |
| Submissions.NeverBack | src/assessments/assessments.service.ts:292-781 | no call takes the status back or resets the start time, and after submission neither start nor submit has an effect |
| Submissions.NeverBackInRuns | src/assessments/assessments.service.ts:292-781 | the same over any continuation of any run |
| Submissions.LatestSessionOnly | src/assessments/assessments.service.ts:340-361 | after a start any other non-empty session token is turned away, and only such a token |
| Submissions.StartAccepted | src/assessments/assessments.service.ts:292-338 | a start is accepted exactly when published, not yet submitted, and for a new student within the due day or with lateness allowed |
| Submissions.StartRecords | src/assessments/assessments.service.ts:340-385 | a first start makes a clean row; a later one renews the token and sets only a missing start time |
| Submissions.ViolationRecords | src/assessments/assessments.service.ts:414-434 | a violation counts one; past the threshold (0 counts as 1) it flags the row and costs the points if they are positive |
| Submissions.DeductionsOfEveryRun | src/assessments/assessments.service.ts:387-438 | in every run with threshold T the deduction is the points times the violations past T, or nothing |
| Submissions.SubmitAccepted | src/assessments/assessments.service.ts:440-540 | the conditions under which each refusal of a submit is given, and what an accepted one satisfies |
| Submissions.SubmitRecords | src/assessments/assessments.service.ts:542-635 | a submit stores each answer with the points of a matching option, the model's score of a short answer or nothing, their sum, and the two penalties where they apply |
| Submissions.GradeAccepted | src/assessments/assessments.service.ts:691-733 | grading is accepted exactly when there is a row and every given score is for a stored answer |
| Submissions.GradeRecords | src/assessments/assessments.service.ts:734-780 | the stored grade is the override, or the score total less all deductions between 0 and the maximum; answers take the given scores and keep the others |
| Submissions.FinalGradeOfARun | src/assessments/assessments.service.ts:691-780 | graded without overrides, a run's result is the answer total less violation and lateness penalties, clamped |
| Submissions.SubmissionRow.StartAssessment | src/assessments/assessments.service.ts:292-385 | a start is refused unchanged, or creates the row, or renews its token without moving the start time |
| Submissions.SubmissionRow.LogViolation | src/assessments/assessments.service.ts:387-438 | a violation is refused on a graded row, else changes count, flag and deductions only |
| Submissions.SubmissionRow.SubmitAssessment | src/assessments/assessments.service.ts:440-635 | a submit is refused unchanged for session, status, launch, deadline or answers the table does not take, else stores scored answers, total and lateness penalties |
| Submissions.SubmissionRow.GradeSubmission | src/assessments/assessments.service.ts:691-780 | a score for a question without an answer is refused and changes nothing; else the override or the computed grade, the deductions and the given scores are stored |
| ClassLabels.TokenizeIsScan | src/ai/lois-plan-facing.ts:22-32 | on every lowered text the pipeline of regular expressions equals the scanner of maximal letter runs and digit runs |
| ClassLabels.TokenizeJoined | src/ai/lois-plan-facing.ts:22-32 | tokenizing the tokens joined by blanks gives the tokens back |
| ClassLabels.MatchIsTokenPrefix | src/ai/lois-plan-facing.ts:34-43 | a label matches exactly when the query has tokens and they are a prefix of the label's |
| ClassLabels.MatchIsPreorder | src/ai/lois-plan-facing.ts:34-43 | matching is reflexive exactly on labels with tokens, transitive, and mutual exactly for equal token lists that are not empty |
| PendingPlans.ListerAgreesWithGate | src/ai/lois-pending-plan.service.ts:49-111 | the lister returns exactly the plans of the asked kind that the per-plan gate accepts at that instant |
| PendingPlans.ListerExpiresLikeGate | src/ai/lois-pending-plan.service.ts:62-106 | a plan that the lister marks expired is one the gate would mark, and is marked alike |
| PendingPlans.GateAnswers | src/ai/lois-pending-plan.service.ts:40-65 | each answer of the gate with its exact condition on owner, conversation, status and expiry |
| PendingPlans.ListMarksExactly | src/ai/lois-pending-plan.service.ts:78-111 | listing turns exactly the expired proposals of the caller, of the kind asked and of this conversation or none, into EXPIRED ones |
| PendingPlans.HitIsTokenPrefix | src/ai/lois-plan-facing.ts:34-51 | a query names a plan exactly when its tokens begin those of the class label, or of the summary where there is no label |
| PendingPlans.MatchByClassQueries | src/ai/lois-pending-plan.service.ts:113-141 | the trimmed non-empty queries yield every hit in order without repeats, and the queries without a hit |
| PendingPlans.MatchedExactly | src/ai/lois-pending-plan.service.ts:113-141 | no plan is matched twice, and the matched plans are exactly the listed ones that some query names |
| PendingPlans.HitsInOrder | src/ai/lois-pending-plan.service.ts:124-138 | each query adds its new hits in the order of the list |
| PendingPlans.SelectionIs | src/ai/ai-curator-tools.service.ts:478-528 | selected are the accepted plans of the kind, all of them or those that a worded query names; missed are, in order, the worded queries that name none |
| PendingPlans.StepKeeps | src/ai/lois-pending-plan.service.ts:17-111 | propose, apply, cancel and list keep: plans written once, written exactly when APPLIED, no status but PROPOSED ever changes |
| PendingPlans.RunKeeps | src/ai/lois-pending-plan.service.ts:17-111 | over every run APPLIED, CANCELLED and EXPIRED are final and no plan is written twice |
| PendingPlans.ProposedLives | src/ai/lois-pending-plan.service.ts:17-65 | a proposal leaves the others alone and can be applied by its owner until fifteen minutes later and not after |
| PendingPlans.AppliedMarks | src/ai/ai-curator-tools.service.ts:433-476 | an accepted plan whose write succeeds is APPLIED and recorded as written; after a failed write nothing has changed |
| PendingPlans.CancelMarks | src/ai/lois-pending-plan.service.ts:71-76 | an accepted cancellation sets that plan to CANCELLED and nothing else |
| PendingPlans.CancelledForGood | src/ai/lois-pending-plan.service.ts:40-76 | over any continuation of a run a cancelled plan is never written, and the gate tells its owner that it was cancelled |
| PendingPlans.AppliedForGood | src/ai/lois-pending-plan.service.ts:40-69 | over any continuation of a run an applied plan stays written once, and the gate tells its owner so |
| PendingPlans.RunConcat | src/ai/ai-curator-tools.service.ts:530-555 | a run of two parts is the second part run from where the first ended |
| PendingPlans.BulkedWrites | src/ai/ai-curator-tools.service.ts:530-555 | the writes of a bulk request are those of the selected plans that succeed on their own, in order |
| PendingPlans.BulkAppliesSelection | src/ai/ai-curator-tools.service.ts:478-577 | no plan is selected twice; each selected one is applied or reported; it is applied exactly when permitted, not yet expired at its turn and written |
| PendingPlans.PlanService.Create | src/ai/lois-pending-plan.service.ts:17-38 | a new plan is PROPOSED for fifteen minutes, and the gate accepts it for its owner |
| PendingPlans.PlanService.GetActive | src/ai/lois-pending-plan.service.ts:40-65 | the gate's errors in order; only an expired plan's status is changed |
| PendingPlans.PlanService.ApplyPlan | src/ai/ai-curator-tools.service.ts:433-476 | a plan is written and marked APPLIED exactly when the gate accepts it, its conditions hold and its write succeeds |
| PendingPlans.PlanService.Cancel | src/ai/lois-pending-plan.service.ts:71-76 | a plan is CANCELLED, every other row unchanged, exactly when the gate accepts it in any conversation; otherwise only an expired plan is marked |
| PendingPlans.PlanService.ListActive | src/ai/lois-pending-plan.service.ts:78-111 | the listed plans in creation order, with the expired ones among them marked |
| PendingPlans.PlanService.ApplyEach | src/ai/ai-curator-tools.service.ts:530-555 | the loop applies the selected plans in order; those that succeed are returned as applied, the others as failed |
| PendingPlans.PlanService.ApplyPendingPlans | src/ai/ai-curator-tools.service.ts:478-577 | applied and failed together are the selected plans and the unmatched queries; what was written outside is exactly what is reported applied |
| CivilDate.DayDateDay | src/ai/lois-calendar-range.ts:76-80 | day number to civil date and back is the identity on all days |
| CivilDate.DateDayDate | src/ai/lois-calendar-range.ts:76-80 | civil date to day number and back is the identity on all valid dates |
| CivilDate.DayOrder | src/ai/ai-school-query.service.ts:1432-1432 | later days have later dates |
| CivilDate.NextDay | src/ai/lois-calendar-range.ts:76-80 | the day after a date is the next of its month, or the first of the next month or year; with DayZero and MonthTable this fixes the calendar |
| CalendarWindow.YearRange | src/ai/lois-calendar-range.ts:76-80 | the bounds on day numbers used below are the first days of the years 0, 100, 1000 and 10000 |
| CalendarWindow.AddDaysExact | src/ai/lois-calendar-range.ts:76-80 | adding days to the text of a day of the years 0 to 9999 gives the text of the later day exactly when the first is not before the year 100 and the second not before the year 1000 |
| CalendarWindow.AddDaysAnywhere | src/ai/lois-calendar-range.ts:76-80 | from the year 100 on any number of days may be added: the result is the printed date, or NaN-NaN-NaN past 100 million days around day 0 |
| CalendarWindow.AddDaysAdditive | src/ai/lois-calendar-range.ts:76-80 | adding days is additive and undone by subtracting them, across months and leap years |
| CalendarWindow.TextOrderIsDayOrder | src/ai/ai-school-query.service.ts:1432-1432 | on YYYY-MM-DD text, string order is day order |
| CalendarWindow.MondayOfWeekIsMonday | src/ai/lois-calendar-range.ts:82-89 | the result is the text of the Monday on or before the day, at most six days back |
| CalendarWindow.WeekWindows | src/ai/lois-calendar-range.ts:112-132 | this week is Monday to Sunday around today, also by default; next week starts the day after it ends |
| CalendarWindow.OtherWindows | src/ai/lois-calendar-range.ts:112-132 | today is the day itself; given dates are taken as they are, a missing start is today, and a missing end is seven days after the start |
| CalendarWindow.InWindowByText | src/ai/ai-school-query.service.ts:1432-1432 | comparing texts decides whether a day lies in the window |
| CalendarEvents.QueriedIsOverlap | src/ai/ai-school-query.service.ts:1389-1398 | the three-way filter finds every overlapping event, and is overlap exactly when the event does not end before it starts around an end of the range |
| CalendarEvents.FetchIs | src/ai/ai-school-query.service.ts:1389-1420 | fetched is the prefix, as long as the limit allows, of the events that meet the days from local midnight to the last second |
| CalendarEvents.NarrowingIsQuerying | src/ai/ai-school-query.service.ts:1432-1463 | narrowing the window's events to a day inside it equals querying that day |
| CalendarEvents.NamedDates | src/ai/ai-school-query.service.ts:1422-1477 | each named day, with its date, is answered from the first thirty events of the window if it lies inside, otherwise by its own query of at most ten |
| CalendarEvents.InsideAnswerIsDirectAnswer | src/ai/ai-school-query.service.ts:1389-1464 | with an uncut window the answer for a day inside shows all of its events, and equals the day's own query exactly when that is not cut off |
| SowGaps.PartitionArmsForWeek | src/ai/lois-sow-gap.ts:98-128 | outstanding and delivered arms are the unsettled and the settled ones, in order, with the last recorded status or PENDING |
| SowGaps.SettledExactly | src/ai/lois-sow-gap.ts:98-128 | an arm is settled exactly when its last delivery says DELIVERED, SKIPPED or COMBINED, or the week is marked as a whole and no delivery names an arm |
| SowGaps.ShownAs | src/ai/lois-sow-gap.ts:114-127 | an arm is listed with the status of its last delivery, else as PENDING, and unchanged when the whole week was marked |
| SowGaps.PartitionInterleaves | src/ai/lois-sow-gap.ts:98-128 | the two lists interleave to the arms: none lost, none twice, order kept |
| SowGaps.NothingOutstanding | src/ai/lois-sow-gap.ts:98-128 | nothing is outstanding exactly when every arm is settled |
| SowGaps.FingerprintInjective | src/ai/ai-insights.service.ts:681-681 | two fingerprints are equal exactly for the same scheme and week |
| SowGaps.VisitsShowData | src/ai/ai-insights.service.ts:191-228 | a run rewrites what cards say but never when they were seen, and leaves the other cards alone |
| SowGaps.OneRun | src/ai/ai-insights.service.ts:545-687 | one run files at most fifteen of the due cards, and all that are missing if they are fewer |
| SowGaps.RunsFile | src/ai/ai-insights.service.ts:545-687 | on stable data k runs hold min(N, held + 15k) of the N due cards, and no other card comes or goes |
| SowGaps.OneCardPerWeek | src/ai/ai-insights.service.ts:545-687 | there are as many due cards as undelivered scheme weeks |
| SowGaps.MissingExactlyDue | src/ai/ai-insights.service.ts:545-640 | a week gets a card exactly when its scheme is among the first forty and some arm is not settled, or it has no arm and the week is not marked |
| SowGaps.VisitsRefresh | src/ai/ai-insights.service.ts:191-228 | a run below its limit leaves every due card with the content of this run |
| SowGaps.FiledAfterRuns | src/ai/ai-insights.service.ts:545-687 | from none, k runs leave min(N, 15k) cards, all after N / 15 runs rounded up, one for each undelivered scheme week |
| SowGaps.InsightDesk.UpsertInsight | src/ai/ai-insights.service.ts:191-228 | the card's row is written with its seen time kept, no other row changes, and it is reported as created exactly when it was absent |
| SowGaps.InsightDesk.CaptureSowGaps | src/ai/ai-insights.service.ts:545-687 | the nested loops with their early return visit the weeks in order and stop once fifteen cards are new |

## Left out

- Language-model calls, prompts, document extraction, embeddings, credits, metrics, notifications and logging: their
  outputs are arbitrary parameters.
- Interleavings inside one call: every call reads and writes in one step, except that a pick-up and the end of its
  attempt are two steps and a first start has two clock readings.
- Queue internals: the length of the back-off, retention, a lock that is lost while its worker still runs, and how often
  a job may stall (whether the queue gives up on it is a parameter).
- SourceQueue.CancelStep: which of several jobs of a source in the same phase is found first is not determined, and
  whether a job that is active is locked is a parameter.
- Deleting sources and curricula, hand edits of topics other than adding and deleting one, the statuses APPROVED and REJECTED, and the batch look-up of
  sources.
- The consolidation queue's job ids, and the branch that creates a curriculum when the job names none: a curriculum
  exists before it is consolidated.
- `buildTopicStableKey`: the preferred key is a parameter, assumed not empty.
- Fields that no property needs: term titles and summaries, the overview's text, links, prompts and titles of cards.
- Malformed JSON, and term or week numbers that are not integers.
- Lower-casing and case-insensitive patterns are ASCII; other letters separate tokens in class labels. The source
  lowers all of Unicode first, which matters only for the few letters whose lower case is ASCII.
- Matching the text of a multiple-choice answer and grading short answers: whether an option matches and the model's
  score are parameters.
- Floating point: scores are real numbers. Scores that are not numbers are not modelled.
- Inferring the calendar preset from a message, extracting the spoken dates from it, invalid dates among them, and the
  limit on the length of a window: the preset and the valid named days are parameters.
- CalendarWindow.WeekWindows: today is given with four-digit years around it, as the windows are only used for the
  present.
- Permission checks and subscriptions: whether a plan's writer is permitted is a parameter.
- PendingPlans.PlanService.ApplyPlan: a write that succeeds while marking the plan fails is not modelled, because the
  call is one step.
- The order in which the database returns published schemes: it is the given one.
- The text of titles, summaries and prompts of gap cards.
- The use of the topped-up weeks: packing them onto the calendar and matching them to library and school topics.
