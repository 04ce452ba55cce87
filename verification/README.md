# A verified model of the evaluation platform

The platform runs experiments over dataset versions: any number of workers lease
tasks, call a model provider, record samples, costs and metric outcomes, and an API
aggregates the results. Around that protocol sit exact algorithms: edit distance,
nDCG, p-value adjustment, an exact permutation test, dataset diffs, sampling,
canonical hashing, pair designs and a judge retry loop. This project models both in
Dafny and proves what they are for.

`dafny verify dfyconfig.toml` checks everything.

## How it is organised

| files | contents |
|---|---|
| `Execution`, `RunLedger`, `RunRepository`, `ExperimentService`, `Worker` | the run protocol: the state machine, each repository method as a function on the stored rows, the repository as a class that updates them in place, run creation, and the worker loop |
| `RunProtocol`, `RunSafety`, `RunView`, `RunBudget`, `RunMetrics` | what every interleaving of those methods keeps: counters, records, event log, run states, completion, budget, metric denominators; and the view of a run that its stored state follows step by step |
| `EditDistance`, `Ndcg`, `Multiplicity`, `PermutationTest`, `Averages` | metrics and statistics in exact arithmetic |
| `JsonValues`, `JsonPointers`, `DatasetDiffs`, `Apportionment`, `Sampling`, `Datasets` | dataset operations |
| `Strings`, `Canonicalization`, `Renormalization`, `NormalMeaning`, `Framing`, `RecordHashing` | normalization and content identity |
| `PairDesign`, `PairIdentities`, `Judge` | pairwise designs and judge calls |
| `Ordering`, `Counting`, `Results` | sorting, counting and result types shared by the rest |

Code that updates state or loops is a class or a method with loops, proved against a
specification function; expressions and recursion are functions. The specification
functions carry no contracts of their own: what they mean is stated by the lemmas.

## Assumptions

- Each repository method is one atomic step on one run, taken by an arbitrary
  scheduler that picks the worker, the clock, the locked rows and the order. The
  worker's run-state check and its claim are one step, and so are its budget check
  and its move to running.
- Reads inside a step see that step's own earlier writes. Sessions are built with
  `autoflush=False` (`packages/infrastructure/src/eval_platform_infrastructure/database.py:53`),
  so this is the intended meaning rather than what an unflushed session gives.
- `Protocol(actions)` excludes only explicit transitions to an arbitrary state: the
  workers and the API ask for no transition other than those the modelled methods make.
  Counters, records and the event log are proved without that restriction.
- A metric plugin reports its own identifier and version (`Honest`).
- Floats and decimals are exact reals, or integers over a common denominator.
- Hashes, shuffles, tie bits, Unicode normalization, timestamp rendering, JSON
  serialization and schema validation are arbitrary functions. Laws they must obey
  are named predicates (`Lawful`, `GainLaw`, `DiscountLaw`, `OrderBlind`, `TellsKeysApart`).
  Absence of hash collisions is asked of the strings at hand only (`CollisionFree`,
  `NoHashCollision`, `PayloadsDoNotCollide`).
- A schema repeats no property name, as no Python mapping does (`DistinctNames`).
- Timestamp rendering is assumed idempotent. Years before 1000 may break this where
  `strftime` does not pad the year.
- Distinct record keys, which publication enforces, are a premise of the hashing and
  sampling results that need them.

## What the code does that a reader might not expect

- The budget check reserves nothing, although `docs/design/requirement-traceability-matrix.md:127`
  promises atomic reservations. With at most W tasks running at once, spending
  passes the limit by at most W - 1 estimates, and that bound is attained
  (`RunBudget.OvershootIsAttained`).
- Pausing while the last active task is in flight leads to a paused run with every
  task settled. It can then only wait or be cancelled; it never completes
  (`RunSafety.StrandedIsReachable`, `RunSafety.StrandedNeverCompletes`).
- A metric row that succeeded without a scalar is counted nowhere, and the reported
  counts fall short of the total by exactly these rows (`RunMetrics.DenominatorsAddUp`).
  A suite that names a metric twice can never record a success.
- A dataset diff records a member set to null exactly as it records a removed member,
  and does not record a change between `true` and 1, which Python calls equal. A
  changed document that is not an object on both sides is written `/`, which names the
  member with the empty key. The record diff does not look at provenance, so a record
  may be modified with no listed change.
- `docs/concepts/versioned-datasets.md:26-28` says that null is removed for optional
  properties. The code fills null in, and never looks at `required`
  (`Canonicalization.AbsentIsNull` has no premise about it).
- Members are stored under normalized keys, but a missing property is filled in under
  its name as the schema spells it. A normalization is therefore final if and only if it
  fills in no name that is not normalized (`WritesRawName`). When it does, the second pass
  fails or adds the normalized name beside the raw one, and then the third pass fails.
  Such a record stores one payload and records the hash of another. The schemas under
  which this can happen are characterised exactly (`StableSchema`): unnormalized names
  are harmless where no null or default is filled in for them, and where a default that
  is in error keeps every mapping from being normalized at all.
- Pair identifiers join their parts with an unescaped bar, so, as long
  as the hash does not collide, a valid request fails exactly when two of the cells it
  compares spell the same text. Names without bars never do;
  the four variants `a`, `b|c`, `a|b` and `c` make every full design fail, whatever the
  hash.

## Model

| member | source | states |
|---|---|---|
| `Execution.EvaluationRun.Transition` | packages/domain/src/eval_platform_domain/execution.py:88-97 | a legal transition sets the state and advances the version by one; an illegal one raises and changes nothing |
| `Execution.TerminalHasNoExit` | packages/domain/src/eval_platform_domain/execution.py:31-60 | the states listed as terminal are exactly those the transition table lets nothing leave |
| `Execution.CancellingOnlyCancels` | packages/domain/src/eval_platform_domain/execution.py:40-60 | on any path of the table, after CANCELLING comes at most CANCELLED, and nothing after that |
| `Execution.ReachedFromExactly` | packages/domain/src/eval_platform_domain/execution.py:40-60 | which states lead to each state: among others that a paused run can be queued again |
| `ExperimentService.CreateRun` | packages/application/src/eval_platform_application/experiments.py:180-232 | fails exactly when repetitions are outside 1 to 100; otherwise the stored run is the queued initial state with one pending row per record and repetition |
| `ExperimentService.NaturalKeysAreUnique` | packages/application/src/eval_platform_application/experiments.py:200-221 | distinct record keys give distinct natural keys, exactly one for every record and repetition |
| `RunRepository.SqlExperimentRepository.AddRun` | packages/infrastructure/src/eval_platform_infrastructure/run_repository.py:150-189 | a run queued by creation is stored as the specification's initial state, event log 0 to 2 included |
| `RunRepository.SqlExperimentRepository.TransitionRun` | packages/infrastructure/src/eval_platform_infrastructure/run_repository.py:234-279 | the updated rows are the specified ones, or it raises and changes nothing |
| `RunRepository.SqlExperimentRepository.ClaimNextTask` | packages/infrastructure/src/eval_platform_infrastructure/run_repository.py:281-310 | leases an unlocked row that is pending or whose lease has expired and that no other such row precedes, or nothing if there is none |
| `RunRepository.SqlExperimentRepository.MarkTaskRunning` | packages/infrastructure/src/eval_platform_infrastructure/run_repository.py:312-333 | only the lease owner's leased row starts, with one more attempt row; otherwise a conflict |
| `RunRepository.SqlExperimentRepository.CompleteTaskSuccess` | packages/infrastructure/src/eval_platform_infrastructure/run_repository.py:335-425 | the sample, metric and cost rows, the row's state, the counter, the cost and the finalization are the specified ones in every branch |
| `RunRepository.SqlExperimentRepository.CompleteTaskFailure` | packages/infrastructure/src/eval_platform_infrastructure/run_repository.py:427-474 | any unsettled row fails with its records and counter; a settled one is left alone |
| `RunRepository.SqlExperimentRepository.CancelRun` | packages/infrastructure/src/eval_platform_infrastructure/run_repository.py:476-521 | open rows are cancelled and counted, and the run is cancelled at once when nothing is running |
| `RunRepository.SqlExperimentRepository.FinalizeIfSettled` | packages/infrastructure/src/eval_platform_infrastructure/run_repository.py:523-544 | pausing runs pause when nothing is active; otherwise a fully settled run takes its final state |
| `RunRepository.SqlExperimentRepository.PauseRun` | packages/infrastructure/src/eval_platform_infrastructure/run_repository.py:546-570 | only a running run pauses, at once when nothing is active |
| `RunRepository.SqlExperimentRepository.ResumeRun` | packages/infrastructure/src/eval_platform_infrastructure/run_repository.py:572-584 | a paused run is queued again, any other state raises |
| `RunLedger.FirstClaimable` | packages/infrastructure/src/eval_platform_infrastructure/run_repository.py:289-304 | the chosen row is unlocked and claimable; none is chosen only if there is none |
| `RunLedger.FirstClaimableIsFirst` | packages/infrastructure/src/eval_platform_infrastructure/run_repository.py:289-304 | whenever an unlocked row is claimable one is chosen, and it comes no later in the order by record key and repetition |
| `RunLedger.ClaimTakesExactly` | packages/infrastructure/src/eval_platform_infrastructure/run_repository.py:281-310 | by state, expiry and clock: a row is taken if and only if some unlocked row is pending, or leased or running with an expiry before now; it is the first of those by record key and repetition, it is leased to the new owner from now on, and every other row, under a live lease or not, stays as it is |
| `RunView.DeadWorkersTaskIsReclaimed` | packages/infrastructure/src/eval_platform_infrastructure/run_repository.py:289-310 | a task claimed and started by a worker that dies stays with it while its 120 seconds run and goes to another worker afterwards |
| `RunView.StepMoves` | packages/infrastructure/src/eval_platform_infrastructure/run_repository.py:234-584 | every repository step, errors included, moves the view of the run (who has which task, what each ended with) as a specification without counters, logs or records says: who may start a task, what a settlement makes of the run, what pausing, resuming and cancelling do |
| `RunView.EveryRunMovesAsViewed` | packages/infrastructure/src/eval_platform_infrastructure/run_repository.py:150-584 | from a new run on, every sequence of steps is a sequence of such moves; what was spent is the sum over the answered tasks, and the attempts of each task are numbered in order |
| `RunProtocol.SuccessKeepsLedger` | packages/infrastructure/src/eval_platform_infrastructure/run_repository.py:354-425 | while the records match the rows, completing a running row never meets an existing sample: that branch is dead |
| `RunProtocol.CancelKeepsLedger` | packages/infrastructure/src/eval_platform_infrastructure/run_repository.py:493-520 | cancelling keeps the counters equal to the rows by state and the records matched to the rows |
| `RunProtocol.ActionKeepsLedger` | packages/infrastructure/src/eval_platform_infrastructure/run_repository.py:234-584 | so does every step, even an arbitrary transition |
| `RunSafety.CountersAreTheCensus` | packages/infrastructure/src/eval_platform_infrastructure/run_repository.py:281-584 | in every reachable state the three counters are the numbers of rows in those states, never sum above the total, and reach it exactly when everything is settled |
| `RunSafety.SettledAtMostOnce` | packages/infrastructure/src/eval_platform_infrastructure/run_repository.py:335-474 | in every reachable state each succeeded row has exactly one sample and one cost record, each failed row one sample and one failure record, every other row none, and the actual cost is the sum of the cost records |
| `RunSafety.SettledRowIsFinal` | packages/infrastructure/src/eval_platform_infrastructure/run_repository.py:289-310 | a settled row is claimable at no time, and no step changes it |
| `RunSafety.SettledForever` | packages/infrastructure/src/eval_platform_infrastructure/run_repository.py:281-584 | nor does any sequence of steps |
| `RunSafety.EventLogIsGapFree` | packages/infrastructure/src/eval_platform_infrastructure/run_repository.py:176-279 | in every reachable state the event log is numbered from 0 without gaps, starts at DRAFT, chains each source to the previous target through legal transitions, ends in the run's state, and its length is the version stamp |
| `RunSafety.RunStateConstrainsTasks` | packages/infrastructure/src/eval_platform_infrastructure/run_repository.py:476-570 | what each run state says about its rows, in every reachable state: nothing active when queued or paused, all succeeded when completed, failures and no cancellations when completed with errors, everything settled when cancelled |
| `RunSafety.TerminalForever` | packages/infrastructure/src/eval_platform_infrastructure/run_repository.py:281-584 | a run once cancelled or completed is unchanged by any later steps |
| `RunSafety.TerminalIsStuck` | packages/infrastructure/src/eval_platform_infrastructure/run_repository.py:281-584 | each single later step is rejected or changes nothing |
| `RunSafety.CompletesExactly` | packages/infrastructure/src/eval_platform_infrastructure/run_repository.py:523-544 | a step other than cancelling completes a run if and only if it settles the last row while the run is RUNNING |
| `RunSafety.CancelNeverCompletes` | packages/infrastructure/src/eval_platform_infrastructure/run_repository.py:476-521 | cancelling never completes a run, whatever has settled |
| `RunSafety.StrandedNeverCompletes` | packages/infrastructure/src/eval_platform_infrastructure/run_repository.py:523-584 | a run that is not running when everything is settled only waits or is cancelled, under any later steps |
| `RunSafety.StrandedIsReachable` | packages/infrastructure/src/eval_platform_infrastructure/run_repository.py:523-570 | pausing while the last row is in flight leads there, although it then succeeds |
| `RunBudget.OvershootIsBounded` | apps/worker/src/eval_platform_worker/tasks.py:146-170 | in every reachable state, with at most W rows running at once and every cost within an estimate of at most E, the cost is at most the limit plus (W - 1) times E |
| `RunBudget.OneWorkerNeverOverspends` | apps/worker/src/eval_platform_worker/tasks.py:157-170 | with one row running at a time the cost never passes the limit |
| `RunBudget.OvershootIsAttained` | apps/worker/src/eval_platform_worker/tasks.py:157-170 | for every W and E, some schedule in which W workers claim and start one row each, nobody holding a lock, spends exactly that bound |
| `RunMetrics.DenominatorsAddUp` | apps/api/src/eval_platform_api/routes/metrics.py:79-121 | in every reachable state the four reported counts plus the succeeded rows without a scalar make the total, so they add up if and only if there are none |
| `RunMetrics.ReportedMetrics` | apps/api/src/eval_platform_api/routes/metrics.py:79-106 | a metric is reported exactly when the suite names it and something has succeeded |
| `RunMetrics.CountsAreTasks` | apps/api/src/eval_platform_api/routes/metrics.py:79-121 | in every reachable state each reported count is a number of tasks: those answered with a scalar, those missing or cancelled, those failed or with a failed metric, and those still open |
| `RunMetrics.ValueIsMean` | apps/api/src/eval_platform_api/routes/metrics.py:84-87 | the reported value is the mean of the available scalars, and there is one exactly when some are available |
| `RunMetrics.RepeatedMetricNeverSucceeds` | packages/infrastructure/src/eval_platform_infrastructure/run_repository.py:385-404 | with a metric named twice the unique constraint makes every success fail and change nothing |
| `Worker.EvaluateSuite` | apps/worker/src/eval_platform_worker/tasks.py:231-260 | one outcome per suite entry, failed when the plugin raises, missing when flagged, else succeeded, under the entry's own identity |
| `Worker.ClaimTurn` | apps/worker/src/eval_platform_worker/tasks.py:118-133 | the loop's claim is the protocol's claim step |
| `Worker.StartTask` | apps/worker/src/eval_platform_worker/tasks.py:151-170 | starts the row exactly when cost plus estimate is within the limit, and otherwise settles it as failed |
| `Worker.SettleTask` | apps/worker/src/eval_platform_worker/tasks.py:172-270 | the row ends failed if and only if the provider raised; on an answer it ends succeeded with one more cost record over the reported cost, or the estimate when none is reported, the actual cost grown by it, and the metric records that the registry gives; it raises, and changes nothing, only when the suite repeats a metric |
| `Worker.ExecuteTurn` | apps/worker/src/eval_platform_worker/tasks.py:135-270 | one turn is a sequence of protocol steps that settles the claimed row: refused exactly when the estimate no longer fits the budget, failed when the provider raised, else answered at its cost; it keeps the budget |
| `Worker.ExecuteRun` | apps/worker/src/eval_platform_worker/tasks.py:97-272 | the loop terminates, performs only protocol steps, never overspends alone, changes nothing unless the run is queued or running, stops on a running run only when nothing can be claimed, and leaves a run that had work completed; of every row it settled the records tell how; and if every task is answered within the budget the run is completed and has cost the sum of the charges |
| `Worker.SomethingClaimable` | apps/worker/src/eval_platform_worker/tasks.py:126-129 | when nothing is in flight and something is unsettled the claim finds it, so an undisturbed loop ends only when all is settled |
| `EditDistance.LevIsLeastCost` | packages/metrics/src/eval_platform_metrics/language.py:253-254 | the recursive distance is the least number of insertions, deletions and substitutions that turns one sequence into the other |
| `EditDistance.LevSymmetric` | packages/metrics/src/eval_platform_metrics/language.py:256-257 | it is symmetric, which is what the argument swap relies on |
| `EditDistance.LevZero` | packages/metrics/src/eval_platform_metrics/language.py:253-270 | it is zero exactly on equal sequences |
| `EditDistance.LevTriangle` | packages/metrics/src/eval_platform_metrics/language.py:253-270 | it satisfies the triangle inequality |
| `EditDistance.LevBounds` | packages/metrics/src/eval_platform_metrics/language.py:253-270 | it is at least the difference and at most the larger of the lengths |
| `EditDistance.NextRow` | packages/metrics/src/eval_platform_metrics/language.py:260-269 | the inner loop turns the distances of a prefix to all prefixes into those of the next prefix |
| `EditDistance.EditDistance` | packages/metrics/src/eval_platform_metrics/language.py:253-270 | the two-row loop, swap included, returns that distance |
| `EditDistance.ErrorRate` | packages/metrics/src/eval_platform_metrics/language.py:273-288 | both error rates: distance over reference length, zero exactly on equality, one for a spurious prediction |
| `Ndcg.DcgAtMostIdeal` | packages/metrics/src/eval_platform_metrics/rag.py:122-133 | no retrieved list, repeats included, has a discounted sum above the ideal one, for any gains, monotone gain transform and non-increasing positive discount |
| `Ndcg.RatioNeedsNoClamp` | packages/metrics/src/eval_platform_metrics/rag.py:133-133 | the ratio lies between 0 and 1 before the clamp |
| `Ndcg.IdealVanishes` | packages/metrics/src/eval_platform_metrics/rag.py:122-126 | the ideal sum is zero exactly when no labelled gain is positive |
| `Ndcg.IdealOrderIsIdeal` | packages/metrics/src/eval_platform_metrics/rag.py:122-133 | retrieving the labelled items best first attains the ideal |
| `Ndcg.DiscountedGain` | packages/metrics/src/eval_platform_metrics/rag.py:127-132 | the loop over ranks sums the gain of each first occurrence, discounted by its rank |
| `Ndcg.NdcgAtK` | packages/metrics/src/eval_platform_metrics/rag.py:113-133 | raises exactly for k below 1, is missing exactly when nothing is relevant, and is otherwise that ratio |
| `Ndcg.RetrievedAt` | packages/metrics/src/eval_platform_metrics/rag.py:113-133 | each of the first k documents counts for its label, or nothing if that is negative, missing or a repeat |
| `Ndcg.SingleRelevant` | packages/metrics/src/eval_platform_metrics/rag.py:113-133 | with one relevant document the value is the discount of the rank it is first found at over that of rank 1, and zero beyond rank k |
| `Multiplicity.HolmIsStepDown` | packages/statistics/src/eval_platform_statistics/multiplicity.py:24-29 | Holm's adjusted value is at most alpha if and only if every hypothesis ranked up to it passes its step-down threshold |
| `Multiplicity.BhIsStepUp` | packages/statistics/src/eval_platform_statistics/multiplicity.py:31-36 | Benjamini-Hochberg's is if and only if some hypothesis ranked at or after it passes its step-up threshold |
| `Multiplicity.AdjustmentsAreOrdered` | packages/statistics/src/eval_platform_statistics/multiplicity.py:21-36 | raw, Benjamini-Hochberg, Holm, Bonferroni and 1 are in ascending order pointwise |
| `Multiplicity.TiesAgree` | packages/statistics/src/eval_platform_statistics/multiplicity.py:20-36 | tied p-values get equal adjusted values |
| `Multiplicity.HolmAdjust` | packages/statistics/src/eval_platform_statistics/multiplicity.py:24-29 | the running-maximum loop fills in Holm's value for every key |
| `Multiplicity.BhAdjust` | packages/statistics/src/eval_platform_statistics/multiplicity.py:31-36 | the backward running-minimum loop fills in Benjamini-Hochberg's value for every key |
| `Multiplicity.BonferroniAdjust` | packages/statistics/src/eval_platform_statistics/multiplicity.py:21-22 | one capped product per key |
| `Multiplicity.AdjustPValues` | packages/statistics/src/eval_platform_statistics/multiplicity.py:8-37 | the error cases in order, and otherwise the chosen method's values on the sorted family |
| `Multiplicity.AdjustedValueDecides` | packages/statistics/src/eval_platform_statistics/multiplicity.py:19-36 | comparing a returned value with alpha runs the textbook procedure at level alpha |
| `Multiplicity.AdjustedByName` | packages/statistics/src/eval_platform_statistics/multiplicity.py:8-37 | which procedure each method name runs, on the p-values in ascending order, with values between zero and one |
| `Multiplicity.ListingOrderIrrelevant` | packages/statistics/src/eval_platform_statistics/multiplicity.py:20-36 | the result does not depend on the order the mapping lists its p-values |
| `PermutationTest.EnumerationGivesSums` | packages/statistics/src/eval_platform_statistics/hypothesis.py:189-194 | the enumeration of all sign vectors gives the sums of all flipped samples, in order |
| `PermutationTest.EveryFlipOnce` | packages/statistics/src/eval_platform_statistics/hypothesis.py:187-197 | the enumeration has every vector of signs exactly once |
| `PermutationTest.FlipAt` | packages/statistics/src/eval_platform_statistics/hypothesis.py:191-192 | a flipped sample is the differences times their signs |
| `PermutationTest.PValueIsShareOfFlips` | packages/statistics/src/eval_platform_statistics/hypothesis.py:187-197 | the p-value is the share of all 2^n sign vectors whose flipped sum is at least as extreme as the observed one, for each alternative |
| `PermutationTest.ObservedIsMeanDifference` | packages/statistics/src/eval_platform_statistics/hypothesis.py:173-187 | the observed value is the mean over the differing pairs, right minus left, and the counts are those of all and of the differing pairs |
| `PermutationTest.TestFailsExactly` | packages/statistics/src/eval_platform_statistics/hypothesis.py:171-171 | only unequal or empty samples are refused |
| `PermutationTest.UpperTail` | packages/statistics/src/eval_platform_statistics/hypothesis.py:336-350 | the upper tail count is the recursive count over first signs |
| `PermutationTest.LowerTail` | packages/statistics/src/eval_platform_statistics/hypothesis.py:336-350 | the lower tail of a threshold is the upper tail of its mirror image: the null distribution is symmetric |
| `PermutationTest.TwoSidedIsDouble` | packages/statistics/src/eval_platform_statistics/hypothesis.py:187-214 | the two-sided p-value is 1 when the observed mean is 0 and otherwise exactly twice the one-sided value in the observed direction, so never below 2 over 2^n, for every n |
| `PermutationTest.UnanimousIncrease` | packages/statistics/src/eval_platform_statistics/hypothesis.py:173-214 | when the right value is larger in every pair the observed mean is positive and the test for greater gives the least possible value, 1 over 2^n |
| `PermutationTest.PairOrderIrrelevant` | packages/statistics/src/eval_platform_statistics/hypothesis.py:161-214 | reordering the pairs changes nothing in the result |
| `JsonPointers.DecodeEncode` | packages/domain/src/eval_platform_domain/dataset_operations.py:31-32 | reading a written pointer as section 3 of RFC 6901 says gives back the member path |
| `JsonPointers.EscapeHead` | packages/domain/src/eval_platform_domain/dataset_operations.py:30-30 | a tilde is written ~0, a slash ~1, every other character as it is |
| `JsonPointers.EncodeInjective` | packages/domain/src/eval_platform_domain/dataset_operations.py:31-32 | escaped pointers identify distinct paths |
| `JsonValues.PyEqualIsSameValue` | packages/domain/src/eval_platform_domain/dataset_operations.py:26-26 | documents are equal if and only if they agree case by case: booleans are 1 and 0, numbers and strings compare by value, lists item by item, mappings member by member, and nothing else is equal |
| `Ordering.StringLeqExactly` | packages/domain/src/eval_platform_domain/dataset_operations.py:29-29 | sorting compares strings by the code points at their first difference, a prefix first |
| `DatasetDiffs.ComputeFieldChanges` | packages/domain/src/eval_platform_domain/dataset_operations.py:25-40 | the recursive loop over the sorted key union computes the specified changes |
| `DatasetDiffs.PatchGives` | packages/domain/src/eval_platform_domain/dataset_operations.py:25-40 | applying the changes to the old object, pointer by pointer, rebuilds it member by member |
| `DatasetDiffs.DiffThenPatch` | packages/domain/src/eval_platform_domain/dataset_operations.py:25-40 | it gives exactly the new object if and only if no changed or added member is null and Python's equality hides no difference |
| `DatasetDiffs.DiffThenPatchUpToEquality` | packages/domain/src/eval_platform_domain/dataset_operations.py:25-40 | up to Python's equality it does if and only if no changed or added member is null |
| `DatasetDiffs.NullFreeDiffThenPatch` | packages/domain/src/eval_platform_domain/dataset_operations.py:25-40 | on null-free objects the diff always reproduces its target |
| `DatasetDiffs.NullLooksRemoved` | packages/domain/src/eval_platform_domain/dataset_operations.py:33-36 | a member set to null is recorded exactly as its removal |
| `DatasetDiffs.EmptyDiff` | packages/domain/src/eval_platform_domain/dataset_operations.py:25-27 | the list is empty exactly when the documents are equal as Python compares them, case by case |
| `DatasetDiffs.PointersDiffer` | packages/domain/src/eval_platform_domain/dataset_operations.py:29-39 | no two changes of an object diff share a pointer |
| `DatasetDiffs.RootChangeIsAmbiguous` | packages/domain/src/eval_platform_domain/dataset_operations.py:40-40 | a changed non-object document is written as the pointer of the member with the empty key |
| `DatasetDiffs.FieldChangesFlip` | packages/domain/src/eval_platform_domain/dataset_operations.py:25-40 | diffing the other way round swaps before and after in every change and nothing else |
| `DatasetDiffs.DiffVersions` | packages/domain/src/eval_platform_domain/dataset_operations.py:43-76 | the loop yields one specified entry per key of the union, in key order |
| `DatasetDiffs.EntriesPartitionKeys` | packages/domain/src/eval_platform_domain/dataset_operations.py:46-75 | every key of either version is listed exactly once, in order, added, removed, unchanged or modified as its records and hashes say; only modified entries list changes, and those are the changes of the envelopes |
| `DatasetDiffs.EnvelopeChangesByPart` | packages/domain/src/eval_platform_domain/dataset_operations.py:57-74 | a modified entry lists the changes of metadata, payload and splits, in this order, each under its own name |
| `DatasetDiffs.ByKeyHoldsLast` | packages/domain/src/eval_platform_domain/dataset_operations.py:46-47 | a key stands for its last record |
| `DatasetDiffs.SwappedVersions` | packages/domain/src/eval_platform_domain/dataset_operations.py:43-76 | swapping the versions swaps added and removed, keeps modified and unchanged, and flips every field change |
| `DatasetDiffs.EmptyModification` | packages/domain/src/eval_platform_domain/dataset_operations.py:57-74 | a modified record lists no change exactly when payload, metadata and splits are equal |
| `Apportionment.Apportion` | packages/domain/src/eval_platform_domain/dataset_operations.py:119-130 | the two loops over labels compute the specified quotas |
| `Apportionment.LeftoverFits` | packages/domain/src/eval_platform_domain/dataset_operations.py:129-130 | the seats left over are non-negative, fit the ranked strata, and each goes to a positive remainder |
| `Apportionment.QuotasSum` | packages/domain/src/eval_platform_domain/dataset_operations.py:119-130 | quotas sum to the sample size |
| `Apportionment.QuotaRule` | packages/domain/src/eval_platform_domain/dataset_operations.py:119-130 | each quota is the exact share rounded down or up and never more than its stratum |
| `Apportionment.LargestRemaindersWin` | packages/domain/src/eval_platform_domain/dataset_operations.py:129-130 | a stratum with an extra seat ranks before any without one, by larger remainder, then smaller label |
| `Apportionment.ExtraSeatsByRemainder` | packages/domain/src/eval_platform_domain/dataset_operations.py:119-130 | in terms of the quotas: one above the whole part of its share left a larger remainder than one that is not, or an equal one under a smaller label |
| `Sampling.SampleIsBestRanked` | packages/domain/src/eval_platform_domain/dataset_operations.py:85-99 | a sample has exactly the requested size, is ordered by the keyed hash and then the key, and every chosen record comes before every other in that order |
| `Sampling.SampleFailsExactly` | packages/domain/src/eval_platform_domain/dataset_operations.py:79-97 | a sample is refused exactly for a size outside the population or, with anything to rank, a seed outside 64 bits |
| `Sampling.SampleOrderIndependent` | packages/domain/src/eval_platform_domain/dataset_operations.py:85-99 | with distinct keys it does not depend on import order |
| `Sampling.InnerNeverFails` | packages/domain/src/eval_platform_domain/dataset_operations.py:131-137 | sampling inside a stratum never fails and returns exactly its quota |
| `Sampling.StratifiedIsProportional` | packages/domain/src/eval_platform_domain/dataset_operations.py:102-138 | the result has exactly the requested size, each stratum its quota, key order, and no record drawn twice |
| `Sampling.StrataAreBestRanked` | packages/domain/src/eval_platform_domain/dataset_operations.py:131-137 | from each stratum the best ranked records are drawn, ranked under the seed derived for that stratum |
| `Sampling.StratifiedFailsExactly` | packages/domain/src/eval_platform_domain/dataset_operations.py:102-118 | a stratified sample is refused exactly when a plain one would be |
| `Sampling.StratifiedOrderIndependent` | packages/domain/src/eval_platform_domain/dataset_operations.py:102-138 | with distinct keys it does not depend on import order |
| `Sampling.ComputeStratifiedSample` | packages/domain/src/eval_platform_domain/dataset_operations.py:102-138 | grouping, apportioning, drawing and sorting compute the specified result, error cases included |
| `Canonicalization.NormalizeJson` | packages/domain/src/eval_platform_domain/canonicalization.py:47-115 | the recursive loops compute the specified normal form or error, and terminate because the schema shrinks before the value |
| `Canonicalization.FixedExactlyWhenNormal` | packages/domain/src/eval_platform_domain/canonicalization.py:47-115 | normalization leaves a value alone if and only if it is normal: clean strings and distinct clean keys, canonical timestamps, safe integers, no zero float, and every nullable or defaulted property present |
| `Canonicalization.NormalizedMembers` | packages/domain/src/eval_platform_domain/canonicalization.py:71-106 | a normalized mapping holds the input members first, in order, with clean keys and normalized values, and then only nulls and materialized defaults of its schema |
| `NormalMeaning.NormalizationKeepsMeaning` | packages/domain/src/eval_platform_domain/canonicalization.py:47-115 | a successful normalization keeps the meaning at every depth: null and booleans are themselves, numbers keep their value, strings become NFC with single newlines or their timestamp, sequences correspond item by item and mappings member by member, apart from nulls and what defaults mean filled in for missing properties |
| `NormalMeaning.NormalizesExactlyWithoutFault` | packages/domain/src/eval_platform_domain/canonicalization.py:53-115 | a value normalizes if and only if it has, at no depth, an unsafe integer, a number that is not finite, a key that is no text, two keys that clean alike, a bad timestamp, an unsupported type or a missing property whose default has such a fault; the error raised is one of its faults |
| `NormalMeaning.AllowsNullExactly` | packages/domain/src/eval_platform_domain/canonicalization.py:27-31 | null is allowed by the type null or a list of types that names it |
| `NormalMeaning.DefaultExactly` | packages/domain/src/eval_platform_domain/canonicalization.py:99-103 | a default is materialized exactly when it is there and the flag is truthy |
| `NormalMeaning.ChildExactly` | packages/domain/src/eval_platform_domain/canonicalization.py:86-90 | the schema of a property is the mapping listed for it |
| `Canonicalization.AbsentIsNull` | packages/domain/src/eval_platform_domain/canonicalization.py:93-106 | leaving a nullable property out, or giving it as null in any place and any spelling of its name, normalize alike and to the same content |
| `Renormalization.FinalExactlyWithoutRawNames` | packages/domain/src/eval_platform_domain/canonicalization.py:47-115 | for every value and schema, what a successful normalization returns is normal if and only if it wrote no property name that is not normalized, at any depth, defaults included |
| `Renormalization.SettlesAtOnceOrNever` | packages/domain/src/eval_platform_domain/canonicalization.py:47-115 | when two passes succeed, a third one does if and only if the second changed nothing |
| `Renormalization.RawNeverSettles` | packages/domain/src/eval_platform_domain/canonicalization.py:93-106 | after writing a raw name the second pass fails, or it changes the keys and the third fails, at whatever depth the name is |
| `Renormalization.UncleanNameNeverSettles` | packages/domain/src/eval_platform_domain/canonicalization.py:93-106 | whatever the schema and the mapping: with a nullable or defaulted property whose name is not normalized, the second pass fails or changes the result, and then the third fails |
| `Renormalization.ErringDefaultBlocks` | packages/domain/src/eval_platform_domain/canonicalization.py:99-106 | when the default filled in under such a name is itself in error, no mapping normalizes under that schema |
| `Renormalization.IdempotentExactlyWhenStable` | packages/domain/src/eval_platform_domain/canonicalization.py:47-115 | normalization under a schema is idempotent on all values if and only if, at every level that normalization reaches, the properties that may be filled in have normalized names or no mapping normalizes |
| `Renormalization.NormalizeIsIdempotent` | packages/domain/src/eval_platform_domain/canonicalization.py:47-115 | under such a schema what a successful normalization returns normalizes to itself, filled nulls and materialized defaults included |
| `Renormalization.OneNullableNeverSettles` | packages/domain/src/eval_platform_domain/canonicalization.py:93-106 | the smallest failing input: one nullable property with a raw name, and the empty mapping |
| `Strings.NewlinesIdempotent` | packages/domain/src/eval_platform_domain/canonicalization.py:23-24 | line-end normalization leaves no carriage return and changes nothing the second time |
| `Strings.NewlinesInOnePass` | packages/domain/src/eval_platform_domain/canonicalization.py:23-24 | the two replacements turn each of CR LF, CR and LF into one newline and change nothing else |
| `Framing.Frame` | packages/domain/src/eval_platform_domain/canonicalization.py:147-152 | the loop appends each part after its eight-byte length |
| `Framing.FrameInjective` | packages/domain/src/eval_platform_domain/canonicalization.py:147-152 | different lists of parts never frame to the same bytes |
| `Framing.LengthBytes` | packages/domain/src/eval_platform_domain/canonicalization.py:150-150 | a length is written most significant byte first |
| `RecordHashing.BuildRecordHashesWhatItStores` | packages/domain/src/eval_platform_domain/canonicalization.py:155-199 | under a stable schema the payload hash of a built record is the hash of the payload it stores, and hashing that payload again gives it back |
| `RecordHashing.BuildRecordStores` | packages/domain/src/eval_platform_domain/canonicalization.py:155-199 | a built record holds the cleaned key, documents that mean what was given, the cleaned split names in order without repetition, and the provenance |
| `RecordHashing.BuildRecordFailsExactly` | packages/domain/src/eval_platform_domain/canonicalization.py:166-190 | for which input each error is raised, and in which order the checks apply |
| `RecordHashing.HashesWhatItStoresExactly` | packages/domain/src/eval_platform_domain/canonicalization.py:169-171 | for every schema and payload, a built record's payload hash is the hash of the payload it stores if and only if building it wrote no property name that is not normalized |
| `RecordHashing.UncleanNameHashesAnotherPayload` | packages/domain/src/eval_platform_domain/canonicalization.py:169-171 | whatever the schema and the payload: with a nullable or defaulted property whose name is not normalized, the built record carries the hash of another mapping, with other keys than the stored one, that can itself not be normalized |
| `RecordHashing.OneNullableHashesAnotherPayload` | packages/domain/src/eval_platform_domain/canonicalization.py:169-171 | the two mappings for the smallest such schema and the empty payload |
| `RecordHashing.AbsentAndNullHashAlike` | packages/domain/src/eval_platform_domain/canonicalization.py:141-144 | leaving a nullable property out, or giving it as null in any place and spelling, yield the same content hash, or both yield none |
| `RecordHashing.BuiltRecordsAreSealed` | packages/domain/src/eval_platform_domain/canonicalization.py:182-199 | a built record carries the hash of the envelope recomputed from its own fields |
| `RecordHashing.EnvelopeInOrder` | packages/domain/src/eval_platform_domain/canonicalization.py:182-199 | the envelope hash is that of five frames: key, payload hash, canonical metadata, split names and provenance |
| `RecordHashing.SourceValueSays` | packages/domain/src/eval_platform_domain/canonicalization.py:176-181 | the provenance is hashed as a mapping of kind, uri, row and source hash, with null for what is missing |
| `RecordHashing.EnvelopeIdentifies` | packages/domain/src/eval_platform_domain/canonicalization.py:182-190 | equal envelopes have equal keys, payload hashes and canonical metadata, splits and provenance |
| `RecordHashing.VersionHashOrderIndependent` | packages/domain/src/eval_platform_domain/canonicalization.py:202-217 | the version hash does not depend on record order |
| `RecordHashing.ManifestInKeyOrder` | packages/domain/src/eval_platform_domain/canonicalization.py:202-217 | a manifest is, after the domain separator, the frames of the format name, the hashes of schema and metadata, and the envelope hashes in the byte order of the keys |
| `RecordHashing.VersionHashesAgree` | packages/domain/src/eval_platform_domain/canonicalization.py:202-217 | two version hashes are equal if and only if canonical schemas, canonical metadata and the multisets of record envelopes are |
| `PairDesign.CellsSound` | packages/evaluators/src/eval_platform_evaluators/pairwise.py:111-117 | every enumerated cell is a record, an ordered pair of different variants, a slot and a repetition of the request |
| `PairDesign.CellsComplete` | packages/evaluators/src/eval_platform_evaluators/pairwise.py:111-117 | every such comparison is enumerated |
| `PairDesign.CellsDistinct` | packages/evaluators/src/eval_platform_evaluators/pairwise.py:111-117 | and none twice |
| `PairDesign.BalancedAfterEveryCell` | packages/evaluators/src/eval_platform_evaluators/pairwise.py:125-137 | after every iteration the two display orders of any pair differ by at most one, for any shuffle and tie bits |
| `PairDesign.ComputeBalancedPairs` | packages/evaluators/src/eval_platform_evaluators/pairwise.py:89-166 | validation, shuffle, sampling, the counter loop and the collision check compute the specified design or error |
| `PairDesign.DesignIsBalanced` | packages/evaluators/src/eval_platform_evaluators/pairwise.py:125-166 | in a finished design the display orders of originals differ by at most one, and with reversed duplicates are exactly as frequent |
| `PairDesign.OriginalsFollowTheRule` | packages/evaluators/src/eval_platform_evaluators/pairwise.py:125-150 | every original shows its pair in the order that fewer originals before it have, the tie bit of its seed, cell and position deciding on a tie; it carries the design, the seed and its cell |
| `PairDesign.RequestsFailExactly` | packages/evaluators/src/eval_platform_evaluators/pairwise.py:102-123 | which requests are refused with which error, in order |
| `PairDesign.DesignCoversCells` | packages/evaluators/src/eval_platform_evaluators/pairwise.py:111-166 | each selected cell has exactly one original, in order, each duplicate follows, links to and swaps its original, and without sampling every comparison is present |
| `PairDesign.ConsistentMeansOtherLetter` | packages/evaluators/src/eval_platform_evaluators/pairwise.py:201-218 | on a linked reversal decisive verdicts agree exactly when the letters differ, and the answer is open exactly when one is a tie or an abstention |
| `PairDesign.UnlinkedIsRefused` | packages/evaluators/src/eval_platform_evaluators/pairwise.py:209-210 | assignments that are not linked are refused, and no others |
| `PairDesign.PositionBias` | packages/evaluators/src/eval_platform_evaluators/pairwise.py:221-244 | the loop raises exactly on an unknown assignment and otherwise reports the wins of A and of B, the decisive judgments, A's rate and the absolute effect |
| `PairDesign.NoEffectExactlyOnEqualWins` | packages/evaluators/src/eval_platform_evaluators/pairwise.py:235-244 | the rate is a share, the effect at most one half, and it vanishes if and only if A and B won equally often |
| `PairDesign.ConsistentJudgeHasNoBias` | packages/evaluators/src/eval_platform_evaluators/pairwise.py:201-244 | a judge that is consistent on every linked pair wins exactly as often from A as from B, so its rate is one half and its position effect zero |
| `PairIdentities.CollidesExactlyOnSharedTexts` | packages/evaluators/src/eval_platform_evaluators/pairwise.py:119-166 | as long as the hash does not collide, a valid request with a sample size in range succeeds if and only if the cells it compares have pairwise different identity texts; else it ends in the collision error |
| `PairIdentities.BarFreeNamesNeverCollide` | packages/evaluators/src/eval_platform_evaluators/pairwise.py:164-166 | when no name holds a bar and the hash does not collide, a valid request never ends in the collision error |
| `PairIdentities.IdentityInjective` | packages/evaluators/src/eval_platform_evaluators/pairwise.py:259-269 | for bar-free names the identity text determines the cell and the orientation |
| `PairIdentities.SharedTextCollides` | packages/evaluators/src/eval_platform_evaluators/pairwise.py:164-166 | two compared cells with the same identity text make the request fail, sampled or not, whatever the hash |
| `PairIdentities.SameIdentityCollides` | packages/evaluators/src/eval_platform_evaluators/pairwise.py:164-166 | two cells with the same identity text make every full design fail |
| `PairIdentities.BarsCollide` | packages/evaluators/src/eval_platform_evaluators/pairwise.py:259-269 | four concrete variant names with bars do so |
| `Judge.RepetitionIsBounded` | packages/evaluators/src/eval_platform_evaluators/execution.py:85-175 | one repetition makes at most the allowed calls and repairs, asks each call as a repair exactly when one is due, and counts every received answer. It stops at the first call after which no other is allowed and at no other: a provider failure ends it if and only if it is not retryable or came on the last attempt, exhausted retries if and only if a repair is due within the cost limit and no attempt or no repair is left, and the cost limit if and only if it is passed; it never ends without a response |
| `Judge.RunStopsOnce` | packages/evaluators/src/eval_platform_evaluators/execution.py:78-178 | the evaluation runs all repetitions, or stops in the first one that fails, with its error, after the earlier ones were accepted |
| `Judge.EvaluationEndsExactly` | packages/evaluators/src/eval_platform_evaluators/execution.py:60-194 | an evaluation ends with the error of that repetition; when all are accepted it fails if and only if the received answers were not all charged in one currency |
| `Judge.EvaluationIsAccountedFor` | packages/evaluators/src/eval_platform_evaluators/execution.py:60-194 | a normal return holds exactly one accepted attempt per repetition, in order and within bounds, usage that counts every received answer, and a cost within the limit |
| `Judge.TotalsAreSums` | packages/evaluators/src/eval_platform_evaluators/execution.py:135-141 | the totals are the sums of tokens and costs over all received answers, the currencies seen, and whether any was estimated or priced |
| `Judge.OnlyRealErrors` | packages/evaluators/src/eval_platform_evaluators/execution.py:160-178 | the only errors are a provider failure, exhausted retries, the cost limit and mixed currencies: the missing-response error and all errors of aggregation are unreachable |
| `Judge.AggregateIsPlurality` | packages/evaluators/src/eval_platform_evaluators/execution.py:197-218 | A or B wins exactly with more usable votes than each other verdict, abstentions never decide, and disagreement is one minus the top verdict's share of the usable votes, and one without any |
| `Judge.AggregateScores` | packages/evaluators/src/eval_platform_evaluators/execution.py:217-225 | every dimension of the rubric is scored as soon as one response is usable: by the mean of the usable scores or by the mean of the two middle ones, as configured, and always within their range |
| `Judge.AggregateConfidence` | packages/evaluators/src/eval_platform_evaluators/execution.py:226-239 | the confidence is zero without a usable response and else the mean of theirs |
| `Judge.AggregationFailsExactly` | packages/evaluators/src/eval_platform_evaluators/execution.py:204-230 | aggregation fails exactly when there are not as many attempts as repetitions, or they differ in dimensions or currency |
| `Judge.JudgeRepetition` | packages/evaluators/src/eval_platform_evaluators/execution.py:85-175 | the attempt loop ends as specified |
| `Judge.EvaluateWithJudge` | packages/evaluators/src/eval_platform_evaluators/execution.py:60-194 | the nested loops compute the specified evaluation or error |

## Left out

- Rows of other runs and projects, timestamps, the outbox, model response texts, latencies and derived seeds: they do not influence the modelled state.
- Liveness under interference: nothing is claimed about runs draining or dead workers' leases being picked up, which rests on redelivery.
- The formula for a task's estimate: an estimate is any non-negative number.
- The transition to FAILED: the table allows it and no modelled method makes it.
- `Worker.ExecuteRun`: models a worker that no one disturbs; interleaved workers are covered by the protocol results.
- `PermutationTest.TwoSidedIsDouble`: states the exact branch for every n; the source takes it for at most 20 nonzero differences, and the Monte-Carlo branch above that is not modelled, nor are sample warnings and the check that inputs are finite.
- `Multiplicity.AdjustPValues`: exact arithmetic, so rounding of products and quotients is not modelled.
- `Ndcg.NdcgAtK`: the logarithmic discount and the exponential gain are any functions with the stated laws.
- `Apportionment.Apportion`: remainders are exact integers over the population, where the source compares floats.
- `Sampling.ComputeStratifiedSample`: a seed outside 64 bits is one error, where the source raises an overflow in one place and a domain error in another; undersized strata are not reported by the source although its documentation says so.
- `RecordHashing.BuildRecordHashesWhatItStores`: schema validation is any predicate and serialization any function; a serializer that returns no bytes is not modelled.
- `Framing.Frame`: parts of 2^64 bytes or more, which cannot exist, are excluded.
- `Judge.EvaluateWithJudge`: prompts, nonces, seeds, idempotency keys, delays and the pairwise-mode check are not modelled, nor an unparsable cost text.
- `aggregate_judgments` and gate decisions on pair judgments: the plurality rule is modelled once, for judge responses.
- Redaction, n-grams, MinHash and contamination screening: independent of the results above.
- Bootstrap, t, Wilcoxon, sign and equivalence tests, preference models and power planning: they rest on numerical libraries and floating point.
- Average precision, reciprocal rank, coverage, citation and text-overlap metrics: short expressions or library calls.
- The budget ledger and money types: not used by the worker loop.
- Authorization, provider clients, the SDK, the command line, reports and the dashboard.
