/**
 The worker loop over the repository. Providers, metric plugins and the clock
 are parameters. The loop is proved to take only the actions of RunProtocol, in
 the order the source takes them; run without interference it settles every
 task it can claim and keeps within the budget.
 */
module Worker {
  import opened Results
  import opened Execution
  import opened RunLedger
  import opened RunProtocol
  import opened RunSafety
  import opened RunMetrics
  import opened RunRepository

  /** What the provider does with one task: an error, or a response with or without its own cost. */
  datatype Generation = ProviderRaised | Response(actualCost: Option<real>)

  /** What the registry does with one metric of the suite. */
  datatype Evaluation = Evaluated(version: string, missing: bool, scalar: Option<real>) | EvaluationRaised

  function VersionOf(registered: string -> Option<string>, id: string): string {
    match registered(id)
    case Some(v) => v
    case None => "unknown"
  }

  /** Plugins report the version they are registered with. */
  ghost predicate Honest(evaluate: string -> Evaluation, registered: string -> Option<string>) {
    forall id :: evaluate(id).Evaluated? ==> registered(id) == Some(evaluate(id).version)
  }

  function SuiteEntries(ids: seq<string>, registered: string -> Option<string>): (r: seq<SuiteEntry>)
    ensures |r| == |ids|
    ensures forall i | 0 <= i < |ids| :: r[i] == SuiteEntry(ids[i], VersionOf(registered, ids[i]))
  {
    seq(|ids|, i requires 0 <= i < |ids| => SuiteEntry(ids[i], VersionOf(registered, ids[i])))
  }

  /** One outcome per metric of the suite, with the status and scalar the registry gives. */
  ghost predicate EvaluatedAs(ids: seq<string>, evaluate: string -> Evaluation, registered: string -> Option<string>,
                              outcomes: seq<MetricOutcome>) {
    && |outcomes| == |ids|
    && forall i | 0 <= i < |ids| ::
         && outcomes[i].identifier == ids[i]
         && match evaluate(ids[i])
            case EvaluationRaised =>
              && outcomes[i].status == MetricFailed && outcomes[i].scalar == None
              && outcomes[i].version == if registered(ids[i]).Some? then registered(ids[i]).value else "unknown"
            case Evaluated(version, missing, scalar) =>
              && outcomes[i].version == version && outcomes[i].scalar == scalar
              && outcomes[i].status == if missing then MetricMissing else MetricSucceeded
  }

  /** One outcome per suite entry, whether the metric succeeds, is missing or raises. */
  method EvaluateSuite(ids: seq<string>, evaluate: string -> Evaluation, registered: string -> Option<string>)
    returns (outcomes: seq<MetricOutcome>)
    requires Honest(evaluate, registered)
    ensures Conforms(SuiteEntries(ids, registered), outcomes)
    ensures forall i | 0 <= i < |ids| ::
      outcomes[i].status == (match evaluate(ids[i])
                             case EvaluationRaised => MetricFailed
                             case Evaluated(_, missing, _) => if missing then MetricMissing else MetricSucceeded)
    ensures forall i | 0 <= i < |ids| ::
      outcomes[i].scalar == if evaluate(ids[i]).Evaluated? then evaluate(ids[i]).scalar else None
    ensures EvaluatedAs(ids, evaluate, registered, outcomes)
  {
    outcomes := [];
    for i := 0 to |ids|
      invariant |outcomes| == i
      invariant forall j | 0 <= j < i ::
        && SuiteEntry(outcomes[j].identifier, outcomes[j].version) == SuiteEntries(ids, registered)[j]
        && outcomes[j].status == (match evaluate(ids[j])
                                  case EvaluationRaised => MetricFailed
                                  case Evaluated(_, missing, _) => if missing then MetricMissing else MetricSucceeded)
        && outcomes[j].scalar == if evaluate(ids[j]).Evaluated? then evaluate(ids[j]).scalar else None
    {
      var id := ids[i];
      match evaluate(id) {
        case Evaluated(version, missing, scalar) =>
          var status := if missing then MetricMissing else MetricSucceeded;
          outcomes := outcomes + [MetricOutcome(id, version, status, scalar)];
        case EvaluationRaised =>
          outcomes := outcomes + [MetricOutcome(id, VersionOf(registered, id), MetricFailed, None)];
      }
    }
  }

  function Unsettled(tasks: seq<TaskRow>): int {
    Count(tasks, TaskPending) + Count(tasks, TaskLeased) + Count(tasks, TaskRunning)
  }

  /** The records a run keeps, and its counters, are the same. */
  ghost predicate SameRecords(a: Db, b: Db) {
    && a.costs == b.costs && a.metrics == b.metrics && a.failures == b.failures
    && a.succeeded == b.succeeded && a.failed == b.failed && a.actualCost == b.actualCost
    && a.budgetLimit == b.budgetLimit && a.total == b.total
  }

  /** Nothing but task t's row differs. */
  ghost predicate OnlyRow(a: seq<TaskRow>, b: seq<TaskRow>, t: nat) {
    |a| == |b| && forall u | 0 <= u < |a| && u != t :: a[u] == b[u]
  }

  /** Task t failed for this reason: one more failure record and failed task, nothing charged. */
  ghost predicate FailedAs(before: Db, after: Db, t: nat, category: FailureCategory) {
    && OnlyRow(before.tasks, after.tasks, t) && t < |after.tasks| && after.tasks[t].state == TaskFailed
    && after.failures == before.failures + [FailureRow(t, category)] && after.failed == before.failed + 1
    && after.costs == before.costs && after.metrics == before.metrics
    && after.succeeded == before.succeeded && after.actualCost == before.actualCost
  }

  /** Task t was answered: one more cost row over this amount, these metric rows, one more succeeded task. */
  ghost predicate AnsweredAs(before: Db, after: Db, t: nat, cost: real, outcomes: seq<MetricOutcome>) {
    && OnlyRow(before.tasks, after.tasks, t) && t < |after.tasks| && after.tasks[t].state == TaskSucceeded
    && after.costs == before.costs + [CostRow(t, cost)] && after.actualCost == before.actualCost + cost
    && after.metrics == before.metrics + seq(|outcomes|, i requires 0 <= i < |outcomes| => MetricRow(t, outcomes[i]))
    && after.succeeded == before.succeeded + 1
    && after.failures == before.failures && after.failed == before.failed
  }

  /** The cost of an answer: the reported one, or the estimate when none is reported. */
  ghost predicate Charged(generation: Generation, estimate: real, cost: real) {
    generation == Response(Some(cost)) || (generation == Response(None) && cost == estimate)
  }

  /** A claim takes one task, and only that task, for its owner. */
  ghost predicate Claimed(before: Db, after: Db, owner: string, claimed: Option<nat>) {
    && Safe(after) && after.state == Running
    && after.actualCost == before.actualCost && after.budgetLimit == before.budgetLimit && after.total == before.total
    && (claimed.None? ==> after == before)
    && SameRecords(before, after)
    && (claimed.Some? ==>
          && OnlyRow(before.tasks, after.tasks, claimed.value) && claimed.value < |before.tasks|
          && !Settled(before.tasks[claimed.value].state)
          && claimed.value < |after.tasks| && Unsettled(after.tasks) == Unsettled(before.tasks)
          && after.tasks[claimed.value].state == TaskLeased && after.tasks[claimed.value].leaseOwner == Some(owner)
          && (NoneActive(before.tasks) ==> OnlyActive(after.tasks, claimed.value)))
  }

  lemma ClaimEffect(db: Db, owner: string, now: int)
    requires Safe(db) && db.state == Running
    ensures var (next, found) := ClaimNextTask(db, owner, now, LEASE_SECONDS, {});
            next == Apply(db, ClaimTask(owner, now, {})) && Claimed(db, next, owner, found)
  {
    SafeStep(db, ClaimTask(owner, now, {}));
    var (next, found) := ClaimNextTask(db, owner, now, LEASE_SECONDS, {});
    if found.Some? {
      CountUpdate(db.tasks, found.value, next.tasks[found.value]);
    }
  }

  ghost predicate OnlyActive(tasks: seq<TaskRow>, t: nat) {
    forall u | 0 <= u < |tasks| && u != t :: tasks[u].state !in {TaskLeased, TaskRunning}
  }

  /** One claimed task has been settled; the run is over or has more to do. */
  ghost predicate SettledOneMore(before: Db, after: Db, t: nat) {
    && Safe(after) && after.budgetLimit == before.budgetLimit && after.total == before.total
    && Unsettled(after.tasks) < Unsettled(before.tasks)
    && after.state in {Running, Completed, CompletedWithErrors}
    && (after.state == Running ==> SettledCount(after) < after.total)
    && (OnlyActive(before.tasks, t) ==> NoneActive(after.tasks))
  }

  /** One claimed task is running and nothing else has changed. */
  ghost predicate StartedTask(before: Db, after: Db, t: nat) {
    && Safe(after) && after.state == Running && SameRecords(before, after) && OnlyRow(before.tasks, after.tasks, t)
    && t < |after.tasks| && after.tasks[t].state == TaskRunning
    && Unsettled(after.tasks) == Unsettled(before.tasks)
    && (OnlyActive(before.tasks, t) ==> OnlyActive(after.tasks, t))
  }

  lemma SafeStep(db: Db, a: Action)
    requires Safe(db) && !a.TransitionTo?
    ensures Safe(Apply(db, a))
  {
    ActionKeepsLedger(db, a);
    ActionKeepsLog(db, a);
    ActionKeepsStates(db, a);
  }

  /** Finalizing a RUNNING run after one more settlement. */
  lemma FinalizeEffect(db: Db, mid: Db, t: nat)
    requires Safe(db) && db.state == Running && mid.state == Running && Census(mid)
    requires mid.budgetLimit == db.budgetLimit && mid.total == db.total
    requires t < |db.tasks| && !Settled(db.tasks[t].state)
    requires |mid.tasks| == |db.tasks| && mid.tasks == db.tasks[t := mid.tasks[t]]
    requires Settled(mid.tasks[t].state) && Safe(FinalizeIfSettled(mid))
    ensures SettledOneMore(db, FinalizeIfSettled(mid), t)
  {
    CountUpdate(db.tasks, t, mid.tasks[t]);
    CountTotal(mid.tasks);
    FinalizeFrame(mid);
  }

  lemma MarkEffect(db: Db, owner: string, t: nat)
    requires Safe(db) && db.state == Running && t < |db.tasks|
    requires db.tasks[t].state == TaskLeased && db.tasks[t].leaseOwner == Some(owner)
    ensures MarkTaskRunning(db, t, owner).Ok? && StartedTask(db, MarkTaskRunning(db, t, owner).value, t)
  {
    var marked := MarkTaskRunning(db, t, owner).value;
    MarkKeepsLedger(db, t, owner);
    MarkKeepsCensus(db, t, owner);
    MarkKeepsStates(db, t, owner);
    CountUpdate(db.tasks, t, marked.tasks[t]);
  }

  lemma OverBudgetEffect(db: Db, owner: string, t: nat)
    requires StartedTask(db, db, t)
    ensures var failed := FinalizeIfSettled(FailedDb(db, t, BudgetExceeded));
            && CompleteTaskFailure(db, t, BudgetExceeded) == Ok(failed)
            && SettledOneMore(db, failed, t) && FailedAs(db, failed, t, BudgetExceeded)
  {
    SafeStep(db, Fail(t, BudgetExceeded));
    FailureKeepsLedger(db, t, BudgetExceeded);
    FinalizeEffect(db, FailedDb(db, t, BudgetExceeded), t);
    FinalizeFrame(FailedDb(db, t, BudgetExceeded));
  }

  /** Starting a task its worker has just leased never raises. */
  lemma BeginEffect(db: Db, owner: string, t: nat, estimate: real)
    requires Safe(db) && db.state == Running && t < |db.tasks|
    requires db.tasks[t].state == TaskLeased && db.tasks[t].leaseOwner == Some(owner)
    ensures var next := Apply(db, BeginTask(owner, t, estimate));
            && Begin(db, owner, t, estimate) == Ok(next) && next.actualCost == db.actualCost
            && (if db.actualCost + estimate > db.budgetLimit then
                  SettledOneMore(db, next, t) && FailedAs(db, next, t, BudgetExceeded)
                else StartedTask(db, next, t))
  {
    MarkEffect(db, owner, t);
    if db.actualCost + estimate > db.budgetLimit {
      var marked := MarkTaskRunning(db, t, owner).value;
      OverBudgetEffect(marked, owner, t);
      StartedThenSettled(db, marked, FinalizeIfSettled(FailedDb(marked, t, BudgetExceeded)), t);
    }
  }

  lemma FailEffect(db: Db, t: nat)
    requires Safe(db) && db.state == Running && t < |db.tasks| && db.tasks[t].state == TaskRunning
    ensures var next := Apply(db, Fail(t, ProviderFailure));
            && CompleteTaskFailure(db, t, ProviderFailure) == Ok(next)
            && SettledOneMore(db, next, t) && FailedAs(db, next, t, ProviderFailure)
  {
    SafeStep(db, Fail(t, ProviderFailure));
    FailureKeepsLedger(db, t, ProviderFailure);
    FinalizeEffect(db, FailedDb(db, t, ProviderFailure), t);
    FinalizeFrame(FailedDb(db, t, ProviderFailure));
  }

  lemma RecordedEffect(db: Db, t: nat, cost: real, outcomes: seq<MetricOutcome>)
    requires Safe(db) && db.state == Running && t < |db.tasks| && db.tasks[t].state == TaskRunning &&
             UniqueMetrics(outcomes)
    ensures var next := FinalizeIfSettled(SucceededDb(db, t, cost, outcomes));
            SettledOneMore(db, next, t) && AnsweredAs(db, next, t, cost, outcomes)
  {
    SuccessKeepsLedger(db, t, cost, outcomes);
    SafeStep(db, Succeed(t, cost, outcomes));
    FinalizeEffect(db, SucceededDb(db, t, cost, outcomes), t);
    FinalizeFrame(SucceededDb(db, t, cost, outcomes));
  }

  /** A response is recorded unless the suite repeats a metric, which the database rejects. */
  lemma SucceedEffect(db: Db, t: nat, cost: real, outcomes: seq<MetricOutcome>)
    requires Safe(db) && db.state == Running && t < |db.tasks| && db.tasks[t].state == TaskRunning
    ensures var next := Apply(db, Succeed(t, cost, outcomes));
            if UniqueMetrics(outcomes) then
              && CompleteTaskSuccess(db, t, cost, outcomes) == Ok(next)
              && SettledOneMore(db, next, t) && AnsweredAs(db, next, t, cost, outcomes)
            else CompleteTaskSuccess(db, t, cost, outcomes) == Err(IntegrityViolation) && next == db
  {
    if UniqueMetrics(outcomes) {
      SuccessKeepsLedger(db, t, cost, outcomes);
      RecordedEffect(db, t, cost, outcomes);
    } else {
      assert SettledOnce(db, t);
    }
  }

  /** The same, by the suite. */
  lemma AnswerEffect(db: Db, t: nat, cost: real, outcomes: seq<MetricOutcome>, ids: seq<string>,
                     registered: string -> Option<string>)
    requires Safe(db) && db.state == Running && t < |db.tasks| && db.tasks[t].state == TaskRunning
    requires Conforms(SuiteEntries(ids, registered), outcomes)
    ensures var next := Apply(db, Succeed(t, cost, outcomes));
            if DistinctSuite(SuiteEntries(ids, registered)) then
              && CompleteTaskSuccess(db, t, cost, outcomes) == Ok(next)
              && SettledOneMore(db, next, t) && AnsweredAs(db, next, t, cost, outcomes)
            else CompleteTaskSuccess(db, t, cost, outcomes) == Err(IntegrityViolation) && next == db
  {
    SucceedEffect(db, t, cost, outcomes);
    UniqueExactlyWhenDistinct(ids, registered, outcomes);
  }

  lemma StartedThenSettled(a: Db, b: Db, c: Db, t: nat)
    requires StartedTask(a, b, t) && SettledOneMore(b, c, t)
    ensures SettledOneMore(a, c, t)
  {
  }

  datatype Exit = Finished | Raised(error: RunError)

  /** Every action names this worker, its own estimates, and the suite's metrics. */
  ghost predicate WorkerActions(
    trace: seq<Action>, owner: string, estimate: nat -> real, suite: seq<SuiteEntry>)
  {
    forall a | a in trace ::
      && (a.Start? || a.ClaimTask? || a.BeginTask? || a.Succeed? || a.Fail?)
      && (a.ClaimTask? ==> a.owner == owner)
      && (a.BeginTask? ==> a.owner == owner && a.estimate == estimate(a.task))
      && (a.Succeed? ==> Conforms(suite, a.outcomes))
  }

  ghost predicate CostsWithinEstimates(generate: nat -> Generation, estimate: nat -> real) {
    forall t: nat :: CostWithin(generate(t), estimate(t))
  }

  lemma UniqueFromDistinct(suite: seq<SuiteEntry>, outcomes: seq<MetricOutcome>)
    requires DistinctSuite(suite) && Conforms(suite, outcomes)
    ensures UniqueMetrics(outcomes)
  {
    forall i, j | 0 <= i < j < |outcomes|
      ensures (outcomes[i].identifier, outcomes[i].version) != (outcomes[j].identifier, outcomes[j].version)
    {
      assert SuiteEntry(outcomes[i].identifier, outcomes[i].version) == suite[i];
      assert SuiteEntry(outcomes[j].identifier, outcomes[j].version) == suite[j];
    }
  }

  /** Outcomes of a suite collide exactly when the suite names a metric twice. */
  lemma UniqueExactlyWhenDistinct(ids: seq<string>, registered: string -> Option<string>, outcomes: seq<MetricOutcome>)
    requires Conforms(SuiteEntries(ids, registered), outcomes)
    ensures UniqueMetrics(outcomes) <==> DistinctSuite(SuiteEntries(ids, registered))
  {
    var suite := SuiteEntries(ids, registered);
    if DistinctSuite(suite) {
      UniqueFromDistinct(suite, outcomes);
    } else {
      var i, j :| 0 <= i < j < |suite| && suite[i].identifier == suite[j].identifier;
      assert SuiteEntry(outcomes[i].identifier, outcomes[i].version) == suite[i];
      assert SuiteEntry(outcomes[j].identifier, outcomes[j].version) == suite[j];
      assert (outcomes[i].identifier, outcomes[i].version) == (outcomes[j].identifier, outcomes[j].version);
    }
  }

  /** The budget half of the loop's promise. */
  ghost predicate WithinBudget(db: Db) { db.actualCost <= db.budgetLimit }

  /** The budget check and the move to RUNNING, one transaction. */
  method StartTask(repository: SqlExperimentRepository, owner: string, t: nat, estimate: real) returns (started: bool)
    requires Safe(repository.Snapshot()) && repository.state == Running && t < |repository.tasks|
    requires repository.tasks[t].state == TaskLeased && repository.tasks[t].leaseOwner == Some(owner)
    modifies repository
    ensures repository.Snapshot() == Apply(old(repository.Snapshot()), BeginTask(owner, t, estimate))
    ensures repository.actualCost == old(repository.actualCost) && repository.budgetLimit == old(repository.budgetLimit)
    ensures started <==> old(repository.actualCost) + estimate <= old(repository.budgetLimit)
    ensures started ==> StartedTask(old(repository.Snapshot()), repository.Snapshot(), t)
    ensures !started ==> SettledOneMore(old(repository.Snapshot()), repository.Snapshot(), t)
    ensures !started ==> FailedAs(old(repository.Snapshot()), repository.Snapshot(), t, BudgetExceeded)
  {
    BeginEffect(repository.Snapshot(), owner, t, estimate);
    if repository.actualCost + estimate > repository.budgetLimit {
      var _ := repository.MarkTaskRunning(t, owner);
      var _ := repository.CompleteTaskFailure(t, BudgetExceeded);
      return false;
    }
    var _ := repository.MarkTaskRunning(t, owner);
    return true;
  }

  /** The provider call and the transaction that records its result. */
  method SettleTask(
    repository: SqlExperimentRepository, t: nat, estimate: real, generation: Generation,
    ids: seq<string>, evaluate: string -> Evaluation, registered: string -> Option<string>)
    returns (r: Result<(), RunError>, ghost a: Action)
    requires Safe(repository.Snapshot()) && repository.state == Running && t < |repository.tasks|
    requires repository.tasks[t].state == TaskRunning && Honest(evaluate, registered)
    modifies repository
    ensures repository.Snapshot() == Apply(old(repository.Snapshot()), a)
    ensures generation.ProviderRaised? ==>
              && r.Ok? && a == Fail(t, ProviderFailure)
              && FailedAs(old(repository.Snapshot()), repository.Snapshot(), t, ProviderFailure)
    ensures generation.Response? ==>
              && a.Succeed? && a.task == t && Charged(generation, estimate, a.cost)
              && EvaluatedAs(ids, evaluate, registered, a.outcomes)
              && Conforms(SuiteEntries(ids, registered), a.outcomes)
              && (r.Ok? <==> DistinctSuite(SuiteEntries(ids, registered)))
              && (r.Ok? ==> AnsweredAs(old(repository.Snapshot()), repository.Snapshot(), t, a.cost, a.outcomes))
              && (r.Err? ==> r.error == IntegrityViolation && repository.Snapshot() == old(repository.Snapshot()))
    ensures r.Ok? ==> SettledOneMore(old(repository.Snapshot()), repository.Snapshot(), t)
    ensures CostWithin(generation, estimate) ==> repository.actualCost <= old(repository.actualCost) + estimate
    ensures repository.budgetLimit == old(repository.budgetLimit)
  {
    if generation.ProviderRaised? {
      FailEffect(repository.Snapshot(), t);
      a := Fail(t, ProviderFailure);
      r := repository.CompleteTaskFailure(t, ProviderFailure);
      return;
    }
    var cost := if generation.actualCost.Some? then generation.actualCost.value else estimate;
    var outcomes := EvaluateSuite(ids, evaluate, registered);
    a := Succeed(t, cost, outcomes);
    AnswerEffect(repository.Snapshot(), t, cost, outcomes, ids, registered);
    r := repository.CompleteTaskSuccess(t, cost, outcomes);
  }

  /** The state check and the claim, one transaction. */
  method ClaimTurn(repository: SqlExperimentRepository, owner: string, now: int) returns (claimed: Option<nat>)
    requires Safe(repository.Snapshot()) && repository.state == Running
    modifies repository
    ensures repository.Snapshot() == Apply(old(repository.Snapshot()), ClaimTask(owner, now, {}))
    ensures claimed == FirstClaimable(old(repository.tasks), now, {})
    ensures Claimed(old(repository.Snapshot()), repository.Snapshot(), owner, claimed)
  {
    ClaimEffect(repository.Snapshot(), owner, now);
    claimed := repository.ClaimNextTask(owner, now, LEASE_SECONDS, {});
  }

  /** The two transactions of one turn: start it, then record what came of it. */
  ghost predicate TurnActions(actions: seq<Action>, owner: string, t: nat, estimate: real, suite: seq<SuiteEntry>) {
    && 1 <= |actions| <= 2 && actions[0] == BeginTask(owner, t, estimate)
    && (|actions| == 2 ==> actions[1].Fail? || (actions[1].Succeed? && Conforms(suite, actions[1].outcomes)))
  }

  predicate CostWithin(generation: Generation, estimate: real) {
    && 0.0 <= estimate
    && (generation.Response? && generation.actualCost.Some? ==> generation.actualCost.value <= estimate)
  }

  /** How a turn ends for its task: refused when the estimate no longer fits the budget; failed when the
      provider raised; otherwise answered, at its cost and with its outcomes. */
  ghost predicate TurnEnds(
    before: Db, after: Db, t: nat, estimate: real, generation: Generation,
    ids: seq<string>, evaluate: string -> Evaluation, registered: string -> Option<string>)
  {
    if before.actualCost + estimate > before.budgetLimit then FailedAs(before, after, t, BudgetExceeded)
    else if generation.ProviderRaised? then FailedAs(before, after, t, ProviderFailure)
    else
      exists cost, outcomes ::
        AnswersWith(before, after, t, estimate, generation, ids, evaluate, registered, cost, outcomes)
  }

  ghost predicate AnswersWith(
    before: Db, after: Db, t: nat, estimate: real, generation: Generation,
    ids: seq<string>, evaluate: string -> Evaluation, registered: string -> Option<string>,
    cost: real, outcomes: seq<MetricOutcome>)
  {
    && Charged(generation, estimate, cost) && EvaluatedAs(ids, evaluate, registered, outcomes)
    && AnsweredAs(before, after, t, cost, outcomes)
  }

  /** What follows the claim: budget check, provider call, settlement. */
  method ExecuteTurn(
    repository: SqlExperimentRepository, owner: string, t: nat, estimate: real, generation: Generation,
    ids: seq<string>, evaluate: string -> Evaluation, registered: string -> Option<string>)
    returns (r: Result<(), RunError>, ghost actions: seq<Action>)
    requires Safe(repository.Snapshot()) && repository.state == Running && t < |repository.tasks|
    requires repository.tasks[t].state == TaskLeased && repository.tasks[t].leaseOwner == Some(owner)
    requires Honest(evaluate, registered)
    modifies repository
    ensures repository.Snapshot() == Replay(old(repository.Snapshot()), actions)
    ensures TurnActions(actions, owner, t, estimate, SuiteEntries(ids, registered))
    ensures r.Ok? ==> SettledOneMore(old(repository.Snapshot()), repository.Snapshot(), t)
    ensures DistinctSuite(SuiteEntries(ids, registered)) ==>
              && r.Ok? && TurnEnds(old(repository.Snapshot()), repository.Snapshot(), t, estimate, generation,
                                   ids, evaluate, registered)
    ensures r.Err? ==> SameRecords(old(repository.Snapshot()), repository.Snapshot()) &&
                       OnlyRow(old(repository.tasks), repository.tasks, t) && repository.tasks[t].state == TaskRunning
    ensures CostWithin(generation, estimate) && old(WithinBudget(repository.Snapshot())) ==>
              WithinBudget(repository.Snapshot())
  {
    ghost var leased := repository.Snapshot();
    ghost var begin := BeginTask(owner, t, estimate);
    actions := [begin];
    var started := StartTask(repository, owner, t, estimate);
    if !started {
      ReplaySingle(leased, begin);
      return Ok(()), actions;
    }
    ghost var running := repository.Snapshot();
    ghost var a;
    r, a := SettleTask(repository, t, estimate, generation, ids, evaluate, registered);
    actions := [begin, a];
    ReplayPair(leased, begin, a);
    if r.Ok? {
      StartedThenSettled(leased, running, repository.Snapshot(), t);
      if generation.Response? {
        assert AnswersWith(leased, repository.Snapshot(), t, estimate, generation, ids, evaluate, registered,
                           a.cost, a.outcomes);
      }
    }
  }

  lemma AppendTurn(
    trace: seq<Action>, actions: seq<Action>, owner: string, t: nat, estimate: nat -> real, suite: seq<SuiteEntry>)
    requires WorkerActions(trace, owner, estimate, suite) && TurnActions(actions, owner, t, estimate(t), suite)
    ensures WorkerActions(trace + actions, owner, estimate, suite)
  {
    forall a | a in trace + actions
      ensures (a.Start? || a.ClaimTask? || a.BeginTask? || a.Succeed? || a.Fail?)
      ensures a.ClaimTask? ==> a.owner == owner
      ensures a.BeginTask? ==> a.owner == owner && a.estimate == estimate(a.task)
      ensures a.Succeed? ==> Conforms(suite, a.outcomes)
    {
      assert a in trace || a == actions[0] || (|actions| == 2 && a == actions[1]);
    }
  }

  lemma {:induction false} ReplaySingle(db: Db, a: Action)
    ensures Replay(db, [a]) == Apply(db, a)
  {
    ReplayOne(db, [], a);
    assert [] + [a] == [a];
  }

  lemma {:induction false} ReplayPair(db: Db, a: Action, b: Action)
    ensures Replay(db, [a, b]) == Apply(Apply(db, a), b)
  {
    ReplaySingle(db, a);
    ReplayOne(db, [a], b);
    assert [a] + [b] == [a, b];
  }

  // ---------- what a whole run leaves behind ----------

  /** What the rows say of a task the loop has handled: refused for its budget, failed with its provider,
      or answered, with its cost and metric rows. */
  ghost predicate Told(
    db: Db, t: nat, estimate: real, generation: Generation,
    ids: seq<string>, evaluate: string -> Evaluation, registered: string -> Option<string>)
    requires t < |db.tasks|
  {
    || (db.tasks[t].state == TaskFailed && FailureRow(t, BudgetExceeded) in db.failures)
    || (db.tasks[t].state == TaskFailed && generation.ProviderRaised? && FailureRow(t, ProviderFailure) in db.failures)
    || (db.tasks[t].state == TaskSucceeded &&
        exists cost, outcomes :: ToldAnswer(db, t, estimate, generation, ids, evaluate, registered, cost, outcomes))
  }

  ghost predicate ToldAnswer(
    db: Db, t: nat, estimate: real, generation: Generation,
    ids: seq<string>, evaluate: string -> Evaluation, registered: string -> Option<string>,
    cost: real, outcomes: seq<MetricOutcome>)
  {
    && Charged(generation, estimate, cost) && CostRow(t, cost) in db.costs
    && EvaluatedAs(ids, evaluate, registered, outcomes)
    && forall i | 0 <= i < |outcomes| :: MetricRow(t, outcomes[i]) in db.metrics
  }

  /** Provider, plugins and estimates of a run, by task. */
  datatype Job = Job(
    estimate: nat -> real, generate: nat -> Generation,
    ids: seq<string>, evaluate: nat -> string -> Evaluation, registered: string -> Option<string>)
  {
    /** The cost of task t, should it be answered. */
    function Charge(t: nat): real {
      match generate(t)
      case ProviderRaised => 0.0
      case Response(actualCost) => if actualCost.Some? then actualCost.value else estimate(t)
    }

    ghost predicate TellsOf(db: Db, t: nat)
      requires t < |db.tasks|
    {
      Told(db, t, estimate(t), generate(t), ids, evaluate(t), registered)
    }
  }

  /** Rows that were settled before are as they were, and of every row settled since the records tell. */
  ghost predicate Story(job: Job, before: Db, now: Db) {
    && |now.tasks| == |before.tasks| && now.budgetLimit == before.budgetLimit
    && forall t | 0 <= t < |before.tasks| ::
         && (Settled(before.tasks[t].state) ==> now.tasks[t] == before.tasks[t])
         && (!Settled(before.tasks[t].state) && Settled(now.tasks[t].state) ==> job.TellsOf(now, t))
  }

  /** The costs of the tasks that are not settled, added up. */
  function OpenCost(tasks: seq<TaskRow>, charge: nat -> real): real {
    if tasks == [] then 0.0
    else
      var n := |tasks| - 1;
      OpenCost(tasks[..n], charge) + if Settled(tasks[n].state) then 0.0 else charge(n)
  }

  function Charges(job: Job): nat -> real { (t: nat) => job.Charge(t) }

  /** Every open task will be answered, and its estimate fits the budget even if it comes last. */
  ghost predicate Affordable(job: Job, db: Db) {
    forall t: nat | t < |db.tasks| && !Settled(db.tasks[t].state) ::
      && job.generate(t).Response? && job.Charge(t) >= 0.0
      && db.actualCost + OpenCost(db.tasks, Charges(job)) - job.Charge(t) + job.estimate(t) <= db.budgetLimit
  }

  /** What is spent and what is still to come add up to the same, and nothing has failed since. */
  ghost predicate OnBudget(job: Job, before: Db, now: Db) {
    && Affordable(job, now) && now.failed == before.failed
    && now.actualCost + OpenCost(now.tasks, Charges(job)) == before.actualCost + OpenCost(before.tasks, Charges(job))
  }

  lemma {:induction false} OpenCostUpdate(tasks: seq<TaskRow>, t: nat, row: TaskRow, charge: nat -> real)
    requires t < |tasks|
    ensures OpenCost(tasks[t := row], charge)
            == OpenCost(tasks, charge) - (if Settled(tasks[t].state) then 0.0 else charge(t))
               + (if Settled(row.state) then 0.0 else charge(t))
  {
    var n := |tasks| - 1;
    if t == n {
      assert tasks[t := row][..n] == tasks[..n];
    } else {
      assert tasks[t := row][..n] == tasks[..n][t := row];
      OpenCostUpdate(tasks[..n], t, row, charge);
    }
  }

  lemma {:induction false} OpenCostAtLeast(tasks: seq<TaskRow>, charge: nat -> real, t: nat)
    requires t < |tasks| && !Settled(tasks[t].state)
    requires forall u: nat | u < |tasks| && !Settled(tasks[u].state) :: charge(u) >= 0.0
    ensures OpenCost(tasks, charge) >= charge(t)
  {
    var n := |tasks| - 1;
    if t < n {
      OpenCostAtLeast(tasks[..n], charge, t);
    } else {
      OpenCostNonNegative(tasks[..n], charge);
    }
  }

  lemma {:induction false} OpenCostNonNegative(tasks: seq<TaskRow>, charge: nat -> real)
    requires forall u: nat | u < |tasks| && !Settled(tasks[u].state) :: charge(u) >= 0.0
    ensures OpenCost(tasks, charge) >= 0.0
    ensures AllSettled(tasks) ==> OpenCost(tasks, charge) == 0.0
  {
    if tasks != [] {
      OpenCostNonNegative(tasks[..|tasks| - 1], charge);
    }
  }

  lemma UpdatedRow(a: seq<TaskRow>, b: seq<TaskRow>, t: nat)
    requires OnlyRow(a, b, t) && t < |a|
    ensures b == a[t := b[t]]
  {
  }

  /** A claim, or a start that the database then rejects, tells nothing new. */
  lemma QuietKeepsStory(job: Job, before: Db, mid: Db, after: Db, t: nat)
    requires Story(job, before, mid) && SameRecords(mid, after) && OnlyRow(mid.tasks, after.tasks, t)
    requires t < |mid.tasks| && !Settled(mid.tasks[t].state) && !Settled(after.tasks[t].state)
    ensures Story(job, before, after)
    ensures OnBudget(job, before, mid) ==> OnBudget(job, before, after)
  {
    forall u | 0 <= u < |before.tasks| && u != t && !Settled(before.tasks[u].state) && Settled(after.tasks[u].state)
      ensures job.TellsOf(after, u)
    {
      assert job.TellsOf(mid, u);
      StillTold(mid, after, u, job.estimate(u), job.generate(u), job.ids, job.evaluate(u), job.registered);
    }
    UpdatedRow(mid.tasks, after.tasks, t);
    OpenCostUpdate(mid.tasks, t, after.tasks[t], Charges(job));
  }

  /** Records are only ever added. */
  lemma StillTold(
    mid: Db, after: Db, t: nat, estimate: real, generation: Generation,
    ids: seq<string>, evaluate: string -> Evaluation, registered: string -> Option<string>)
    requires t < |mid.tasks| == |after.tasks| && after.tasks[t] == mid.tasks[t]
    requires mid.costs <= after.costs && mid.metrics <= after.metrics && mid.failures <= after.failures
    requires Told(mid, t, estimate, generation, ids, evaluate, registered)
    ensures Told(after, t, estimate, generation, ids, evaluate, registered)
  {
    if cost, outcomes :| ToldAnswer(mid, t, estimate, generation, ids, evaluate, registered, cost, outcomes) {
      assert ToldAnswer(after, t, estimate, generation, ids, evaluate, registered, cost, outcomes);
    }
  }

  lemma TurnIsTold(
    mid: Db, after: Db, t: nat, estimate: real, generation: Generation,
    ids: seq<string>, evaluate: string -> Evaluation, registered: string -> Option<string>)
    requires t < |after.tasks| && TurnEnds(mid, after, t, estimate, generation, ids, evaluate, registered)
    ensures Told(after, t, estimate, generation, ids, evaluate, registered)
  {
    if after.tasks[t].state == TaskFailed {
      assert after.failures[|mid.failures|] in after.failures;
    } else {
      var cost, outcomes :|
        AnswersWith(mid, after, t, estimate, generation, ids, evaluate, registered, cost, outcomes);
      assert after.costs[|mid.costs|] == CostRow(t, cost);
      forall i | 0 <= i < |outcomes| ensures MetricRow(t, outcomes[i]) in after.metrics {
        assert after.metrics[|mid.metrics| + i] == MetricRow(t, outcomes[i]);
      }
      assert ToldAnswer(after, t, estimate, generation, ids, evaluate, registered, cost, outcomes);
    }
  }

  /** One turn settles its task and tells of it. */
  lemma TurnKeepsStory(job: Job, before: Db, mid: Db, after: Db, t: nat)
    requires Story(job, before, mid) && t < |mid.tasks| && !Settled(mid.tasks[t].state)
    requires after.budgetLimit == mid.budgetLimit
    requires TurnEnds(mid, after, t, job.estimate(t), job.generate(t), job.ids, job.evaluate(t), job.registered)
    ensures Story(job, before, after)
    ensures OnBudget(job, before, mid) ==> OnBudget(job, before, after)
  {
    TurnIsTold(mid, after, t, job.estimate(t), job.generate(t), job.ids, job.evaluate(t), job.registered);
    forall u | 0 <= u < |before.tasks| && u != t && !Settled(before.tasks[u].state) && Settled(after.tasks[u].state)
      ensures job.TellsOf(after, u)
    {
      assert job.TellsOf(mid, u);
      StillTold(mid, after, u, job.estimate(u), job.generate(u), job.ids, job.evaluate(u), job.registered);
    }
    if OnBudget(job, before, mid) {
      OpenCostAtLeast(mid.tasks, Charges(job), t);
      var cost, outcomes :|
        AnswersWith(mid, after, t, job.estimate(t), job.generate(t), job.ids, job.evaluate(t), job.registered,
                    cost, outcomes);
      UpdatedRow(mid.tasks, after.tasks, t);
      OpenCostUpdate(mid.tasks, t, after.tasks[t], Charges(job));
    }
  }

  ghost predicate Suited(job: Job) { DistinctSuite(SuiteEntries(job.ids, job.registered)) }

  /** What the loop keeps, as long as the suite names no metric twice. */
  ghost predicate OnTrack(job: Job, before: Db, now: Db) {
    Suited(job) ==> Story(job, before, now) && (Affordable(job, before) ==> OnBudget(job, before, now))
  }

  lemma StartOnTrack(job: Job, before: Db, now: Db)
    requires now.tasks == before.tasks && SameRecords(before, now)
    ensures OnTrack(job, before, now)
  {
  }

  lemma ClaimOnTrack(job: Job, before: Db, mid: Db, after: Db, owner: string, t: nat)
    requires OnTrack(job, before, mid) && Claimed(mid, after, owner, Some(t))
    ensures OnTrack(job, before, after)
  {
    if Suited(job) {
      QuietKeepsStory(job, before, mid, after, t);
    }
  }

  lemma TurnOnTrack(job: Job, before: Db, mid: Db, after: Db, t: nat)
    requires OnTrack(job, before, mid) && t < |mid.tasks| && !Settled(mid.tasks[t].state)
    requires Suited(job) ==>
               && after.budgetLimit == mid.budgetLimit
               && TurnEnds(mid, after, t, job.estimate(t), job.generate(t), job.ids, job.evaluate(t), job.registered)
    ensures OnTrack(job, before, after)
  {
    if Suited(job) {
      TurnKeepsStory(job, before, mid, after, t);
    }
  }

  /** If every task is answered within the budget, the run completes, and it has cost what they cost. */
  ghost predicate CompletesAtCost(job: Job, before: Db, after: Db) {
    Suited(job) && HasWork(before) && Affordable(job, before) && before.failed == 0 ==>
      after.state == Completed && after.actualCost == before.actualCost + OpenCost(before.tasks, Charges(job))
  }

  /** When everything is settled, what was to come has been spent. */
  lemma FinishedOnTrack(job: Job, before: Db, after: Db)
    requires OnTrack(job, before, after) && Safe(after)
    requires HasWork(before) ==> after.state in {Completed, CompletedWithErrors}
    ensures CompletesAtCost(job, before, after)
  {
    if Suited(job) && HasWork(before) && Affordable(job, before) && before.failed == 0 {
      TerminalIsOver(after);
      OpenCostNonNegative(after.tasks, Charges(job));
    }
  }

  /** Nobody could claim anything. */
  ghost predicate NothingToTake(tasks: seq<TaskRow>, now: int) {
    forall t | 0 <= t < |tasks| :: !MayBeTaken(tasks[t], now)
  }

  /** One turn of the loop while the run is RUNNING: claim a task, and if there is one, see it through. */
  method LoopTurn(
    repository: SqlExperimentRepository, owner: string, now: int, estimate: nat -> real, generate: nat -> Generation,
    ids: seq<string>, evaluate: nat -> string -> Evaluation, registered: string -> Option<string>, ghost before: Db)
    returns (claimed: bool, r: Result<(), RunError>, ghost actions: seq<Action>)
    requires Safe(repository.Snapshot()) && repository.state == Running
    requires forall t: nat :: Honest(evaluate(t), registered)
    requires OnTrack(Job(estimate, generate, ids, evaluate, registered), before, repository.Snapshot())
    modifies repository
    ensures repository.Snapshot() == Replay(old(repository.Snapshot()), actions)
    ensures WorkerActions(actions, owner, estimate, SuiteEntries(ids, registered))
    ensures !claimed ==> r.Ok? && repository.Snapshot() == old(repository.Snapshot())
    ensures !claimed ==> NothingToTake(repository.tasks, now)
    ensures old(CompletedOrReady(repository.Snapshot())) ==> claimed
    ensures claimed && r.Ok? ==>
              Safe(repository.Snapshot()) && Unsettled(repository.tasks) < old(Unsettled(repository.tasks))
    ensures r.Ok? && old(CompletedOrReady(repository.Snapshot())) ==> CompletedOrReady(repository.Snapshot())
    ensures DistinctSuite(SuiteEntries(ids, registered)) ==> r.Ok?
    ensures CostsWithinEstimates(generate, estimate) && old(WithinBudget(repository.Snapshot())) ==>
      WithinBudget(repository.Snapshot())
    ensures OnTrack(Job(estimate, generate, ids, evaluate, registered), before, repository.Snapshot())
  {
    ghost var job, ready := Job(estimate, generate, ids, evaluate, registered), repository.Snapshot();
    ghost var claim := ClaimTask(owner, now, {});
    actions := [claim];
    ReplaySingle(ready, claim);
    var found := ClaimTurn(repository, owner, now);
    if found.None? {
      if CompletedOrReady(ready) {
        SomethingClaimable(ready, now);
      }
      NothingClaimable(repository.tasks, now);
      return false, Ok(()), actions;
    }
    var t := found.value;
    ghost var leased := repository.Snapshot();
    ClaimOnTrack(job, before, ready, leased, owner, t);
    claimed := true;
    r, actions := ExecuteTurn(repository, owner, t, estimate(t), generate(t), ids, evaluate(t), registered);
    TurnOnTrack(job, before, leased, repository.Snapshot(), t);
    TurnTrace(ready, leased, repository.Snapshot(), claim, actions, owner, t, estimate, SuiteEntries(ids, registered));
    actions := [claim] + actions;
  }

  /** The claim and what follows it, as one sequence of actions. */
  lemma {:induction false} TurnTrace(ready: Db, leased: Db, after: Db, claim: Action, rest: seq<Action>,
                                     owner: string, t: nat, estimate: nat -> real, suite: seq<SuiteEntry>)
    requires claim.ClaimTask? && claim.owner == owner && leased == Apply(ready, claim) && after == Replay(leased, rest)
    requires TurnActions(rest, owner, t, estimate(t), suite)
    ensures Replay(ready, [claim] + rest) == after && WorkerActions([claim] + rest, owner, estimate, suite)
  {
    ReplaySingle(ready, claim);
    ReplayConcat(ready, [claim], rest);
    AppendTurn([claim], rest, owner, t, estimate, suite);
  }

  lemma AppendActions(trace: seq<Action>, actions: seq<Action>, owner: string, estimate: nat -> real,
                      suite: seq<SuiteEntry>)
    requires WorkerActions(trace, owner, estimate, suite) && WorkerActions(actions, owner, estimate, suite)
    ensures WorkerActions(trace + actions, owner, estimate, suite)
  {
  }

  /** `_execute_run`, with nothing else touching the run while it executes. */
  method ExecuteRun(
    repository: SqlExperimentRepository, owner: string, clock: nat -> int,
    estimate: nat -> real, generate: nat -> Generation,
    ids: seq<string>, evaluate: nat -> string -> Evaluation, registered: string -> Option<string>)
    returns (exit: Exit, ghost trace: seq<Action>)
    requires Safe(repository.Snapshot())
    requires forall t: nat :: Honest(evaluate(t), registered)
    modifies repository
    ensures repository.Snapshot() == Replay(old(repository.Snapshot()), trace)
    ensures WorkerActions(trace, owner, estimate, SuiteEntries(ids, registered))
    ensures DistinctSuite(SuiteEntries(ids, registered)) ==> exit == Finished
    ensures CostsWithinEstimates(generate, estimate) && old(WithinBudget(repository.Snapshot())) ==>
      WithinBudget(repository.Snapshot())
    ensures exit == Finished && old(HasWork(repository.Snapshot())) ==>
      repository.state in {Completed, CompletedWithErrors}
    ensures old(repository.state) !in {Queued, Running} ==>
      exit == Finished && trace == [] && repository.Snapshot() == old(repository.Snapshot())
    ensures exit == Finished && repository.state == Running ==>
      exists tick: nat :: NothingToTake(repository.tasks, clock(tick))
    ensures old(repository.state) in {Queued, Running} ==>
      OnTrack(Job(estimate, generate, ids, evaluate, registered), old(repository.Snapshot()), repository.Snapshot())
    ensures exit == Finished ==>
      CompletesAtCost(Job(estimate, generate, ids, evaluate, registered), old(repository.Snapshot()),
                      repository.Snapshot())
  {
    ghost var before := repository.Snapshot();
    ghost var job, suite := Job(estimate, generate, ids, evaluate, registered), SuiteEntries(ids, registered);
    trace := [];
    if repository.state == Queued {
      var _ := repository.TransitionRun(Running);
    } else if repository.state != Running {
      return Finished, trace;
    }
    ReplayOne(before, trace, Start);
    StartEffect(before);
    trace := trace + [Start];
    StartOnTrack(job, before, repository.Snapshot());
    var ticks := 0;
    while true
      invariant repository.Snapshot() == Replay(before, trace)
      invariant WorkerActions(trace, owner, estimate, suite)
      invariant Safe(repository.Snapshot())
      invariant CostsWithinEstimates(generate, estimate) && WithinBudget(before) ==> WithinBudget(repository.Snapshot())
      invariant HasWork(before) ==> CompletedOrReady(repository.Snapshot())
      invariant OnTrack(job, before, repository.Snapshot())
      decreases Unsettled(repository.tasks)
    {
      if repository.state != Running {
        FinishedOnTrack(job, before, repository.Snapshot());
        return Finished, trace;
      }
      var claimed, r, actions :=
        LoopTurn(repository, owner, clock(ticks), estimate, generate, ids, evaluate, registered, before);
      ReplayConcat(before, trace, actions);
      AppendActions(trace, actions, owner, estimate, suite);
      trace := trace + actions;
      if !claimed {
        return Finished, trace;
      }
      if r.Err? {
        return Raised(r.error), trace;
      }
      ticks := ticks + 1;
    }
  }

  lemma {:induction false} NothingClaimable(tasks: seq<TaskRow>, now: int)
    requires FirstClaimable(tasks, now, {}).None?
    ensures NothingToTake(tasks, now)
  {
    forall t | 0 <= t < |tasks| ensures !MayBeTaken(tasks[t], now) {
      assert !Claimable(tasks[t], now);
    }
  }

  /** Queued or running, with something left to settle and nothing in flight. */
  ghost predicate HasWork(db: Db) {
    db.state in {Queued, Running} && NoneActive(db.tasks) && SettledCount(db) < db.total
  }

  ghost predicate CompletedOrReady(db: Db) {
    || db.state in {Completed, CompletedWithErrors}
    || (db.state == Running && NoneActive(db.tasks) && SettledCount(db) < db.total)
  }

  lemma StartEffect(db: Db)
    requires Safe(db) && db.state in {Queued, Running}
    ensures var next := Apply(db, Start);
            && Safe(next) && next.state == Running && next.tasks == db.tasks && SameRecords(db, next)
            && (db.state == Queued ==> NoneActive(next.tasks))
  {
    ActionKeepsLedger(db, Start);
    ActionKeepsLog(db, Start);
    ActionKeepsStates(db, Start);
    SettledCounts(db.tasks);
  }

  /** With no task in flight, something unsettled can always be claimed. */
  lemma {:induction false} SomethingClaimable(db: Db, now: int)
    requires Safe(db) && NoneActive(db.tasks) && SettledCount(db) < db.total
    ensures FirstClaimable(db.tasks, now, {}).Some?
  {
    if FirstClaimable(db.tasks, now, {}).None? {
      forall t | 0 <= t < |db.tasks| ensures Settled(db.tasks[t].state) {
        assert !Claimable(db.tasks[t], now);
      }
      SettledCounts(db.tasks);
    }
  }
}
