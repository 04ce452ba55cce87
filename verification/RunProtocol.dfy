/**
 Every interleaving of workers and API calls over one run. Each action is one
 transaction; an action that raises leaves the stored state as it was. Nothing
 ties an action to the worker that holds a lease, so duplicated, crashed and
 stale workers are all included.
 */
module RunProtocol {
  import opened Results
  import opened Counting
  import opened Execution
  import opened RunLedger

  const LEASE_SECONDS := 120

  datatype Action =
    | Start
    | ClaimTask(owner: string, now: int, locked: set<nat>)
    | BeginTask(owner: string, task: nat, estimate: real)
    | Succeed(task: nat, cost: real, outcomes: seq<MetricOutcome>)
    | Fail(task: nat, category: FailureCategory)
    | Pause
    | Resume
    | Cancel
    | TransitionTo(target: RunState)

  function Begin(db: Db, owner: string, t: nat, estimate: real): Result<Db, RunError> {
    if db.actualCost + estimate > db.budgetLimit then
      match MarkTaskRunning(db, t, owner)
      case Err(e) => Err(e)
      case Ok(marked) => CompleteTaskFailure(marked, t, BudgetExceeded)
    else MarkTaskRunning(db, t, owner)
  }

  function Step(db: Db, a: Action): Result<Db, RunError> {
    match a
    case Start => if db.state == Queued then TransitionRun(db, Running) else Ok(db)
    case ClaimTask(owner, now, locked) =>
      if db.state != Running then Ok(db) else Ok(ClaimNextTask(db, owner, now, LEASE_SECONDS, locked).0)
    case BeginTask(owner, t, estimate) => Begin(db, owner, t, estimate)
    case Succeed(t, cost, outcomes) => CompleteTaskSuccess(db, t, cost, outcomes)
    case Fail(t, category) => CompleteTaskFailure(db, t, category)
    case Pause => PauseRun(db)
    case Resume => ResumeRun(db)
    case Cancel => CancelRun(db)
    case TransitionTo(target) => TransitionRun(db, target)
  }

  function Apply(db: Db, a: Action): Db {
    match Step(db, a)
    case Ok(next) => next
    case Err(_) => db
  }

  function Replay(db: Db, actions: seq<Action>): Db {
    if actions == [] then db
    else Apply(Replay(db, actions[..|actions| - 1]), actions[|actions| - 1])
  }

  /** The actions workers and the API take: none transitions the run to a state of its choosing. */
  ghost predicate Protocol(actions: seq<Action>) {
    forall a | a in actions :: !a.TransitionTo?
  }

  // ---------- counting tasks ----------

  /** Every task is in exactly one state. */
  lemma {:induction false} CountTotal(tasks: seq<TaskRow>)
    ensures |tasks| == Count(tasks, TaskPending) + Count(tasks, TaskLeased) + Count(tasks, TaskRunning)
                       + Count(tasks, TaskSucceeded) + Count(tasks, TaskFailed) + Count(tasks, TaskCancelled)
  {
    if tasks != [] {
      CountTotal(tasks[..|tasks| - 1]);
    }
  }

  lemma CountUpdate(tasks: seq<TaskRow>, t: nat, row: TaskRow)
    requires t < |tasks|
    ensures forall s :: Count(tasks[t := row], s) + (if tasks[t].state == s then 1 else 0)
                        == Count(tasks, s) + if row.state == s then 1 else 0
  {
    forall s ensures Count(tasks[t := row], s) + (if tasks[t].state == s then 1 else 0)
                     == Count(tasks, s) + if row.state == s then 1 else 0
    {
      HitsUpdate(tasks, t, row, InState(s));
    }
  }

  lemma CountPositive(tasks: seq<TaskRow>, t: nat)
    requires t < |tasks|
    ensures Count(tasks, tasks[t].state) > 0
  {
    HitsPositive(tasks, t, InState(tasks[t].state));
  }

  lemma {:induction false} CancelCounts(tasks: seq<TaskRow>)
    ensures Count(CancelOpen(tasks), TaskPending) == 0
    ensures Count(CancelOpen(tasks), TaskLeased) == 0
    ensures Count(CancelOpen(tasks), TaskRunning) == Count(tasks, TaskRunning)
    ensures Count(CancelOpen(tasks), TaskSucceeded) == Count(tasks, TaskSucceeded)
    ensures Count(CancelOpen(tasks), TaskFailed) == Count(tasks, TaskFailed)
    ensures Count(CancelOpen(tasks), TaskCancelled)
            == Count(tasks, TaskCancelled) + Count(tasks, TaskPending) + Count(tasks, TaskLeased)
  {
    if tasks != [] {
      var n := |tasks| - 1;
      assert CancelOpen(tasks)[..n] == CancelOpen(tasks[..n]);
      CancelCounts(tasks[..n]);
    }
  }

  lemma {:induction false} PendingCounts(specs: seq<TaskSpec>)
    ensures Count(PendingRows(specs), TaskPending) == |specs|
    ensures forall s | s != TaskPending :: Count(PendingRows(specs), s) == 0
  {
    if specs != [] {
      var n := |specs| - 1;
      assert PendingRows(specs)[..n] == PendingRows(specs[..n]);
      PendingCounts(specs[..n]);
      forall s | s != TaskPending ensures Count(PendingRows(specs), s) == 0 {
        assert Count(PendingRows(specs[..n]), s) == 0;
      }
    }
  }

  // ---------- settlement: counters, samples, ledger ----------

  /** The stored counters are a census of the tasks. */
  ghost predicate Census(db: Db) {
    && db.total == |db.tasks|
    && db.succeeded == Count(db.tasks, TaskSucceeded)
    && db.failed == Count(db.tasks, TaskFailed)
    && db.cancelled == Count(db.tasks, TaskCancelled)
  }

  function SampleIs(t: nat, s: SampleStatus): SampleRow -> bool { (r: SampleRow) => r == SampleRow(t, s) }
  function CostOf(t: nat): CostRow -> bool { (r: CostRow) => r.task == t }
  function FailureOf(t: nat): FailureRow -> bool { (r: FailureRow) => r.task == t }
  function AttemptOf(t: nat): AttemptRow -> bool { (r: AttemptRow) => r.task == t }

  function One(b: bool): nat { if b then 1 else 0 }

  /** What settling has written for one task, according to its state. */
  ghost predicate SettledOnce(db: Db, t: nat)
    requires t < |db.tasks|
  {
    var s := db.tasks[t].state;
    && Hits(db.samples, SampleOf(t)) == One(s in {TaskSucceeded, TaskFailed})
    && Hits(db.samples, SampleIs(t, SampleSucceeded)) == One(s == TaskSucceeded)
    && Hits(db.samples, SampleIs(t, SampleFailed)) == One(s == TaskFailed)
    && Hits(db.costs, CostOf(t)) == One(s == TaskSucceeded)
    && Hits(db.failures, FailureOf(t)) == One(s == TaskFailed)
    && Hits(db.attempts, AttemptOf(t)) == db.tasks[t].attemptCount
  }

  function SumCosts(costs: seq<CostRow>): real {
    if costs == [] then 0.0 else SumCosts(costs[..|costs| - 1]) + costs[|costs| - 1].amount
  }

  ghost predicate Ledger(db: Db) {
    && (forall t: nat | t < |db.tasks| :: SettledOnce(db, t))
    && db.actualCost == SumCosts(db.costs)
  }

  /** A change to one task row leaves every other task's rows alone. */
  lemma MarkKeepsLedger(db: Db, t: nat, owner: string)
    requires Ledger(db) && MarkTaskRunning(db, t, owner).Ok?
    ensures Ledger(MarkTaskRunning(db, t, owner).value)
  {
    var next := MarkTaskRunning(db, t, owner).value;
    forall u: nat | u < |next.tasks| ensures SettledOnce(next, u) {
      assert SettledOnce(db, u);
      HitsAppend(db.attempts, AttemptRow(t, next.tasks[t].attemptCount), AttemptOf(u));
    }
  }

  lemma MarkKeepsCensus(db: Db, t: nat, owner: string)
    requires Census(db) && MarkTaskRunning(db, t, owner).Ok?
    ensures Census(MarkTaskRunning(db, t, owner).value)
  {
    CountUpdate(db.tasks, t, MarkTaskRunning(db, t, owner).value.tasks[t]);
  }

  /** FinalizeIfSettled moves the run, never its tasks or records. */
  lemma FinalizeFrame(db: Db)
    ensures FinalizeIfSettled(db).(state := db.state, versionStamp := db.versionStamp, events := db.events) == db
  {
  }

  lemma FinalizeKeepsLedger(db: Db)
    requires Ledger(db) && Census(db)
    ensures Ledger(FinalizeIfSettled(db)) && Census(FinalizeIfSettled(db))
  {
    var next := FinalizeIfSettled(db);
    FinalizeFrame(db);
    assert next.tasks == db.tasks && next.samples == db.samples && next.costs == db.costs
           && next.failures == db.failures && next.attempts == db.attempts;
    forall u: nat | u < |next.tasks| ensures SettledOnce(next, u) {
      assert SettledOnce(db, u);
    }
  }

  lemma FailureKeepsLedger(db: Db, t: nat, category: FailureCategory)
    requires Ledger(db) && Census(db) && t < |db.tasks| && !Settled(db.tasks[t].state)
    ensures Ledger(FailedDb(db, t, category)) && Census(FailedDb(db, t, category))
  {
    var next := FailedDb(db, t, category);
    assert SettledOnce(db, t);
    CountUpdate(db.tasks, t, next.tasks[t]);
    forall u: nat | u < |next.tasks| ensures SettledOnce(next, u) {
      assert SettledOnce(db, u);
      HitsAppend(db.samples, SampleRow(t, SampleFailed), SampleOf(u));
      HitsAppend(db.samples, SampleRow(t, SampleFailed), SampleIs(u, SampleSucceeded));
      HitsAppend(db.samples, SampleRow(t, SampleFailed), SampleIs(u, SampleFailed));
      HitsAppend(db.failures, FailureRow(t, category), FailureOf(u));
    }
  }

  lemma SuccessKeepsLedger(db: Db, t: nat, cost: real, outcomes: seq<MetricOutcome>)
    requires Ledger(db) && Census(db) && t < |db.tasks| && db.tasks[t].state == TaskRunning && UniqueMetrics(outcomes)
    ensures CompleteTaskSuccess(db, t, cost, outcomes) == Ok(FinalizeIfSettled(SucceededDb(db, t, cost, outcomes)))
    ensures Ledger(SucceededDb(db, t, cost, outcomes)) && Census(SucceededDb(db, t, cost, outcomes))
  {
    var next := SucceededDb(db, t, cost, outcomes);
    assert SettledOnce(db, t);
    CountUpdate(db.tasks, t, next.tasks[t]);
    assert next.costs[..|db.costs|] == db.costs;
    forall u: nat | u < |next.tasks| ensures SettledOnce(next, u) {
      assert SettledOnce(db, u);
      HitsAppend(db.samples, SampleRow(t, SampleSucceeded), SampleOf(u));
      HitsAppend(db.samples, SampleRow(t, SampleSucceeded), SampleIs(u, SampleSucceeded));
      HitsAppend(db.samples, SampleRow(t, SampleSucceeded), SampleIs(u, SampleFailed));
      HitsAppend(db.costs, CostRow(t, cost), CostOf(u));
    }
  }

  lemma ClaimKeepsLedger(db: Db, owner: string, now: int, leaseSeconds: int, locked: set<nat>)
    requires Ledger(db) && Census(db)
    ensures var next := ClaimNextTask(db, owner, now, leaseSeconds, locked).0; Ledger(next) && Census(next)
  {
    var (next, found) := ClaimNextTask(db, owner, now, leaseSeconds, locked);
    if found.Some? {
      CountUpdate(db.tasks, found.value, next.tasks[found.value]);
    }
    forall u: nat | u < |next.tasks| ensures SettledOnce(next, u) {
      assert SettledOnce(db, u);
    }
  }

  lemma CancelKeepsLedger(db: Db)
    requires Ledger(db) && Census(db) && CancelRun(db).Ok?
    ensures var next := CancelRun(db).value; Ledger(next) && Census(next)
  {
    var next := CancelRun(db).value;
    assert next.tasks == CancelOpen(db.tasks);
    CancelCounts(db.tasks);
    forall u: nat | u < |next.tasks| ensures SettledOnce(next, u) {
      assert SettledOnce(db, u);
    }
  }

  lemma TransitionKeepsLedger(db: Db, target: RunState)
    requires Ledger(db) && Census(db) && TransitionRun(db, target).Ok?
    ensures var next := TransitionRun(db, target).value; Ledger(next) && Census(next)
  {
    var next := TransitionRun(db, target).value;
    forall u: nat | u < |next.tasks| ensures SettledOnce(next, u) {
      assert SettledOnce(db, u);
    }
  }

  lemma BeginCases(db: Db, owner: string, t: nat, estimate: real)
    requires Ledger(db) && Census(db) && Begin(db, owner, t, estimate).Ok?
    ensures MarkTaskRunning(db, t, owner).Ok?
    ensures var marked := MarkTaskRunning(db, t, owner).value;
            && Ledger(marked) && Census(marked)
            && Begin(db, owner, t, estimate).value ==
               if db.actualCost + estimate > db.budgetLimit
               then FinalizeIfSettled(FailedDb(marked, t, BudgetExceeded))
               else marked
  {
    MarkKeepsLedger(db, t, owner);
    MarkKeepsCensus(db, t, owner);
    var marked := MarkTaskRunning(db, t, owner).value;
    FailureKeepsLedger(marked, t, BudgetExceeded);
  }

  /** Counters and ledger survive every action, even an arbitrary transition. */
  lemma ActionKeepsLedger(db: Db, a: Action)
    requires Ledger(db) && Census(db)
    ensures Ledger(Apply(db, a)) && Census(Apply(db, a))
  {
    if Step(db, a).Ok? {
      match a
      case Start => if db.state == Queued { TransitionKeepsLedger(db, Running); }
      case ClaimTask(owner, now, locked) => ClaimKeepsLedger(db, owner, now, LEASE_SECONDS, locked);
      case BeginTask(owner, t, estimate) =>
        BeginCases(db, owner, t, estimate);
        var marked := MarkTaskRunning(db, t, owner).value;
        FailureKeepsLedger(marked, t, BudgetExceeded);
        FinalizeKeepsLedger(FailedDb(marked, t, BudgetExceeded));
      case Succeed(t, cost, outcomes) =>
        if db.tasks[t].state == TaskRunning {
          assert SettledOnce(db, t);
          SuccessKeepsLedger(db, t, cost, outcomes);
          FinalizeKeepsLedger(SucceededDb(db, t, cost, outcomes));
        }
      case Fail(t, category) =>
        if !Settled(db.tasks[t].state) {
          FailureKeepsLedger(db, t, category);
          FinalizeKeepsLedger(FailedDb(db, t, category));
        }
      case Pause =>
        TransitionKeepsLedger(db, Pausing);
        if Active(db.tasks) == 0 { TransitionKeepsLedger(TransitionRun(db, Pausing).value, Paused); }
      case Resume => TransitionKeepsLedger(db, Queued);
      case Cancel => CancelKeepsLedger(db);
      case TransitionTo(target) => TransitionKeepsLedger(db, target);
    }
  }
}
