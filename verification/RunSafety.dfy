/**
 Safety over every run of the protocol: the state-event log, what each run
 state says about the tasks, settlement at most once, and terminal states.
 */
module RunSafety {
  import opened Results
  import opened Counting
  import opened Execution
  import opened RunLedger
  import opened RunProtocol

  // ---------- the state-event log ----------

  /** Gap-free from 0, starting at DRAFT, each step allowed, ending in the run's state. */
  ghost predicate Log(db: Db) {
    && db.events != []
    && db.events[0] == StateEvent(0, None, Draft)
    && (forall i | 0 <= i < |db.events| :: db.events[i].sequence == i)
    && (forall i | 0 < i < |db.events| ::
          && db.events[i].source == Some(db.events[i - 1].target)
          && db.events[i].target in Allowed(db.events[i - 1].target))
    && db.events[|db.events| - 1].target == db.state
    && db.versionStamp == |db.events|
  }

  lemma {:induction false} MaxOfGapFree(events: seq<StateEvent>)
    requires forall i | 0 <= i < |events| :: events[i].sequence == i
    ensures MaxSequence(events) == |events| - 1
  {
    if events != [] {
      MaxOfGapFree(events[..|events| - 1]);
    }
  }

  lemma TransitionKeepsLog(db: Db, target: RunState)
    requires Log(db) && target in Allowed(db.state)
    ensures Log(TransitionRun(db, target).value)
  {
    MaxOfGapFree(db.events);
  }

  /** Settling a task writes no event of its own; finalizing may write one. */
  lemma SettleKeepsLog(db: Db, mid: Db)
    requires Log(db) && mid.events == db.events && mid.state == db.state && mid.versionStamp == db.versionStamp
    ensures Log(FinalizeIfSettled(mid))
  {
    var next := FinalizeIfSettled(mid);
    if next.state != mid.state {
      TransitionKeepsLog(mid, next.state);
    }
  }

  lemma BeginKeepsLog(db: Db, owner: string, t: nat, estimate: real)
    requires Log(db) && Census(db) && Ledger(db) && Begin(db, owner, t, estimate).Ok?
    ensures Log(Begin(db, owner, t, estimate).value)
  {
    BeginCases(db, owner, t, estimate);
    SettleKeepsLog(db, FailedDb(MarkTaskRunning(db, t, owner).value, t, BudgetExceeded));
  }

  lemma SucceedKeepsLog(db: Db, t: nat, cost: real, outcomes: seq<MetricOutcome>)
    requires Log(db) && Census(db) && Ledger(db) && CompleteTaskSuccess(db, t, cost, outcomes).Ok?
    ensures Log(CompleteTaskSuccess(db, t, cost, outcomes).value)
  {
    if db.tasks[t].state == TaskRunning {
      assert SettledOnce(db, t);
      SettleKeepsLog(db, SucceededDb(db, t, cost, outcomes));
    }
  }

  lemma FailKeepsLog(db: Db, t: nat, category: FailureCategory)
    requires Log(db) && Census(db) && Ledger(db) && CompleteTaskFailure(db, t, category).Ok?
    ensures Log(CompleteTaskFailure(db, t, category).value)
  {
    if !Settled(db.tasks[t].state) {
      assert SettledOnce(db, t);
      SettleKeepsLog(db, FailedDb(db, t, category));
    }
  }

  lemma CancelKeepsLog(db: Db)
    requires Log(db) && CancelRun(db).Ok?
    ensures Log(CancelRun(db).value)
  {
    TransitionKeepsLog(db, Cancelling);
    var swept := TransitionRun(db, Cancelling).value.(
      tasks := CancelOpen(db.tasks),
      cancelled := db.cancelled + Count(db.tasks, TaskPending) + Count(db.tasks, TaskLeased));
    assert Log(swept);
    if Count(swept.tasks, TaskRunning) == 0 {
      TransitionKeepsLog(swept, RunState.Cancelled);
    }
  }

  /** The log invariant needs no assumption on who calls what. */
  lemma ActionKeepsLog(db: Db, a: Action)
    requires Log(db) && Census(db) && Ledger(db)
    ensures Log(Apply(db, a))
  {
    if Step(db, a).Ok? {
      match a
      case Start => if db.state == Queued { TransitionKeepsLog(db, Running); }
      case ClaimTask(_, _, _) =>
      case BeginTask(owner, t, estimate) => BeginKeepsLog(db, owner, t, estimate);
      case Succeed(t, cost, outcomes) => SucceedKeepsLog(db, t, cost, outcomes);
      case Fail(t, category) => FailKeepsLog(db, t, category);
      case Pause =>
        TransitionKeepsLog(db, Pausing);
        if Active(db.tasks) == 0 { TransitionKeepsLog(TransitionRun(db, Pausing).value, Paused); }
      case Resume => TransitionKeepsLog(db, Queued);
      case Cancel => CancelKeepsLog(db);
      case TransitionTo(target) => TransitionKeepsLog(db, target);
    }
  }

  // ---------- what the run state says about the tasks ----------

  ghost predicate AllSettled(tasks: seq<TaskRow>) {
    forall t | 0 <= t < |tasks| :: Settled(tasks[t].state)
  }

  ghost predicate NoneActive(tasks: seq<TaskRow>) {
    forall t | 0 <= t < |tasks| :: tasks[t].state !in {TaskLeased, TaskRunning}
  }

  /** The number of tasks in each state. */
  datatype Tally = Tally(pending: int, leased: int, running: int, succeeded: int, failed: int, cancelled: int)

  function TallyOf(tasks: seq<TaskRow>): Tally {
    Tally(Count(tasks, TaskPending), Count(tasks, TaskLeased), Count(tasks, TaskRunning),
          Count(tasks, TaskSucceeded), Count(tasks, TaskFailed), Count(tasks, TaskCancelled))
  }

  /** The same, as counts of tasks: the form that is kept step by step. */
  ghost predicate Permits(state: RunState, n: Tally) {
    && (state !in {Cancelling, RunState.Cancelled} ==> n.cancelled == 0)
    && match state
       case Queued => n.leased + n.running == 0
       case Paused => n.leased + n.running == 0
       case Pausing => n.leased + n.running > 0
       case Cancelling => n.pending + n.leased == 0 && n.running > 0
       case Cancelled => n.pending + n.leased + n.running == 0
       case Completed => n.pending + n.leased + n.running + n.failed == 0
       case CompletedWithErrors => n.failed > 0 && n.pending + n.leased + n.running == 0
       case Running => true
       case _ => false
  }

  ghost predicate StateCounts(db: Db) { Permits(db.state, TallyOf(db.tasks)) }

  lemma ClaimKeepsStates(db: Db, owner: string, now: int, locked: set<nat>)
    requires Census(db) && StateCounts(db) && db.state == Running
    ensures StateCounts(ClaimNextTask(db, owner, now, LEASE_SECONDS, locked).0)
  {
    var (next, found) := ClaimNextTask(db, owner, now, LEASE_SECONDS, locked);
    if found.Some? {
      CountUpdate(db.tasks, found.value, next.tasks[found.value]);
    }
  }

  lemma MarkKeepsStates(db: Db, t: nat, owner: string)
    requires Census(db) && StateCounts(db) && MarkTaskRunning(db, t, owner).Ok?
    ensures StateCounts(MarkTaskRunning(db, t, owner).value)
  {
    CountTotal(db.tasks);
    CountPositive(db.tasks, t);
    CountUpdate(db.tasks, t, MarkTaskRunning(db, t, owner).value.tasks[t]);
  }

  /** Where finalizing leaves the run, by the counts alone. */
  lemma FinalizePermits(mid: Db)
    requires Census(mid) && mid.state !in {Completed, CompletedWithErrors, RunState.Cancelled}
    requires mid.state == Pausing || Permits(mid.state, TallyOf(mid.tasks)) || mid.state == Cancelling
    requires mid.state == Pausing ==> TallyOf(mid.tasks).cancelled == 0
    requires mid.state == Cancelling ==> TallyOf(mid.tasks).pending + TallyOf(mid.tasks).leased == 0
    ensures StateCounts(FinalizeIfSettled(mid))
  {
    CountTotal(mid.tasks);
    FinalizeFrame(mid);
  }

  /** Settling one task and finalizing keeps the state constraints. */
  lemma SettleKeepsStates(db: Db, mid: Db, t: nat)
    requires Census(db) && StateCounts(db) && Census(mid) && mid.state == db.state
    requires t < |db.tasks| && !Settled(db.tasks[t].state)
    requires |mid.tasks| == |db.tasks| && mid.tasks == db.tasks[t := mid.tasks[t]]
    requires mid.tasks[t].state in {TaskSucceeded, TaskFailed}
    ensures StateCounts(FinalizeIfSettled(mid))
  {
    CountTotal(db.tasks);
    CountPositive(db.tasks, t);
    CountUpdate(db.tasks, t, mid.tasks[t]);
    FinalizePermits(mid);
  }

  lemma CancelKeepsStates(db: Db)
    requires Census(db) && StateCounts(db) && CancelRun(db).Ok?
    ensures StateCounts(CancelRun(db).value)
  {
    CancelCounts(db.tasks);
  }

  lemma BeginKeepsStates(db: Db, owner: string, t: nat, estimate: real)
    requires Census(db) && Ledger(db) && StateCounts(db) && Begin(db, owner, t, estimate).Ok?
    ensures StateCounts(Begin(db, owner, t, estimate).value)
  {
    BeginCases(db, owner, t, estimate);
    MarkKeepsStates(db, t, owner);
    var marked := MarkTaskRunning(db, t, owner).value;
    FailureKeepsLedger(marked, t, BudgetExceeded);
    SettleKeepsStates(marked, FailedDb(marked, t, BudgetExceeded), t);
  }

  lemma SucceedKeepsStates(db: Db, t: nat, cost: real, outcomes: seq<MetricOutcome>)
    requires Census(db) && Ledger(db) && StateCounts(db) && CompleteTaskSuccess(db, t, cost, outcomes).Ok?
    ensures StateCounts(CompleteTaskSuccess(db, t, cost, outcomes).value)
  {
    if db.tasks[t].state == TaskRunning {
      assert SettledOnce(db, t);
      SuccessKeepsLedger(db, t, cost, outcomes);
      SettleKeepsStates(db, SucceededDb(db, t, cost, outcomes), t);
    }
  }

  lemma FailKeepsStates(db: Db, t: nat, category: FailureCategory)
    requires Census(db) && Ledger(db) && StateCounts(db) && CompleteTaskFailure(db, t, category).Ok?
    ensures StateCounts(CompleteTaskFailure(db, t, category).value)
  {
    if !Settled(db.tasks[t].state) {
      FailureKeepsLedger(db, t, category);
      SettleKeepsStates(db, FailedDb(db, t, category), t);
    }
  }

  lemma ActionKeepsStates(db: Db, a: Action)
    requires Census(db) && Ledger(db) && StateCounts(db) && !a.TransitionTo?
    ensures StateCounts(Apply(db, a))
  {
    if Step(db, a).Ok? {
      match a
      case ClaimTask(owner, now, locked) => if db.state == Running { ClaimKeepsStates(db, owner, now, locked); }
      case BeginTask(owner, t, estimate) => BeginKeepsStates(db, owner, t, estimate);
      case Succeed(t, cost, outcomes) => SucceedKeepsStates(db, t, cost, outcomes);
      case Fail(t, category) => FailKeepsStates(db, t, category);
      case Cancel => CancelKeepsStates(db);
      case _ =>
    }
  }

  // ---------- every run ----------

  ghost predicate Safe(db: Db) {
    Census(db) && Ledger(db) && Log(db) && StateCounts(db)
  }

  lemma CreatedSafe(specs: seq<TaskSpec>, limit: real)
    ensures Safe(Created(specs, limit))
  {
    PendingCounts(specs);
    var db := Created(specs, limit);
    forall t: nat | t < |db.tasks| ensures SettledOnce(db, t) {
    }
  }

  lemma {:induction false} ReplaySafe(db: Db, actions: seq<Action>)
    requires Safe(db) && Protocol(actions)
    ensures Safe(Replay(db, actions))
  {
    if actions != [] {
      var n := |actions| - 1;
      ReplaySafe(db, actions[..n]);
      var before := Replay(db, actions[..n]);
      ActionKeepsLedger(before, actions[n]);
      ActionKeepsLog(before, actions[n]);
      ActionKeepsStates(before, actions[n]);
    }
  }

  lemma {:induction false} ReachableSafe(specs: seq<TaskSpec>, limit: real, actions: seq<Action>)
    requires Protocol(actions)
    ensures Safe(Replay(Created(specs, limit), actions))
    ensures |Replay(Created(specs, limit), actions).tasks| == |specs|
  {
    CreatedSafe(specs, limit);
    ReplaySafe(Created(specs, limit), actions);
    ReplayKeepsSize(Created(specs, limit), actions);
  }

  /** The counters never drift from the tasks, so they never sum past the total. */
  lemma {:induction false} CountersAreTheCensus(specs: seq<TaskSpec>, limit: real, actions: seq<Action>)
    requires Protocol(actions)
    ensures var db := Replay(Created(specs, limit), actions);
            && db.total == |specs| == |db.tasks|
            && db.succeeded == Count(db.tasks, TaskSucceeded)
            && db.failed == Count(db.tasks, TaskFailed)
            && db.cancelled == Count(db.tasks, TaskCancelled)
            && 0 <= db.succeeded + db.failed + db.cancelled <= db.total
            && (db.succeeded + db.failed + db.cancelled == db.total <==> AllSettled(db.tasks))
  {
    ReachableSafe(specs, limit, actions);
    CensusBounds(Replay(Created(specs, limit), actions));
  }

  lemma CensusBounds(db: Db)
    requires Census(db)
    ensures 0 <= db.succeeded + db.failed + db.cancelled <= db.total
    ensures db.succeeded + db.failed + db.cancelled == db.total <==> AllSettled(db.tasks)
  {
    CountTotal(db.tasks);
    SettledCounts(db.tasks);
  }

  ghost predicate SameSize(db: Db, next: Db) {
    |next.tasks| == |db.tasks| && next.total == db.total && next.budgetLimit == db.budgetLimit
  }

  lemma FailKeepsSize(db: Db, t: nat, category: FailureCategory)
    requires CompleteTaskFailure(db, t, category).Ok?
    ensures SameSize(db, CompleteTaskFailure(db, t, category).value)
  {
    if t < |db.tasks| {
      FinalizeFrame(FailedDb(db, t, category));
    }
  }

  lemma ActionKeepsSize(db: Db, a: Action)
    ensures SameSize(db, Apply(db, a))
  {
    if Step(db, a).Ok? {
      match a
      case BeginTask(owner, t, estimate) =>
        if db.actualCost + estimate > db.budgetLimit {
          FailKeepsSize(MarkTaskRunning(db, t, owner).value, t, BudgetExceeded);
        }
      case Succeed(t, cost, outcomes) => FinalizeFrame(SucceededDb(db, t, cost, outcomes));
      case Fail(t, category) => FailKeepsSize(db, t, category);
      case _ =>
    }
  }

  lemma {:induction false} ReplayKeepsSize(db: Db, actions: seq<Action>)
    ensures |Replay(db, actions).tasks| == |db.tasks| && Replay(db, actions).total == db.total
    ensures Replay(db, actions).budgetLimit == db.budgetLimit
  {
    if actions != [] {
      var n := |actions| - 1;
      ReplayKeepsSize(db, actions[..n]);
      ActionKeepsSize(Replay(db, actions[..n]), actions[n]);
    }
  }

  lemma SettledCounts(tasks: seq<TaskRow>)
    ensures Count(tasks, TaskSucceeded) + Count(tasks, TaskFailed) + Count(tasks, TaskCancelled) == |tasks|
            <==> AllSettled(tasks)
    ensures Active(tasks) == 0 <==> NoneActive(tasks)
  {
    CountTotal(tasks);
    HitsZero(tasks, InState(TaskPending));
    HitsZero(tasks, InState(TaskLeased));
    HitsZero(tasks, InState(TaskRunning));
    if AllSettled(tasks) {
      forall i | 0 <= i < |tasks|
        ensures tasks[i].state != TaskPending && tasks[i].state != TaskLeased && tasks[i].state != TaskRunning
      {
      }
    } else {
      var t :| 0 <= t < |tasks| && !Settled(tasks[t].state);
      CountPositive(tasks, t);
    }
    if !NoneActive(tasks) {
      var t :| 0 <= t < |tasks| && tasks[t].state in {TaskLeased, TaskRunning};
      CountPositive(tasks, t);
    }
  }

  /** What each run state promises about its tasks, in every reachable state. */
  lemma {:induction false} RunStateConstrainsTasks(specs: seq<TaskSpec>, limit: real, actions: seq<Action>)
    requires Protocol(actions)
    ensures var db := Replay(Created(specs, limit), actions);
            && (db.state in {Queued, Paused} ==> NoneActive(db.tasks))
            && (db.state == Pausing ==> !NoneActive(db.tasks))
            && (db.state == Completed ==> db.succeeded == db.total)
            && (db.state == CompletedWithErrors ==>
                  db.failed > 0 && db.cancelled == 0 && db.succeeded + db.failed == db.total)
            && (db.state == RunState.Cancelled ==> AllSettled(db.tasks))
            && (db.state == Cancelling ==> !AllSettled(db.tasks))
            && db.state !in {Draft, Validating, RunState.Failed}
  {
    ReachableSafe(specs, limit, actions);
    var db := Replay(Created(specs, limit), actions);
    CountTotal(db.tasks);
    SettledCounts(db.tasks);
  }

  /** Each task's records, in every reachable state: settled exactly once or not at all. */
  lemma {:induction false} SettledAtMostOnce(specs: seq<TaskSpec>, limit: real, actions: seq<Action>)
    requires Protocol(actions)
    ensures var db := Replay(Created(specs, limit), actions);
            && (forall t: nat | t < |db.tasks| :: SettledOnce(db, t))
            && (forall t: nat | t < |db.tasks| && db.tasks[t].state == TaskRunning ::
                  Hits(db.samples, SampleOf(t)) == 0)
            && db.actualCost == SumCosts(db.costs)
  {
    ReachableSafe(specs, limit, actions);
    var db := Replay(Created(specs, limit), actions);
    forall t: nat | t < |db.tasks| && db.tasks[t].state == TaskRunning ensures Hits(db.samples, SampleOf(t)) == 0 {
      assert SettledOnce(db, t);
    }
  }

  /** The log of every run, arbitrary transitions included. */
  lemma {:induction false} EventLogIsGapFree(specs: seq<TaskSpec>, limit: real, actions: seq<Action>)
    ensures Log(Replay(Created(specs, limit), actions))
    ensures Census(Replay(Created(specs, limit), actions)) && Ledger(Replay(Created(specs, limit), actions))
  {
    if actions == [] {
      CreatedSafe(specs, limit);
    } else {
      var n := |actions| - 1;
      EventLogIsGapFree(specs, limit, actions[..n]);
      var before := Replay(Created(specs, limit), actions[..n]);
      ActionKeepsLedger(before, actions[n]);
      ActionKeepsLog(before, actions[n]);
    }
  }

  lemma BeginKeepsSettled(db: Db, owner: string, u: nat, estimate: real, t: nat)
    requires t < |db.tasks| && Settled(db.tasks[t].state) && Begin(db, owner, u, estimate).Ok?
    ensures var next := Begin(db, owner, u, estimate).value; |next.tasks| == |db.tasks| && next.tasks[t] == db.tasks[t]
  {
    var marked := MarkTaskRunning(db, u, owner).value;
    assert u != t && marked.tasks[t] == db.tasks[t];
    FailKeepsSettled(marked, u, BudgetExceeded, t);
  }

  lemma SucceedKeepsSettled(db: Db, u: nat, cost: real, outcomes: seq<MetricOutcome>, t: nat)
    requires t < |db.tasks| && Settled(db.tasks[t].state) && CompleteTaskSuccess(db, u, cost, outcomes).Ok?
    ensures var next := CompleteTaskSuccess(db, u, cost, outcomes).value;
            |next.tasks| == |db.tasks| && next.tasks[t] == db.tasks[t]
  {
    FinalizeFrame(SucceededDb(db, u, cost, outcomes));
  }

  lemma FailKeepsSettled(db: Db, u: nat, category: FailureCategory, t: nat)
    requires t < |db.tasks| && Settled(db.tasks[t].state) && CompleteTaskFailure(db, u, category).Ok?
    ensures var next := CompleteTaskFailure(db, u, category).value;
            |next.tasks| == |db.tasks| && next.tasks[t] == db.tasks[t]
  {
    FinalizeFrame(FailedDb(db, u, category));
  }

  /** A settled task is never claimable, and no action touches its row again. */
  lemma SettledRowIsFinal(db: Db, a: Action, t: nat)
    requires t < |db.tasks| && Settled(db.tasks[t].state)
    ensures |Apply(db, a).tasks| == |db.tasks| && Apply(db, a).tasks[t] == db.tasks[t]
    ensures forall now :: !Claimable(db.tasks[t], now)
  {
    if Step(db, a).Ok? {
      match a
      case BeginTask(owner, u, estimate) => BeginKeepsSettled(db, owner, u, estimate, t);
      case Succeed(u, cost, outcomes) => SucceedKeepsSettled(db, u, cost, outcomes, t);
      case Fail(u, category) => FailKeepsSettled(db, u, category, t);
      case _ =>
    }
  }

  lemma {:induction false} SettledForever(db: Db, actions: seq<Action>, t: nat)
    requires t < |db.tasks| && Settled(db.tasks[t].state)
    ensures |Replay(db, actions).tasks| == |db.tasks| && Replay(db, actions).tasks[t] == db.tasks[t]
  {
    if actions != [] {
      var n := |actions| - 1;
      SettledForever(db, actions[..n], t);
      SettledRowIsFinal(Replay(db, actions[..n]), actions[n], t);
    }
  }

  ghost predicate Over(db: Db) {
    AllSettled(db.tasks) && db.state in {RunState.Cancelled, Completed, CompletedWithErrors}
  }

  lemma TerminalIsOver(db: Db)
    requires Safe(db) && db.state in {RunState.Cancelled, Completed, CompletedWithErrors}
    ensures Over(db)
  {
    CountTotal(db.tasks);
    SettledCounts(db.tasks);
  }

  /** Once cancelled or completed, every later action is rejected or changes nothing. */
  lemma TerminalIsStuck(db: Db, a: Action)
    requires Over(db)
    ensures Apply(db, a) == db
  {
  }

  lemma {:induction false} TerminalForever(specs: seq<TaskSpec>, limit: real, actions: seq<Action>, later: seq<Action>)
    requires Protocol(actions)
    requires Replay(Created(specs, limit), actions).state in {RunState.Cancelled, Completed, CompletedWithErrors}
    ensures Replay(Replay(Created(specs, limit), actions), later) == Replay(Created(specs, limit), actions)
  {
    var db := Replay(Created(specs, limit), actions);
    if later != [] {
      TerminalForever(specs, limit, actions, later[..|later| - 1]);
      ReachableSafe(specs, limit, actions);
      TerminalIsOver(db);
      TerminalIsStuck(db, later[|later| - 1]);
    }
  }

  // ---------- when a run completes, and when it no longer can ----------

  function SettledCount(db: Db): int { db.succeeded + db.failed + db.cancelled }

  ghost predicate CompletesNow(db: Db, next: Db) {
    next.state in {Completed, CompletedWithErrors} <==>
    db.state == Running && SettledCount(db) < db.total && SettledCount(next) == db.total
  }

  /** Settling one more task and finalizing. */
  lemma SettleCompletes(db: Db, mid: Db)
    requires db.state !in {Completed, CompletedWithErrors} && mid.state == db.state && mid.total == db.total
    requires SettledCount(mid) == SettledCount(db) + 1 <= db.total
    ensures CompletesNow(db, FinalizeIfSettled(mid))
  {
    FinalizeFrame(mid);
  }

  /** An unsettled task leaves room in the counters. */
  lemma RoomToSettle(db: Db, t: nat)
    requires Census(db) && t < |db.tasks| && !Settled(db.tasks[t].state)
    ensures SettledCount(db) < db.total
  {
    CountTotal(db.tasks);
    CountPositive(db.tasks, t);
  }

  lemma BeginCompletes(db: Db, owner: string, t: nat, estimate: real)
    requires Safe(db) && db.state !in {Completed, CompletedWithErrors} && Begin(db, owner, t, estimate).Ok?
    ensures CompletesNow(db, Begin(db, owner, t, estimate).value)
  {
    BeginCases(db, owner, t, estimate);
    RoomToSettle(db, t);
    SettleCompletes(db, FailedDb(MarkTaskRunning(db, t, owner).value, t, BudgetExceeded));
  }

  lemma SucceedCompletes(db: Db, t: nat, cost: real, outcomes: seq<MetricOutcome>)
    requires Safe(db) && db.state !in {Completed, CompletedWithErrors} && CompleteTaskSuccess(db, t, cost, outcomes).Ok?
    ensures CompletesNow(db, CompleteTaskSuccess(db, t, cost, outcomes).value)
  {
    if db.tasks[t].state == TaskRunning {
      assert SettledOnce(db, t);
      RoomToSettle(db, t);
      SettleCompletes(db, SucceededDb(db, t, cost, outcomes));
    }
  }

  lemma FailCompletes(db: Db, t: nat, category: FailureCategory)
    requires Safe(db) && db.state !in {Completed, CompletedWithErrors} && CompleteTaskFailure(db, t, category).Ok?
    ensures CompletesNow(db, CompleteTaskFailure(db, t, category).value)
  {
    if !Settled(db.tasks[t].state) {
      assert SettledOnce(db, t);
      RoomToSettle(db, t);
      SettleCompletes(db, FailedDb(db, t, category));
    }
  }

  /** A run enters a completed state exactly when its last task settles while it is RUNNING. */
  lemma CompletesExactly(db: Db, a: Action)
    requires Safe(db) && !a.TransitionTo? && !a.Cancel? && db.state !in {Completed, CompletedWithErrors}
    ensures var next := Apply(db, a);
            next.state in {Completed, CompletedWithErrors} <==>
            db.state == Running && SettledCount(db) < db.total && SettledCount(next) == db.total
  {
    match a
    case BeginTask(owner, t, estimate) => if Step(db, a).Ok? { BeginCompletes(db, owner, t, estimate); }
    case Succeed(t, cost, outcomes) => if Step(db, a).Ok? { SucceedCompletes(db, t, cost, outcomes); }
    case Fail(t, category) => if Step(db, a).Ok? { FailCompletes(db, t, category); }
    case _ =>
  }

  /** Cancelling never completes a run, whatever has settled. */
  lemma CancelNeverCompletes(db: Db)
    requires db.state !in {Completed, CompletedWithErrors}
    ensures Apply(db, Cancel).state !in {Completed, CompletedWithErrors}
  {
  }

  /** No task is left to settle, yet the run is not over. */
  ghost predicate Stranded(db: Db) {
    AllSettled(db.tasks) && db.state in {Queued, Running, Paused}
  }

  lemma StrandedStep(db: Db, a: Action)
    requires Safe(db) && Stranded(db) && !a.TransitionTo?
    ensures Stranded(Apply(db, a)) || (a.Cancel? && Apply(db, a).state == RunState.Cancelled)
    ensures Apply(db, a).tasks == db.tasks
  {
    SettledCounts(db.tasks);
    CountTotal(db.tasks);
    assert CancelOpen(db.tasks) == db.tasks;
  }

  /** From there the run can only wait or be cancelled: it is never completed. */
  lemma {:induction false} StrandedNeverCompletes(db: Db, actions: seq<Action>)
    requires Safe(db) && Stranded(db) && Protocol(actions)
    ensures var next := Replay(db, actions); Stranded(next) || next.state == RunState.Cancelled
    ensures Cancel !in actions ==> Stranded(Replay(db, actions))
  {
    if actions != [] {
      var n := |actions| - 1;
      StrandedNeverCompletes(db, actions[..n]);
      ReplaySafe(db, actions[..n]);
      var before := Replay(db, actions[..n]);
      if Stranded(before) {
        StrandedStep(before, actions[n]);
      } else {
        TerminalIsOver(before);
        TerminalIsStuck(before, actions[n]);
      }
    }
  }

  lemma {:induction false} ReplayOne(db: Db, actions: seq<Action>, a: Action)
    ensures Replay(db, actions + [a]) == Apply(Replay(db, actions), a)
  {
    assert (actions + [a])[..|actions|] == actions;
  }

  /** One task, claimed and started by its worker. */
  lemma StartedSingleTask()
    ensures var db := Replay(Created([TaskSpec("k", 0)], 1.0), [Start, ClaimTask("w", 0, {}), BeginTask("w", 0, 0.0)]);
            db.state == Running && |db.tasks| == 1 && db.tasks[0].state == TaskRunning
  {
    var db0 := Created([TaskSpec("k", 0)], 1.0);
    ReplayOne(db0, [], Start);
    assert [] + [Start] == [Start];
    ReplayOne(db0, [Start], ClaimTask("w", 0, {}));
    assert [Start] + [ClaimTask("w", 0, {})] == [Start, ClaimTask("w", 0, {})];
    ReplayOne(db0, [Start, ClaimTask("w", 0, {})], BeginTask("w", 0, 0.0));
    assert [Start, ClaimTask("w", 0, {})] + [BeginTask("w", 0, 0.0)]
           == [Start, ClaimTask("w", 0, {}), BeginTask("w", 0, 0.0)];
    var db1 := Apply(db0, Start);
    assert db1.state == Running;
    assert FirstClaimable(db1.tasks, 0, {}) == Some(0);
    var db2 := Apply(db1, ClaimTask("w", 0, {}));
    assert db2.tasks[0].state == TaskLeased && db2.tasks[0].leaseOwner == Some("w");
  }

  lemma {:induction false} ReplayConcat(db: Db, a: seq<Action>, b: seq<Action>)
    ensures Replay(db, a + b) == Replay(Replay(db, a), b)
  {
    if b == [] {
      assert a + b == a;
    } else {
      var n := |b| - 1;
      assert (a + b)[..|a + b| - 1] == a + b[..n];
      ReplayConcat(db, a, b[..n]);
    }
  }

  lemma {:induction false} ReplayTwo(db: Db, actions: seq<Action>, a: Action, b: Action)
    ensures Replay(db, actions + [a] + [b]) == Apply(Apply(Replay(db, actions), a), b)
  {
    ReplayOne(db, actions, a);
    ReplayOne(db, actions + [a], b);
  }

  lemma PauseInFlight(db: Db, cost: real)
    requires Safe(db) && db.state == Running && |db.tasks| == 1 && db.tasks[0].state == TaskRunning
    ensures var next := Apply(Apply(db, Pause), Succeed(0, cost, []));
            next.state == Paused && next.succeeded == next.total == 1 && Stranded(next)
  {
    CountTotal(db.tasks);
    CountPositive(db.tasks, 0);
    var paused := Apply(db, Pause);
    assert paused.state == Pausing && paused.tasks == db.tasks;
    assert SettledOnce(db, 0);
    var done := SucceededDb(paused, 0, cost, []);
    CountUpdate(paused.tasks, 0, done.tasks[0]);
  }

  /** Pausing while the last task is in flight leads there, although every task succeeded. */
  lemma StrandedIsReachable(cost: real)
    ensures var actions := [Start, ClaimTask("w", 0, {}), BeginTask("w", 0, 0.0)] + [Pause] + [Succeed(0, cost, [])];
            var db := Replay(Created([TaskSpec("k", 0)], 1.0), actions);
            db.state == Paused && db.succeeded == db.total == 1 && Stranded(db)
  {
    var started := [Start, ClaimTask("w", 0, {}), BeginTask("w", 0, 0.0)];
    StartedSingleTask();
    ReachableSafe([TaskSpec("k", 0)], 1.0, started);
    PauseInFlight(Replay(Created([TaskSpec("k", 0)], 1.0), started), cost);
    ReplayTwo(Created([TaskSpec("k", 0)], 1.0), started, Pause, Succeed(0, cost, []));
  }
}
