/**
 The repository as the source has it: rows updated in place, one method per
 transaction body. Each method is proved against its function in RunLedger.
 */
module RunRepository {
  import opened Results
  import opened Counting
  import opened Execution
  import opened RunLedger

  class SqlExperimentRepository {
    var state: RunState
    var total: int
    var succeeded: int
    var failed: int
    var cancelled: int
    var budgetLimit: real
    var actualCost: real
    var versionStamp: int
    var events: seq<StateEvent>
    var tasks: seq<TaskRow>
    var attempts: seq<AttemptRow>
    var samples: seq<SampleRow>
    var costs: seq<CostRow>
    var failures: seq<FailureRow>
    var metrics: seq<MetricRow>

    ghost function Snapshot(): Db
      reads this
    {
      Db(state, total, succeeded, failed, cancelled, budgetLimit, actualCost, versionStamp,
         events, tasks, attempts, samples, costs, failures, metrics)
    }

    /** The stored state follows the specification; an error leaves it alone. */
    ghost predicate Follows(before: Db, spec: Result<Db, RunError>, r: Result<(), RunError>)
      reads this
    {
      match spec
      case Ok(after) => r.Ok? && Snapshot() == after
      case Err(e) => r == Err(e) && Snapshot() == before
    }

    /** `add_run`: the rows of a run that has been created and queued. */
    constructor AddRun(runState: RunState, versionStamp: int, specs: seq<TaskSpec>, budgetLimit: real)
      ensures runState == Queued && versionStamp == 3 ==> Snapshot() == Created(specs, budgetLimit)
      ensures state == runState && this.versionStamp == versionStamp
    {
      state := runState;
      total := |specs|;
      succeeded, failed, cancelled := 0, 0, 0;
      this.budgetLimit := budgetLimit;
      actualCost := 0.0;
      this.versionStamp := versionStamp;
      tasks := PendingRows(specs);
      attempts, samples, costs, failures, metrics := [], [], [], [], [];
      var states := [Draft, Validating, Queued];
      events := seq(|states|, index requires 0 <= index < |states| =>
        StateEvent(index, if index > 0 then Some(states[index - 1]) else None, states[index]));
      new;
      assert events == [events[0], events[1], events[2]];
    }

    method TransitionRun(target: RunState) returns (r: Result<(), RunError>)
      modifies this
      ensures Follows(old(Snapshot()), RunLedger.TransitionRun(old(Snapshot()), target), r)
    {
      if target !in Allowed(state) {
        return Err(InvalidStateTransition);
      }
      var sequence := MaxSequence(events);
      var source := state;
      state := target;
      versionStamp := versionStamp + 1;
      events := events + [StateEvent(sequence + 1, Some(source), target)];
      r := Ok(());
    }

    method ClaimNextTask(owner: string, now: int, leaseSeconds: int, locked: set<nat>) returns (r: Option<nat>)
      modifies this
      ensures (Snapshot(), r) == RunLedger.ClaimNextTask(old(Snapshot()), owner, now, leaseSeconds, locked)
      ensures r.Some? ==> r.value < |old(tasks)| && r.value !in locked && MayBeTaken(old(tasks)[r.value], now)
      ensures forall i: nat | i < |old(tasks)| && i !in locked && MayBeTaken(old(tasks)[i], now) ::
                r.Some? && r.value < |old(tasks)| && RowLeq(old(tasks)[r.value], old(tasks)[i])
    {
      ClaimTakesExactly(Snapshot(), owner, now, leaseSeconds, locked);
      r := FirstClaimable(tasks, now, locked);
      if r.None? {
        return;
      }
      var model := tasks[r.value];
      model := model.(state := TaskLeased);
      model := model.(leaseOwner := Some(owner));
      model := model.(leaseExpires := Some(now + leaseSeconds));
      tasks := tasks[r.value := model];
    }

    method MarkTaskRunning(t: nat, owner: string) returns (r: Result<(), RunError>)
      modifies this
      ensures Follows(old(Snapshot()), RunLedger.MarkTaskRunning(old(Snapshot()), t, owner), r)
    {
      if t >= |tasks| || tasks[t].state != TaskLeased || tasks[t].leaseOwner != Some(owner) {
        return Err(Conflict);
      }
      var model := tasks[t];
      model := model.(state := TaskRunning);
      model := model.(attemptCount := model.attemptCount + 1);
      tasks := tasks[t := model];
      attempts := attempts + [AttemptRow(t, model.attemptCount)];
      r := Ok(());
    }

    method CompleteTaskSuccess(t: nat, cost: real, outcomes: seq<MetricOutcome>) returns (r: Result<(), RunError>)
      modifies this
      ensures Follows(old(Snapshot()), RunLedger.CompleteTaskSuccess(old(Snapshot()), t, cost, outcomes), r)
    {
      if t >= |tasks| {
        return Err(NotFound);
      }
      if tasks[t].state == TaskSucceeded {
        return Ok(());
      }
      if tasks[t].state != TaskRunning {
        return Err(Conflict);
      }
      if Hits(samples, SampleOf(t)) != 0 {
        tasks := tasks[t := tasks[t].(state := TaskSucceeded)];
        return Ok(());
      }
      if !UniqueMetrics(outcomes) {
        return Err(IntegrityViolation);
      }
      RecordSuccess(t, cost, outcomes);
      FinalizeIfSettled();
      r := Ok(());
    }

    /** The rows of a success that has not been recorded yet. */
    method RecordSuccess(t: nat, cost: real, outcomes: seq<MetricOutcome>)
      requires t < |tasks|
      modifies this
      ensures Snapshot() == SucceededDb(old(Snapshot()), t, cost, outcomes)
    {
      samples := samples + [SampleRow(t, SampleSucceeded)];
      metrics := metrics + MetricRows(t, outcomes);
      costs := costs + [CostRow(t, cost)];
      tasks := tasks[t := tasks[t].(state := TaskSucceeded)];
      succeeded := succeeded + 1;
      actualCost := actualCost + cost;
    }

    method CompleteTaskFailure(t: nat, category: FailureCategory) returns (r: Result<(), RunError>)
      modifies this
      ensures Follows(old(Snapshot()), RunLedger.CompleteTaskFailure(old(Snapshot()), t, category), r)
    {
      if t >= |tasks| {
        return Err(NotFound);
      }
      if Settled(tasks[t].state) {
        return Ok(());
      }
      tasks := tasks[t := tasks[t].(state := TaskFailed)];
      if Hits(samples, SampleOf(t)) == 0 {
        samples := samples + [SampleRow(t, SampleFailed)];
      }
      failures := failures + [FailureRow(t, category)];
      failed := failed + 1;
      assert Snapshot() == FailedDb(old(Snapshot()), t, category);
      FinalizeIfSettled();
      r := Ok(());
    }

    method FinalizeIfSettled()
      modifies this
      ensures Snapshot() == RunLedger.FinalizeIfSettled(old(Snapshot()))
    {
      if state == Pausing {
        if Active(tasks) == 0 {
          var _ := TransitionRun(Paused);
        }
        return;
      }
      if succeeded + failed + cancelled != total {
        return;
      }
      if state == Cancelling {
        var _ := TransitionRun(RunState.Cancelled);
      } else if state == Running {
        var target := if failed != 0 then CompletedWithErrors else Completed;
        var _ := TransitionRun(target);
      }
    }

    method CancelRun() returns (r: Result<(), RunError>)
      modifies this
      ensures Follows(old(Snapshot()), RunLedger.CancelRun(old(Snapshot())), r)
    {
      if state !in {Queued, Running, Pausing, Paused} {
        return Err(InvalidStateTransition);
      }
      r := TransitionRun(Cancelling);
      ghost var marked := Snapshot();
      var open := Count(tasks, TaskPending) + Count(tasks, TaskLeased);
      tasks := CancelOpen(tasks);
      cancelled := cancelled + open;
      assert Snapshot() == marked.(tasks := CancelOpen(marked.tasks), cancelled := marked.cancelled + open);
      if Count(tasks, TaskRunning) == 0 {
        r := TransitionRun(RunState.Cancelled);
      }
    }

    method PauseRun() returns (r: Result<(), RunError>)
      modifies this
      ensures Follows(old(Snapshot()), RunLedger.PauseRun(old(Snapshot())), r)
    {
      if state != Running {
        return Err(InvalidStateTransition);
      }
      r := TransitionRun(Pausing);
      if Active(tasks) == 0 {
        r := TransitionRun(Paused);
      }
    }

    method ResumeRun() returns (r: Result<(), RunError>)
      modifies this
      ensures Follows(old(Snapshot()), RunLedger.ResumeRun(old(Snapshot())), r)
    {
      r := TransitionRun(Queued);
    }
  }
}
