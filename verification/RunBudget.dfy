/**
 How far a run can overspend. The budget check reads the actual cost and
 reserves nothing, so tasks already running are not counted against the limit.
 */
module RunBudget {
  import opened Averages
  import opened Results
  import opened Counting
  import opened Execution
  import opened RunLedger
  import opened RunProtocol
  import opened RunSafety

  /** Sum of the estimates of the tasks now running. */
  function Outstanding(tasks: seq<TaskRow>, estimate: nat -> real): real {
    if tasks == [] then 0.0
    else
      var n := |tasks| - 1;
      Outstanding(tasks[..n], estimate) + if tasks[n].state == TaskRunning then estimate(n) else 0.0
  }

  lemma {:induction false} TimesMonotone(j: nat, k: nat, E: real)
    requires j <= k && 0.0 <= E
    ensures 0.0 <= Times(j, E) <= Times(k, E)
  {
    if k > 0 {
      if j < k {
        TimesMonotone(j, k - 1, E);
      } else {
        TimesMonotone(j - 1, k - 1, E);
      }
    }
  }

  /** A task starts against its own estimate, and its recorded cost does not exceed it. */
  ghost predicate Priced(estimate: nat -> real, a: Action) {
    && (a.BeginTask? ==> a.estimate == estimate(a.task))
    && (a.Succeed? ==> a.cost <= estimate(a.task))
  }

  ghost predicate Estimates(estimate: nat -> real, E: real) {
    forall t: nat :: 0.0 <= estimate(t) <= E
  }

  lemma {:induction false} OutstandingUpdate(tasks: seq<TaskRow>, t: nat, row: TaskRow, estimate: nat -> real)
    requires t < |tasks|
    ensures Outstanding(tasks[t := row], estimate)
            == Outstanding(tasks, estimate)
               - (if tasks[t].state == TaskRunning then estimate(t) else 0.0)
               + (if row.state == TaskRunning then estimate(t) else 0.0)
  {
    var n := |tasks| - 1;
    if t == n {
      assert tasks[t := row][..n] == tasks[..n];
    } else {
      assert tasks[t := row][..n] == tasks[..n][t := row];
      OutstandingUpdate(tasks[..n], t, row, estimate);
    }
  }

  lemma {:induction false} OutstandingBound(tasks: seq<TaskRow>, estimate: nat -> real, E: real)
    requires Estimates(estimate, E)
    ensures 0.0 <= Outstanding(tasks, estimate) <= Times(Count(tasks, TaskRunning), E)
  {
    if tasks != [] {
      var n := |tasks| - 1;
      OutstandingBound(tasks[..n], estimate, E);
    }
  }

  lemma {:induction false} OutstandingCancel(tasks: seq<TaskRow>, estimate: nat -> real)
    ensures Outstanding(CancelOpen(tasks), estimate) == Outstanding(tasks, estimate)
  {
    if tasks != [] {
      var n := |tasks| - 1;
      assert CancelOpen(tasks)[..n] == CancelOpen(tasks[..n]);
      OutstandingCancel(tasks[..n], estimate);
    }
  }

  /** Spent plus outstanding stays within the limit and the estimates of W - 1 tasks. */
  ghost predicate Bounded(db: Db, estimate: nat -> real, E: real, W: nat)
    requires W >= 1
  {
    db.actualCost + Outstanding(db.tasks, estimate) <= db.budgetLimit + Times(W - 1, E)
  }

  lemma EstimatesNonNegative(estimate: nat -> real, E: real)
    requires Estimates(estimate, E)
    ensures 0.0 <= E
  {
    assert 0.0 <= estimate(0) <= E;
  }

  /** All running tasks but one, together. */
  lemma {:induction false} OthersBounded(tasks: seq<TaskRow>, t: nat, estimate: nat -> real, E: real)
    requires t < |tasks| && tasks[t].state == TaskRunning && Estimates(estimate, E)
    ensures Count(tasks, TaskRunning) >= 1
    ensures Outstanding(tasks, estimate) <= estimate(t) + Times(Count(tasks, TaskRunning) - 1, E)
  {
    var row := tasks[t].(state := TaskLeased);
    OutstandingUpdate(tasks, t, row, estimate);
    HitsUpdate(tasks, t, row, InState(TaskRunning));
    OutstandingBound(tasks[t := row], estimate, E);
  }

  /** A task started within the limit: whatever else is running, the others are at most W - 1. */
  lemma MarkBounded(db: Db, owner: string, t: nat, estimate: nat -> real, E: real, W: nat)
    requires Estimates(estimate, E) && MarkTaskRunning(db, t, owner).Ok?
    requires W >= 1 && Count(MarkTaskRunning(db, t, owner).value.tasks, TaskRunning) <= W
    requires db.actualCost + estimate(t) <= db.budgetLimit
    ensures Bounded(MarkTaskRunning(db, t, owner).value, estimate, E, W)
  {
    var marked := MarkTaskRunning(db, t, owner).value;
    EstimatesNonNegative(estimate, E);
    OthersBounded(marked.tasks, t, estimate, E);
    TimesMonotone(Count(marked.tasks, TaskRunning) - 1, W - 1, E);
  }

  /** Settling trades a task's outstanding estimate for a cost that is no larger. */
  lemma SettleBounded(db: Db, mid: Db, t: nat, estimate: nat -> real, E: real, W: nat)
    requires W >= 1 && Bounded(db, estimate, E, W) && Estimates(estimate, E)
    requires t < |db.tasks| == |mid.tasks| && mid.tasks == db.tasks[t := mid.tasks[t]]
    requires mid.tasks[t].state != TaskRunning && mid.budgetLimit == db.budgetLimit
    requires mid.actualCost <= db.actualCost + if db.tasks[t].state == TaskRunning then estimate(t) else 0.0
    ensures Bounded(FinalizeIfSettled(mid), estimate, E, W)
  {
    OutstandingUpdate(db.tasks, t, mid.tasks[t], estimate);
    FinalizeFrame(mid);
  }

  lemma BeginBounded(db: Db, owner: string, t: nat, estimate: nat -> real, E: real, W: nat)
    requires Safe(db) && Estimates(estimate, E) && W >= 1 && Bounded(db, estimate, E, W)
    requires Begin(db, owner, t, estimate(t)).Ok?
    requires Count(Begin(db, owner, t, estimate(t)).value.tasks, TaskRunning) <= W
    ensures Bounded(Begin(db, owner, t, estimate(t)).value, estimate, E, W)
  {
    BeginCases(db, owner, t, estimate(t));
    if db.actualCost + estimate(t) > db.budgetLimit {
      var failed := FailedDb(MarkTaskRunning(db, t, owner).value, t, BudgetExceeded);
      SettleBounded(db, failed, t, estimate, E, W);
    } else {
      MarkBounded(db, owner, t, estimate, E, W);
    }
  }

  lemma ClaimBounded(db: Db, owner: string, now: int, locked: set<nat>, estimate: nat -> real, E: real, W: nat)
    requires Estimates(estimate, E) && W >= 1 && Bounded(db, estimate, E, W)
    ensures Bounded(ClaimNextTask(db, owner, now, LEASE_SECONDS, locked).0, estimate, E, W)
  {
    var (next, found) := ClaimNextTask(db, owner, now, LEASE_SECONDS, locked);
    if found.Some? {
      OutstandingUpdate(db.tasks, found.value, next.tasks[found.value], estimate);
    }
  }

  lemma SucceedBounded(db: Db, t: nat, cost: real, outcomes: seq<MetricOutcome>, estimate: nat -> real, E: real, W: nat)
    requires Safe(db) && Estimates(estimate, E) && W >= 1 && Bounded(db, estimate, E, W) && cost <= estimate(t)
    requires CompleteTaskSuccess(db, t, cost, outcomes).Ok?
    ensures Bounded(CompleteTaskSuccess(db, t, cost, outcomes).value, estimate, E, W)
  {
    if db.tasks[t].state == TaskRunning {
      assert SettledOnce(db, t);
      SuccessKeepsLedger(db, t, cost, outcomes);
      SettleBounded(db, SucceededDb(db, t, cost, outcomes), t, estimate, E, W);
    }
  }

  lemma FailBounded(db: Db, t: nat, category: FailureCategory, estimate: nat -> real, E: real, W: nat)
    requires Safe(db) && Estimates(estimate, E) && W >= 1 && Bounded(db, estimate, E, W)
    requires CompleteTaskFailure(db, t, category).Ok?
    ensures Bounded(CompleteTaskFailure(db, t, category).value, estimate, E, W)
  {
    if !Settled(db.tasks[t].state) {
      FailureKeepsLedger(db, t, category);
      SettleBounded(db, FailedDb(db, t, category), t, estimate, E, W);
    }
  }

  lemma ActionBounded(db: Db, a: Action, estimate: nat -> real, E: real, W: nat)
    requires Safe(db) && Estimates(estimate, E) && W >= 1 && Bounded(db, estimate, E, W)
    requires Priced(estimate, a) && Count(Apply(db, a).tasks, TaskRunning) <= W
    ensures Bounded(Apply(db, a), estimate, E, W)
  {
    if Step(db, a).Ok? {
      match a
      case ClaimTask(owner, now, locked) => ClaimBounded(db, owner, now, locked, estimate, E, W);
      case BeginTask(owner, t, _) => BeginBounded(db, owner, t, estimate, E, W);
      case Succeed(t, cost, outcomes) => SucceedBounded(db, t, cost, outcomes, estimate, E, W);
      case Fail(t, category) => FailBounded(db, t, category, estimate, E, W);
      case Cancel => CancelBounded(db, estimate, E, W);
      case _ => QuietBounded(db, a, estimate, E, W);
    }
  }

  lemma CancelBounded(db: Db, estimate: nat -> real, E: real, W: nat)
    requires W >= 1 && Bounded(db, estimate, E, W) && CancelRun(db).Ok?
    ensures Bounded(CancelRun(db).value, estimate, E, W)
  {
    OutstandingCancel(db.tasks, estimate);
  }

  /** Actions that touch no task and no cost. */
  lemma QuietBounded(db: Db, a: Action, estimate: nat -> real, E: real, W: nat)
    requires W >= 1 && Bounded(db, estimate, E, W) && Step(db, a).Ok?
    requires !(a.ClaimTask? || a.BeginTask? || a.Succeed? || a.Fail? || a.Cancel?)
    ensures Bounded(Apply(db, a), estimate, E, W)
  {
  }

  /** At most W tasks of the run are RUNNING in every state the actions pass through. */
  ghost predicate AtMostRunning(db: Db, actions: seq<Action>, W: nat) {
    forall k | 0 <= k <= |actions| :: Count(Replay(db, actions[..k]).tasks, TaskRunning) <= W
  }

  lemma {:induction false} ReplayBounded(db: Db, actions: seq<Action>, estimate: nat -> real, E: real, W: nat)
    requires Safe(db) && Protocol(actions) && Estimates(estimate, E) && W >= 1 && Bounded(db, estimate, E, W)
    requires forall a | a in actions :: Priced(estimate, a)
    requires AtMostRunning(db, actions, W)
    ensures Bounded(Replay(db, actions), estimate, E, W)
  {
    if actions != [] {
      var n := |actions| - 1;
      AtMostPrefix(db, actions, W);
      assert Priced(estimate, actions[n]);
      ReplayBounded(db, actions[..n], estimate, E, W);
      ReplaySafe(db, actions[..n]);
      ActionBounded(Replay(db, actions[..n]), actions[n], estimate, E, W);
    }
  }

  lemma {:induction false} AtMostPrefix(db: Db, actions: seq<Action>, W: nat)
    requires AtMostRunning(db, actions, W) && actions != []
    ensures AtMostRunning(db, actions[..|actions| - 1], W)
    ensures Count(Replay(db, actions).tasks, TaskRunning) <= W
  {
    var n := |actions| - 1;
    forall k | 0 <= k <= n ensures Count(Replay(db, actions[..n][..k]).tasks, TaskRunning) <= W {
      assert actions[..n][..k] == actions[..k];
    }
    assert actions[..n + 1] == actions;
  }

  lemma {:induction false} ReachableBounded(
    specs: seq<TaskSpec>, limit: real, actions: seq<Action>, estimate: nat -> real, E: real, W: nat)
    requires Protocol(actions) && limit >= 0.0 && Estimates(estimate, E)
    requires forall a | a in actions :: Priced(estimate, a)
    requires W >= 1 && AtMostRunning(Created(specs, limit), actions, W)
    ensures Bounded(Replay(Created(specs, limit), actions), estimate, E, W)
  {
    CreatedSafe(specs, limit);
    CreatedBounded(specs, limit, estimate, E, W);
    ReplayBounded(Created(specs, limit), actions, estimate, E, W);
  }

  lemma BoundedCost(db: Db, estimate: nat -> real, E: real, W: nat)
    requires W >= 1 && Bounded(db, estimate, E, W) && Estimates(estimate, E)
    ensures db.actualCost <= db.budgetLimit + (W - 1) as real * E
  {
    OutstandingBound(db.tasks, estimate, E);
    DropOutstanding(db.actualCost, Outstanding(db.tasks, estimate), db.budgetLimit, W - 1, E);
  }

  lemma {:induction false} DropOutstanding(cost: real, outstanding: real, limit: real, k: nat, E: real)
    requires outstanding >= 0.0 && cost + outstanding <= limit + Times(k, E)
    ensures cost <= limit + k as real * E
  {
    TimesIsProduct(k, E);
  }

  lemma BoundedByLimit(db: Db, estimate: nat -> real, E: real)
    requires Bounded(db, estimate, E, 1) && Estimates(estimate, E)
    ensures db.actualCost <= db.budgetLimit
  {
    OutstandingBound(db.tasks, estimate, E);
  }

  /** With at most W tasks running at once, spending passes the limit by at most W - 1 estimates. */
  lemma {:induction false} OvershootIsBounded(
    specs: seq<TaskSpec>, limit: real, actions: seq<Action>, estimate: nat -> real, E: real, W: nat)
    requires Protocol(actions) && limit >= 0.0 && Estimates(estimate, E)
    requires forall a | a in actions :: Priced(estimate, a)
    requires W >= 1 && AtMostRunning(Created(specs, limit), actions, W)
    ensures Replay(Created(specs, limit), actions).actualCost <= limit + (W - 1) as real * E
  {
    ReachableBounded(specs, limit, actions, estimate, E, W);
    ReplayKeepsSize(Created(specs, limit), actions);
    BoundedCost(Replay(Created(specs, limit), actions), estimate, E, W);
  }

  lemma CreatedBounded(specs: seq<TaskSpec>, limit: real, estimate: nat -> real, E: real, W: nat)
    requires limit >= 0.0 && Estimates(estimate, E) && W >= 1
    ensures Bounded(Created(specs, limit), estimate, E, W)
  {
    PendingCounts(specs);
    EstimatesNonNegative(estimate, E);
    OutstandingBound(PendingRows(specs), estimate, E);
    TimesMonotone(0, W - 1, E);
  }

  /** A single worker, one task at a time, never passes the limit. */
  lemma {:induction false} OneWorkerNeverOverspends(specs: seq<TaskSpec>, limit: real, actions: seq<Action>,
                                                    estimate: nat -> real, E: real)
    requires Protocol(actions) && limit >= 0.0 && Estimates(estimate, E)
    requires forall a | a in actions :: Priced(estimate, a)
    requires AtMostRunning(Created(specs, limit), actions, 1)
    ensures Replay(Created(specs, limit), actions).actualCost <= limit
  {
    ReachableBounded(specs, limit, actions, estimate, E, 1);
    ReplayKeepsSize(Created(specs, limit), actions);
    BoundedByLimit(Replay(Created(specs, limit), actions), estimate, E);
  }

  // ---------- the bound is attained ----------

  /** Every worker has its own name. */
  function Owner(i: nat): (r: string)
    ensures |r| == i
  {
    seq(i, _ => 'w')
  }

  /** The first k of W workers claim one task each and start it, and nobody holds a lock. */
  function StartAll(k: nat, E: real): seq<Action> {
    if k == 0 then [Start]
    else StartAll(k - 1, E) + [ClaimTask(Owner(k - 1), 0, {})] + [BeginTask(Owner(k - 1), k - 1, E)]
  }

  function SettleAll(k: nat, E: real): seq<Action> {
    if k == 0 then [] else SettleAll(k - 1, E) + [Succeed(k - 1, E, [])]
  }

  function Numbered(W: nat): seq<TaskSpec> { seq(W, i requires 0 <= i < W => TaskSpec("k", i)) }

  /** The first k tasks are running under leases that have not expired, the rest are untouched,
      nothing is spent. */
  ghost predicate Started(db: Db, k: nat, E: real) {
    && db.state == Running && db.actualCost == 0.0 && db.budgetLimit == E
    && forall j | 0 <= j < |db.tasks| ::
         var row := db.tasks[j];
         && row.recordKey == "k" && row.repetition == j
         && (if j < k then row.state == TaskRunning && row.leaseExpires == Some(LEASE_SECONDS)
             else row.state == TaskPending)
  }

  lemma StartOne(db: Db, i: nat, E: real)
    requires Started(db, i, E) && i < |db.tasks|
    ensures var next := Apply(Apply(db, ClaimTask(Owner(i), 0, {})), BeginTask(Owner(i), i, E));
      Started(next, i + 1, E) && |next.tasks| == |db.tasks|
  {
    assert Claimable(db.tasks[i], 0);
    FirstClaimableIsFirst(db.tasks, 0, {}, i);
    var first := FirstClaimable(db.tasks, 0, {}).value;
    assert db.tasks[first].repetition == first;
    var claimed := Apply(db, ClaimTask(Owner(i), 0, {}));
    assert claimed.tasks[i].state == TaskLeased && claimed.tasks[i].leaseOwner == Some(Owner(i));
  }

  lemma StartedNone(W: nat, E: real)
    ensures Started(Replay(Created(Numbered(W), E), [Start]), 0, E)
  {
    ReplayOne(Created(Numbered(W), E), [], Start);
    assert [] + [Start] == [Start];
  }

  /** One more worker claims task i and starts it. */
  function StartNext(E: real): (Db, nat) -> Db {
    (db: Db, i: nat) => Apply(Apply(db, ClaimTask(Owner(i), 0, {})), BeginTask(Owner(i), i, E))
  }

  function Iterate(step: (Db, nat) -> Db, db: Db, k: nat): Db {
    if k == 0 then db else step(Iterate(step, db, k - 1), k - 1)
  }

  lemma {:induction false} StartAllIterates(replay: seq<Action> -> Db, step: (Db, nat) -> Db, k: nat, E: real)
    requires forall before, i: nat ::
               replay(before + [ClaimTask(Owner(i), 0, {})] + [BeginTask(Owner(i), i, E)]) == step(replay(before), i)
    ensures replay(StartAll(k, E)) == Iterate(step, replay([Start]), k)
  {
    if k > 0 {
      StartAllIterates(replay, step, k - 1, E);
      var before := StartAll(k - 1, E);
      assert StartAll(k, E) == before + [ClaimTask(Owner(k - 1), 0, {})] + [BeginTask(Owner(k - 1), k - 1, E)];
    }
  }

  lemma {:induction false} StartAllReplays(db: Db, k: nat, E: real)
    ensures Replay(db, StartAll(k, E)) == Iterate(StartNext(E), Replay(db, [Start]), k)
  {
    var replay := (actions: seq<Action>) => Replay(db, actions);
    forall before, i: nat
      ensures replay(before + [ClaimTask(Owner(i), 0, {})] + [BeginTask(Owner(i), i, E)])
              == StartNext(E)(replay(before), i)
    {
      ReplayTwo(db, before, ClaimTask(Owner(i), 0, {}), BeginTask(Owner(i), i, E));
    }
    StartAllIterates(replay, StartNext(E), k, E);
  }

  lemma {:induction false} IterateKeeps(step: (Db, nat) -> Db, db: Db, W: nat, k: nat, E: real)
    requires forall d, i: nat | Started(d, i, E) && i < |d.tasks| == W ::
               Started(step(d, i), i + 1, E) && |step(d, i).tasks| == W
    requires k <= W == |db.tasks| && Started(db, 0, E)
    ensures Started(Iterate(step, db, k), k, E) && |Iterate(step, db, k).tasks| == W
  {
    if k > 0 {
      IterateKeeps(step, db, W, k - 1, E);
    }
  }

  lemma {:induction false} AllStart(db: Db, W: nat, E: real)
    requires |db.tasks| == W && Started(db, 0, E)
    ensures Started(Iterate(StartNext(E), db, W), W, E)
  {
    forall d, i: nat | Started(d, i, E) && i < |d.tasks| == W
      ensures Started(StartNext(E)(d, i), i + 1, E) && |StartNext(E)(d, i).tasks| == W
    {
      StartOne(d, i, E);
    }
    IterateKeeps(StartNext(E), db, W, W, E);
  }

  /** The first k tasks no longer run, the rest still do, and k estimates are spent. */
  ghost predicate Spent(db: Db, k: nat, cost: real) {
    && db.actualCost == cost
    && (forall j | k <= j < |db.tasks| :: db.tasks[j].state == TaskRunning)
  }

  lemma SettleOne(db: Db, i: nat, E: real, cost: real)
    requires Safe(db) && i < |db.tasks| && Spent(db, i, cost)
    ensures Spent(Apply(db, Succeed(i, E, [])), i + 1, cost + E)
  {
    SuccessKeepsLedger(db, i, E, []);
    FinalizeFrame(SucceededDb(db, i, E, []));
  }

  lemma SettledNext(db: Db, before: seq<Action>, i: nat, E: real)
    requires Safe(db) && Protocol(before) && i < |db.tasks| && Spent(Replay(db, before), i, Times(i, E))
    ensures Spent(Replay(db, before + [Succeed(i, E, [])]), i + 1, Times(i + 1, E))
  {
    ReplaySafe(db, before);
    ReplayKeepsSize(db, before);
    SettleOne(Replay(db, before), i, E, Times(i, E));
    ReplayOne(db, before, Succeed(i, E, []));
  }

  lemma {:induction false} SettleAllIterates(replay: seq<Action> -> Db, W: nat, k: nat, E: real)
    requires forall before, i: nat | Protocol(before) && i < W && Spent(replay(before), i, Times(i, E)) ::
               Spent(replay(before + [Succeed(i, E, [])]), i + 1, Times(i + 1, E))
    requires k <= W && Spent(replay([]), 0, 0.0)
    ensures Spent(replay(SettleAll(k, E)), k, Times(k, E))
  {
    if k > 0 {
      SettleAllIterates(replay, W, k - 1, E);
      SettleProtocol(k - 1, E);
      assert SettleAll(k, E) == SettleAll(k - 1, E) + [Succeed(k - 1, E, [])];
    }
  }

  lemma {:induction false} SettleAllState(db: Db, k: nat, E: real)
    requires Safe(db) && k <= |db.tasks| && Spent(db, 0, 0.0)
    ensures Spent(Replay(db, SettleAll(k, E)), k, Times(k, E))
  {
    var replay := (actions: seq<Action>) => Replay(db, actions);
    forall before, i: nat | Protocol(before) && i < |db.tasks| && Spent(replay(before), i, Times(i, E))
      ensures Spent(replay(before + [Succeed(i, E, [])]), i + 1, Times(i + 1, E))
    {
      SettledNext(db, before, i, E);
    }
    SettleAllIterates(replay, |db.tasks|, k, E);
  }

  lemma {:induction false} StartProtocol(k: nat, E: real)
    ensures Protocol(StartAll(k, E))
  {
    if k > 0 {
      StartProtocol(k - 1, E);
    }
  }

  lemma {:induction false} SettleProtocol(k: nat, E: real)
    ensures Protocol(SettleAll(k, E))
  {
    if k > 0 {
      SettleProtocol(k - 1, E);
    }
  }

  lemma {:induction false} StartPriced(k: nat, E: real, estimate: nat -> real)
    requires forall t: nat :: estimate(t) == E
    ensures forall a | a in StartAll(k, E) :: Priced(estimate, a)
  {
    if k > 0 {
      StartPriced(k - 1, E, estimate);
    }
  }

  lemma {:induction false} SettlePriced(k: nat, E: real, estimate: nat -> real)
    requires forall t: nat :: estimate(t) == E
    ensures forall a | a in SettleAll(k, E) :: Priced(estimate, a)
  {
    if k > 0 {
      SettlePriced(k - 1, E, estimate);
    }
  }

  lemma {:induction false} TimesSplit(W: nat, E: real)
    requires W >= 1
    ensures Times(W, E) == E + (W - 1) as real * E
  {
    TimesIsProduct(W - 1, E);
    assert Times(W, E) == Times(W - 1, E) + E;
  }

  lemma {:induction false} AllStartedThenSettled(W: nat, E: real)
    ensures Replay(Created(Numbered(W), E), StartAll(W, E) + SettleAll(W, E)).actualCost == Times(W, E)
  {
    var db0 := Created(Numbered(W), E);
    StartedNone(W, E);
    ReplayKeepsSize(db0, [Start]);
    AllStart(Replay(db0, [Start]), W, E);
    StartAllReplays(db0, W, E);
    StartProtocol(W, E);
    ReachableSafe(Numbered(W), E, StartAll(W, E));
    SettleAllState(Replay(db0, StartAll(W, E)), W, E);
    ReplayConcat(db0, StartAll(W, E), SettleAll(W, E));
  }

  lemma NeverMoreThanAll(db: Db, actions: seq<Action>)
    ensures AtMostRunning(db, actions, |db.tasks|)
  {
    forall k | 0 <= k <= |actions| ensures Count(Replay(db, actions[..k]).tasks, TaskRunning) <= |db.tasks| {
      ReplayKeepsSize(db, actions[..k]);
      CountTotal(Replay(db, actions[..k]).tasks);
    }
  }

  /** For every W and E some schedule of W workers overshoots by exactly W - 1 estimates. */
  lemma OvershootIsAttained(W: nat, E: real, estimate: nat -> real) returns (actions: seq<Action>)
    requires W >= 1 && E >= 0.0 && forall t: nat :: estimate(t) == E
    ensures actions == StartAll(W, E) + SettleAll(W, E)
    ensures Protocol(actions) && Estimates(estimate, E) && (forall a | a in actions :: Priced(estimate, a))
    ensures AtMostRunning(Created(Numbered(W), E), actions, W)
    ensures Replay(Created(Numbered(W), E), actions).actualCost == E + (W - 1) as real * E
  {
    actions := StartAll(W, E) + SettleAll(W, E);
    StartPriced(W, E, estimate);
    SettlePriced(W, E, estimate);
    StartProtocol(W, E);
    SettleProtocol(W, E);
    NeverMoreThanAll(Created(Numbered(W), E), actions);
    AllStartedThenSettled(W, E);
    TimesSplit(W, E);
  }
}
