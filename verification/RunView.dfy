/**
 The protocol seen from outside: what each task of a run is doing, and nothing
 about counters, logs or records. The stored state takes exactly the steps of
 this view, so the view says what every repository method does.
 */
module RunView {
  import opened Counting
  import opened Execution
  import opened Ordering
  import opened Results
  import opened RunLedger
  import opened RunProtocol
  import opened RunSafety

  datatype Row =
    | Waiting
    | Claimed(owner: string, until: int)
    | Working(owner: string, until: int)
    | Answered(cost: real, outcomes: seq<MetricOutcome>)
    | Broken(category: FailureCategory)
    | Dropped

  datatype View = View(state: RunState, limit: real, keys: seq<TaskSpec>, rows: seq<Row>, attempts: seq<nat>)

  // ---------- the steps of the view ----------

  predicate InHand(r: Row) { r.Claimed? || r.Working? }

  predicate Open(r: Row) { r.Waiting? || InHand(r) }

  /** Never claimed, or claimed by a worker whose lease has run out. */
  predicate Free(r: Row, now: int) { r.Waiting? || (InHand(r) && r.until < now) }

  /** By record key, then by repetition. */
  predicate KeyLeq(a: TaskSpec, b: TaskSpec) {
    if a.recordKey == b.recordKey then a.repetition <= b.repetition else StringLeq(a.recordKey, b.recordKey)
  }

  ghost predicate Available(v: View, now: int, locked: set<nat>, t: nat) {
    t < |v.rows| && t !in locked && Free(v.rows[t], now)
  }

  /** A free task that no other free one precedes. */
  ghost predicate First(v: View, now: int, locked: set<nat>, t: nat)
    requires |v.keys| == |v.rows|
  {
    && Available(v, now, locked, t)
    && forall u: nat | Available(v, now, locked, u) :: KeyLeq(v.keys[t], v.keys[u])
  }

  function Spent(rows: seq<Row>): real {
    if rows == [] then 0.0
    else
      var last := rows[|rows| - 1];
      Spent(rows[..|rows| - 1]) + if last.Answered? then last.cost else 0.0
  }

  ghost predicate Repeats(outcomes: seq<MetricOutcome>) {
    exists i, j :: 0 <= i < j < |outcomes| &&
      outcomes[i].identifier == outcomes[j].identifier && outcomes[i].version == outcomes[j].version
  }

  /** Where a run goes when one of its tasks has been settled. */
  ghost function SettledState(state: RunState, rows: seq<Row>): RunState {
    if state == Pausing then (if exists r | r in rows :: InHand(r) then Pausing else Paused)
    else if exists r | r in rows :: Open(r) then state
    else if state == Running then (if exists r | r in rows :: r.Broken? then CompletedWithErrors else Completed)
    else if state == Cancelling then RunState.Cancelled
    else state
  }

  /** Task t comes to this end. */
  ghost function Settle(v: View, t: nat, end: Row): View
    requires t < |v.rows|
  {
    var rows := v.rows[t := end];
    v.(rows := rows, state := SettledState(v.state, rows))
  }

  ghost function Begun(v: View, t: nat): View
    requires t < |v.attempts|
  {
    v.(attempts := v.attempts[t := v.attempts[t] + 1])
  }

  function Sweep(rows: seq<Row>): seq<Row> {
    seq(|rows|, i requires 0 <= i < |rows| => if rows[i].Waiting? || rows[i].Claimed? then Dropped else rows[i])
  }

  /** What an action does to the view, or the error it raises. */
  ghost predicate Moves(v: View, a: Action, r: Result<View, RunError>)
    requires |v.keys| == |v.rows| == |v.attempts|
  {
    match a
    case Start => r == Ok(if v.state == Queued then v.(state := Running) else v)
    case ClaimTask(owner, now, locked) =>
      if v.state != Running || forall t: nat :: !Available(v, now, locked, t) then r == Ok(v)
      else exists t: nat :: First(v, now, locked, t) && r == Ok(v.(rows := v.rows[t := Claimed(owner, now + 120)]))
    case BeginTask(owner, t, estimate) =>
      if !(t < |v.rows| && v.rows[t].Claimed? && v.rows[t].owner == owner) then r == Err(Conflict)
      else if Spent(v.rows) + estimate > v.limit then r == Ok(Settle(Begun(v, t), t, Broken(BudgetExceeded)))
      else r == Ok(Begun(v, t).(rows := v.rows[t := Working(owner, v.rows[t].until)]))
    case Succeed(t, cost, outcomes) =>
      if t >= |v.rows| then r == Err(NotFound)
      else if v.rows[t].Answered? then r == Ok(v)
      else if !v.rows[t].Working? then r == Err(Conflict)
      else if Repeats(outcomes) then r == Err(IntegrityViolation)
      else r == Ok(Settle(v, t, Answered(cost, outcomes)))
    case Fail(t, category) =>
      if t >= |v.rows| then r == Err(NotFound)
      else if Open(v.rows[t]) then r == Ok(Settle(v, t, Broken(category)))
      else r == Ok(v)
    case Pause =>
      if v.state != Running then r == Err(InvalidStateTransition)
      else r == Ok(v.(state := if exists row | row in v.rows :: InHand(row) then Pausing else Paused))
    case Resume => r == if v.state == Paused then Ok(v.(state := Queued)) else Err(InvalidStateTransition)
    case Cancel =>
      if v.state !in {Queued, Running, Pausing, Paused} then r == Err(InvalidStateTransition)
      else r == Ok(v.(rows := Sweep(v.rows),
                      state := if exists row | row in v.rows :: row.Working? then Cancelling else RunState.Cancelled))
    case TransitionTo(target) =>
      r == if target in Allowed(v.state) then Ok(v.(state := target)) else Err(InvalidStateTransition)
  }

  // ---------- the view of a stored run ----------

  function CostAt(costs: seq<CostRow>, t: nat): real {
    if costs == [] then 0.0
    else if costs[|costs| - 1].task == t then costs[|costs| - 1].amount
    else CostAt(costs[..|costs| - 1], t)
  }

  function CategoryAt(failures: seq<FailureRow>, t: nat): FailureCategory {
    if failures == [] then ProviderFailure
    else if failures[|failures| - 1].task == t then failures[|failures| - 1].category
    else CategoryAt(failures[..|failures| - 1], t)
  }

  function OutcomesAt(metrics: seq<MetricRow>, t: nat): seq<MetricOutcome> {
    if metrics == [] then []
    else
      var last := metrics[|metrics| - 1];
      OutcomesAt(metrics[..|metrics| - 1], t) + if last.task == t then [last.outcome] else []
  }

  function Or<T>(x: Option<T>, default: T): T { if x.Some? then x.value else default }

  function RowOf(db: Db, t: nat): Row
    requires t < |db.tasks|
  {
    var task := db.tasks[t];
    match task.state
    case TaskPending => Waiting
    case TaskLeased => Claimed(Or(task.leaseOwner, ""), Or(task.leaseExpires, 0))
    case TaskRunning => Working(Or(task.leaseOwner, ""), Or(task.leaseExpires, 0))
    case TaskSucceeded => Answered(CostAt(db.costs, t), OutcomesAt(db.metrics, t))
    case TaskFailed => Broken(CategoryAt(db.failures, t))
    case TaskCancelled => Dropped
  }

  function RowsOf(db: Db): (r: seq<Row>)
    ensures |r| == |db.tasks| && forall t | 0 <= t < |r| :: r[t] == RowOf(db, t)
  {
    seq(|db.tasks|, t requires 0 <= t < |db.tasks| => RowOf(db, t))
  }

  function ViewOf(db: Db): View {
    View(db.state, db.budgetLimit,
         seq(|db.tasks|, t requires 0 <= t < |db.tasks| => TaskSpec(db.tasks[t].recordKey, db.tasks[t].repetition)),
         RowsOf(db),
         seq(|db.tasks|, t requires 0 <= t < |db.tasks| => db.tasks[t].attemptCount))
  }

  function ViewResult(r: Result<Db, RunError>): Result<View, RunError> {
    match r
    case Ok(db) => Ok(ViewOf(db))
    case Err(e) => Err(e)
  }

  /** A task in hand has a lease. */
  ghost predicate Leases(tasks: seq<TaskRow>) {
    forall t | 0 <= t < |tasks| && tasks[t].state in {TaskLeased, TaskRunning} ::
      tasks[t].leaseOwner.Some? && tasks[t].leaseExpires.Some?
  }

  /** Metric rows belong to answered tasks. */
  ghost predicate MetricsOfAnswers(db: Db) {
    forall i | 0 <= i < |db.metrics| ::
      db.metrics[i].task < |db.tasks| && db.tasks[db.metrics[i].task].state == TaskSucceeded
  }

  /** The attempts of each task are numbered 1, 2, 3 and so on, in the order they were made. */
  ghost predicate AttemptsNumbered(attempts: seq<AttemptRow>) {
    forall i | 0 <= i < |attempts| :: attempts[i].number == Hits(attempts[..i + 1], AttemptOf(attempts[i].task))
  }

  /** What keeps the stored run and its view together; the cost is the sum over the answered tasks. */
  ghost predicate Good(db: Db) {
    && Safe(db) && Leases(db.tasks) && MetricsOfAnswers(db) && AttemptsNumbered(db.attempts)
    && db.actualCost == Spent(RowsOf(db))
  }

  // ---------- looking up records ----------

  lemma {:induction false} CostAppend(costs: seq<CostRow>, row: CostRow, t: nat)
    ensures CostAt(costs + [row], t) == if row.task == t then row.amount else CostAt(costs, t)
  {
    assert (costs + [row])[..|costs|] == costs;
  }

  lemma {:induction false} CategoryAppend(failures: seq<FailureRow>, row: FailureRow, t: nat)
    ensures CategoryAt(failures + [row], t) == if row.task == t then row.category else CategoryAt(failures, t)
  {
    assert (failures + [row])[..|failures|] == failures;
  }

  lemma {:induction false} OutcomesAppend(metrics: seq<MetricRow>, task: nat, outcomes: seq<MetricOutcome>, t: nat)
    ensures OutcomesAt(metrics + MetricRows(task, outcomes), t)
            == OutcomesAt(metrics, t) + if task == t then outcomes else []
  {
    if outcomes == [] {
      assert metrics + MetricRows(task, outcomes) == metrics;
    } else {
      var n, all := |outcomes| - 1, metrics + MetricRows(task, outcomes);
      OutcomesAppend(metrics, task, outcomes[..n], t);
      assert all[..|all| - 1] == metrics + MetricRows(task, outcomes[..n]);
      assert outcomes == outcomes[..n] + [outcomes[n]];
    }
  }

  lemma {:induction false} NoOutcomes(metrics: seq<MetricRow>, t: nat)
    requires forall i | 0 <= i < |metrics| :: metrics[i].task != t
    ensures OutcomesAt(metrics, t) == []
  {
    if metrics != [] {
      NoOutcomes(metrics[..|metrics| - 1], t);
    }
  }

  lemma {:induction false} SpentUpdate(rows: seq<Row>, t: nat, row: Row)
    requires t < |rows|
    ensures Spent(rows[t := row]) == Spent(rows) - (if rows[t].Answered? then rows[t].cost else 0.0)
                                     + (if row.Answered? then row.cost else 0.0)
  {
    var n := |rows| - 1;
    if t == n {
      assert rows[t := row][..n] == rows[..n];
    } else {
      assert rows[t := row][..n] == rows[..n][t := row];
      SpentUpdate(rows[..n], t, row);
    }
  }

  // ---------- where a settled run goes ----------

  lemma RowsAndTasks(db: Db)
    ensures (exists r | r in RowsOf(db) :: InHand(r)) <==> !NoneActive(db.tasks)
    ensures (exists r | r in RowsOf(db) :: Open(r)) <==> !AllSettled(db.tasks)
    ensures (exists r | r in RowsOf(db) :: r.Broken?) <==>
            exists t | 0 <= t < |db.tasks| :: db.tasks[t].state == TaskFailed
    ensures (exists r | r in RowsOf(db) :: r.Working?) <==>
            exists t | 0 <= t < |db.tasks| :: db.tasks[t].state == TaskRunning
  {
    var rows := RowsOf(db);
    forall t | 0 <= t < |rows|
      ensures InHand(rows[t]) <==> db.tasks[t].state in {TaskLeased, TaskRunning}
      ensures Open(rows[t]) <==> !Settled(db.tasks[t].state)
      ensures rows[t].Broken? <==> db.tasks[t].state == TaskFailed
      ensures rows[t].Working? <==> db.tasks[t].state == TaskRunning
      ensures rows[t] in rows
    {
    }
  }

  lemma FailedRows(tasks: seq<TaskRow>, s: TaskState)
    ensures Count(tasks, s) > 0 <==> exists t | 0 <= t < |tasks| :: tasks[t].state == s
  {
    HitsZero(tasks, InState(s));
    assert forall t | 0 <= t < |tasks| :: InState(s)(tasks[t]) <==> tasks[t].state == s;
  }

  lemma FinalizeViews(mid: Db)
    requires Census(mid)
    ensures ViewOf(FinalizeIfSettled(mid)) == ViewOf(mid).(state := SettledState(mid.state, RowsOf(mid)))
  {
    CensusBounds(mid);
    SettledCounts(mid.tasks);
    FailedRows(mid.tasks, TaskFailed);
    RowsAndTasks(mid);
    FinalizeFrame(mid);
    SameRows(mid, FinalizeIfSettled(mid));
  }

  /** Rows depend on tasks and records only. */
  lemma SameRows(a: Db, b: Db)
    requires a.tasks == b.tasks && a.costs == b.costs && a.metrics == b.metrics && a.failures == b.failures
    ensures RowsOf(a) == RowsOf(b)
  {
    forall t | 0 <= t < |a.tasks| ensures RowOf(a, t) == RowOf(b, t) {
    }
  }

  /** One task changes, with whatever records it writes; the rows of all others stay. */
  lemma OneRowChanges(a: Db, b: Db, t: nat)
    requires t < |a.tasks| == |b.tasks| && b.tasks == a.tasks[t := b.tasks[t]]
    requires forall u: nat | u < |a.tasks| && u != t ::
               CostAt(b.costs, u) == CostAt(a.costs, u) && OutcomesAt(b.metrics, u) == OutcomesAt(a.metrics, u) &&
               CategoryAt(b.failures, u) == CategoryAt(a.failures, u)
    ensures RowsOf(b) == RowsOf(a)[t := RowOf(b, t)]
  {
    forall u | 0 <= u < |a.tasks| && u != t ensures RowOf(b, u) == RowOf(a, u) {
    }
  }

  // ---------- every step of the stored run is a step of the view ----------

  lemma MarkViews(db: Db, t: nat, owner: string)
    requires MarkTaskRunning(db, t, owner).Ok?
    ensures var v, marked := ViewOf(db), MarkTaskRunning(db, t, owner).value;
      ViewOf(marked) == Begun(v, t).(rows := v.rows[t := Working(owner, Or(db.tasks[t].leaseExpires, 0))])
  {
    var marked := MarkTaskRunning(db, t, owner).value;
    OneRowChanges(db, marked, t);
    SameKeys(db, marked);
  }

  lemma SameKeys(a: Db, b: Db)
    requires |a.tasks| == |b.tasks|
    requires forall t | 0 <= t < |a.tasks| ::
               a.tasks[t].recordKey == b.tasks[t].recordKey && a.tasks[t].repetition == b.tasks[t].repetition
    ensures ViewOf(a).keys == ViewOf(b).keys
  {
  }

  lemma SameAttempts(a: Db, b: Db)
    requires |a.tasks| == |b.tasks|
    requires forall t | 0 <= t < |a.tasks| :: a.tasks[t].attemptCount == b.tasks[t].attemptCount
    ensures ViewOf(a).attempts == ViewOf(b).attempts
  {
  }

  lemma FailureViews(db: Db, t: nat, category: FailureCategory)
    requires Ledger(db) && Census(db) && t < |db.tasks| && !Settled(db.tasks[t].state)
    ensures ViewOf(FinalizeIfSettled(FailedDb(db, t, category))) == Settle(ViewOf(db), t, Broken(category))
  {
    var mid := FailedDb(db, t, category);
    forall u: nat ensures CategoryAt(mid.failures, u) == if u == t then category else CategoryAt(db.failures, u) {
      CategoryAppend(db.failures, FailureRow(t, category), u);
    }
    OneRowChanges(db, mid, t);
    SameKeys(db, mid);
    SameAttempts(db, mid);
    FailureKeepsLedger(db, t, category);
    FinalizeViews(mid);
  }

  lemma SuccessViews(db: Db, t: nat, cost: real, outcomes: seq<MetricOutcome>)
    requires Good(db) && t < |db.tasks| && db.tasks[t].state == TaskRunning && UniqueMetrics(outcomes)
    ensures ViewOf(FinalizeIfSettled(SucceededDb(db, t, cost, outcomes)))
            == Settle(ViewOf(db), t, Answered(cost, outcomes))
  {
    var mid := SucceededDb(db, t, cost, outcomes);
    SuccessRows(db, t, cost, outcomes);
    SameKeys(db, mid);
    SameAttempts(db, mid);
    SuccessKeepsLedger(db, t, cost, outcomes);
    FinalizeViews(mid);
  }

  lemma SuccessRows(db: Db, t: nat, cost: real, outcomes: seq<MetricOutcome>)
    requires Good(db) && t < |db.tasks| && db.tasks[t].state == TaskRunning
    ensures RowsOf(SucceededDb(db, t, cost, outcomes)) == RowsOf(db)[t := Answered(cost, outcomes)]
  {
    var mid := SucceededDb(db, t, cost, outcomes);
    forall u: nat
      ensures CostAt(mid.costs, u) == if u == t then cost else CostAt(db.costs, u)
      ensures OutcomesAt(mid.metrics, u) == OutcomesAt(db.metrics, u) + if u == t then outcomes else []
    {
      CostAppend(db.costs, CostRow(t, cost), u);
      OutcomesAppend(db.metrics, t, outcomes, u);
    }
    NoOutcomes(db.metrics, t);
    assert [] + outcomes == outcomes;
    OneRowChanges(db, mid, t);
  }

  lemma RepeatsExactly(outcomes: seq<MetricOutcome>)
    ensures UniqueMetrics(outcomes) <==> !Repeats(outcomes)
  {
    if !UniqueMetrics(outcomes) {
      var i, j :| 0 <= i < j < |outcomes| &&
        (outcomes[i].identifier, outcomes[i].version) == (outcomes[j].identifier, outcomes[j].version);
    }
    if Repeats(outcomes) {
      var i, j :| 0 <= i < j < |outcomes| &&
        outcomes[i].identifier == outcomes[j].identifier && outcomes[i].version == outcomes[j].version;
      assert (outcomes[i].identifier, outcomes[i].version) == (outcomes[j].identifier, outcomes[j].version);
    }
  }

  lemma SucceedMoves(db: Db, t: nat, cost: real, outcomes: seq<MetricOutcome>)
    requires Good(db)
    ensures Moves(ViewOf(db), Succeed(t, cost, outcomes), ViewResult(Step(db, Succeed(t, cost, outcomes))))
  {
    RepeatsExactly(outcomes);
    if t < |db.tasks| && db.tasks[t].state == TaskRunning {
      assert SettledOnce(db, t);
      if UniqueMetrics(outcomes) {
        SuccessKeepsLedger(db, t, cost, outcomes);
        SuccessViews(db, t, cost, outcomes);
      }
    }
  }

  lemma FailMoves(db: Db, t: nat, category: FailureCategory)
    requires Good(db)
    ensures Moves(ViewOf(db), Fail(t, category), ViewResult(Step(db, Fail(t, category))))
  {
    if t < |db.tasks| && !Settled(db.tasks[t].state) {
      FailureViews(db, t, category);
    }
  }

  lemma BeginMoves(db: Db, owner: string, t: nat, estimate: real)
    requires Good(db)
    ensures Moves(ViewOf(db), BeginTask(owner, t, estimate), ViewResult(Step(db, BeginTask(owner, t, estimate))))
  {
    if MarkTaskRunning(db, t, owner).Ok? {
      var v, marked := ViewOf(db), MarkTaskRunning(db, t, owner).value;
      MarkViews(db, t, owner);
      MarkKeepsLedger(db, t, owner);
      MarkKeepsCensus(db, t, owner);
      if db.actualCost + estimate > db.budgetLimit {
        FailureViews(marked, t, BudgetExceeded);
        assert v.rows[t := Working(owner, Or(db.tasks[t].leaseExpires, 0))][t := Broken(BudgetExceeded)]
               == v.rows[t := Broken(BudgetExceeded)];
      }
    }
  }

  /** The rule for claiming, on stored rows and on the view. */
  lemma FreeIsClaimable(db: Db, now: int, t: nat)
    requires Good(db) && t < |db.tasks|
    ensures Free(RowOf(db, t), now) <==> Claimable(db.tasks[t], now)
  {
  }

  lemma ClaimMoves(db: Db, owner: string, now: int, locked: set<nat>)
    requires Good(db)
    ensures Moves(ViewOf(db), ClaimTask(owner, now, locked), ViewResult(Step(db, ClaimTask(owner, now, locked))))
  {
    var v, found := ViewOf(db), FirstClaimable(db.tasks, now, locked);
    forall t: nat ensures Available(v, now, locked, t) <==>
                          t < |db.tasks| && t !in locked && Claimable(db.tasks[t], now)
    {
      if t < |db.tasks| {
        FreeIsClaimable(db, now, t);
      }
    }
    if db.state == Running && found.Some? {
      var t := found.value;
      forall u: nat | Available(v, now, locked, u) ensures KeyLeq(v.keys[t], v.keys[u]) {
        FirstClaimableIsFirst(db.tasks, now, locked, u);
      }
      assert First(v, now, locked, t);
      ClaimViews(db, owner, now, locked);
    }
  }

  lemma {:induction false} ClaimViews(db: Db, owner: string, now: int, locked: set<nat>)
    requires FirstClaimable(db.tasks, now, locked).Some?
    ensures var v, t := ViewOf(db), FirstClaimable(db.tasks, now, locked).value;
      ViewOf(ClaimNextTask(db, owner, now, LEASE_SECONDS, locked).0)
      == v.(rows := v.rows[t := Claimed(owner, now + 120)])
  {
    var t, next := FirstClaimable(db.tasks, now, locked).value, ClaimNextTask(db, owner, now, LEASE_SECONDS, locked).0;
    OneRowChanges(db, next, t);
    SameKeys(db, next);
    SameAttempts(db, next);
  }

  lemma CancelMoves(db: Db)
    requires Good(db)
    ensures Moves(ViewOf(db), Cancel, ViewResult(Step(db, Cancel)))
  {
    if CancelRun(db).Ok? {
      CancelViews(db);
    }
  }

  lemma CancelViews(db: Db)
    requires CancelRun(db).Ok?
    ensures var v := ViewOf(db);
      ViewOf(CancelRun(db).value) ==
        v.(rows := Sweep(v.rows),
           state := if exists row | row in v.rows :: row.Working? then Cancelling else RunState.Cancelled)
  {
    var next := CancelRun(db).value;
    assert next.tasks == CancelOpen(db.tasks);
    RowsAndTasks(db);
    CancelCounts(db.tasks);
    FailedRows(db.tasks, TaskRunning);
    SweepRows(db, next);
    SameKeys(db, next);
    SameAttempts(db, next);
  }

  lemma SweepRows(db: Db, next: Db)
    requires next.tasks == CancelOpen(db.tasks)
    requires next.costs == db.costs && next.metrics == db.metrics && next.failures == db.failures
    ensures RowsOf(next) == Sweep(RowsOf(db))
  {
    forall t | 0 <= t < |db.tasks| ensures RowOf(next, t) == Sweep(RowsOf(db))[t] {
      assert next.tasks[t] == CancelRow(db.tasks[t]);
    }
  }

  lemma PauseMoves(db: Db)
    requires Good(db)
    ensures Moves(ViewOf(db), Pause, ViewResult(Step(db, Pause)))
  {
    RowsAndTasks(db);
    SettledCounts(db.tasks);
    if PauseRun(db).Ok? {
      SameRows(db, PauseRun(db).value);
    }
  }

  lemma TransitionViews(db: Db, target: RunState)
    requires TransitionRun(db, target).Ok?
    ensures ViewOf(TransitionRun(db, target).value) == ViewOf(db).(state := target)
  {
    SameRows(db, TransitionRun(db, target).value);
  }

  lemma StartMoves(db: Db)
    ensures Moves(ViewOf(db), Start, ViewResult(Step(db, Start)))
  {
    if db.state == Queued {
      TransitionViews(db, Running);
    }
  }

  lemma ResumeMoves(db: Db)
    requires Good(db)
    ensures Moves(ViewOf(db), Resume, ViewResult(Step(db, Resume)))
  {
    if TransitionRun(db, Queued).Ok? {
      TransitionViews(db, Queued);
    }
  }

  lemma TransitionMoves(db: Db, target: RunState)
    ensures Moves(ViewOf(db), TransitionTo(target), ViewResult(Step(db, TransitionTo(target))))
  {
    if TransitionRun(db, target).Ok? {
      TransitionViews(db, target);
    }
  }

  /** The stored run moves as its view does, errors included. */
  lemma StepMoves(db: Db, a: Action)
    requires Good(db)
    ensures Moves(ViewOf(db), a, ViewResult(Step(db, a)))
  {
    match a
    case Start => StartMoves(db);
    case ClaimTask(owner, now, locked) => ClaimMoves(db, owner, now, locked);
    case BeginTask(owner, t, estimate) => BeginMoves(db, owner, t, estimate);
    case Succeed(t, cost, outcomes) => SucceedMoves(db, t, cost, outcomes);
    case Fail(t, category) => FailMoves(db, t, category);
    case Pause => PauseMoves(db);
    case Resume => ResumeMoves(db);
    case Cancel => CancelMoves(db);
    case TransitionTo(target) => TransitionMoves(db, target);
  }

  // ---------- every run of the protocol is a run of the view ----------

  /** The clauses of `Good` that a finalization cannot touch. */
  ghost predicate Kept(db: Db) {
    Leases(db.tasks) && MetricsOfAnswers(db) && AttemptsNumbered(db.attempts) && db.actualCost == Spent(RowsOf(db))
  }

  lemma FinalizeKeeps(mid: Db)
    requires Kept(mid)
    ensures Kept(FinalizeIfSettled(mid))
  {
    FinalizeFrame(mid);
    SameRows(mid, FinalizeIfSettled(mid));
  }

  lemma MarkKeeps(db: Db, t: nat, owner: string)
    requires Good(db) && MarkTaskRunning(db, t, owner).Ok?
    ensures Kept(MarkTaskRunning(db, t, owner).value)
  {
    var marked := MarkTaskRunning(db, t, owner).value;
    MarkViews(db, t, owner);
    SpentUpdate(RowsOf(db), t, Working(owner, Or(db.tasks[t].leaseExpires, 0)));
    assert SettledOnce(db, t);
    NumberOneMore(db.attempts, t);
  }

  lemma {:induction false} NumberOneMore(attempts: seq<AttemptRow>, t: nat)
    requires AttemptsNumbered(attempts)
    ensures AttemptsNumbered(attempts + [AttemptRow(t, Hits(attempts, AttemptOf(t)) + 1)])
  {
    var row := AttemptRow(t, Hits(attempts, AttemptOf(t)) + 1);
    var all := attempts + [row];
    forall i | 0 <= i < |all| ensures all[i].number == Hits(all[..i + 1], AttemptOf(all[i].task)) {
      if i < |attempts| {
        assert all[..i + 1] == attempts[..i + 1];
      } else {
        assert all[..i + 1] == all;
        HitsAppend(attempts, row, AttemptOf(t));
      }
    }
  }

  lemma FailedKeeps(db: Db, t: nat, category: FailureCategory)
    requires Kept(db) && t < |db.tasks| && !Settled(db.tasks[t].state)
    ensures Kept(FailedDb(db, t, category))
  {
    var mid := FailedDb(db, t, category);
    forall u: nat ensures CategoryAt(mid.failures, u) == if u == t then category else CategoryAt(db.failures, u) {
      CategoryAppend(db.failures, FailureRow(t, category), u);
    }
    OneRowChanges(db, mid, t);
    SpentUpdate(RowsOf(db), t, Broken(category));
  }

  lemma SucceededKeeps(db: Db, t: nat, cost: real, outcomes: seq<MetricOutcome>)
    requires Good(db) && t < |db.tasks| && db.tasks[t].state == TaskRunning
    ensures Kept(SucceededDb(db, t, cost, outcomes))
  {
    var mid := SucceededDb(db, t, cost, outcomes);
    SuccessRows(db, t, cost, outcomes);
    SpentUpdate(RowsOf(db), t, Answered(cost, outcomes));
    forall i | 0 <= i < |mid.metrics|
      ensures mid.metrics[i].task < |mid.tasks| && mid.tasks[mid.metrics[i].task].state == TaskSucceeded
    {
      if i < |db.metrics| {
        assert mid.metrics[i] == db.metrics[i];
      } else {
        assert mid.metrics[i] == MetricRows(t, outcomes)[i - |db.metrics|];
      }
    }
  }

  lemma ClaimKeeps(db: Db, owner: string, now: int, locked: set<nat>)
    requires Good(db)
    ensures Kept(ClaimNextTask(db, owner, now, LEASE_SECONDS, locked).0)
  {
    var found := FirstClaimable(db.tasks, now, locked);
    if found.Some? {
      ClaimViews(db, owner, now, locked);
      SpentUpdate(RowsOf(db), found.value, Claimed(owner, now + 120));
    }
  }

  lemma {:induction false} SpentSweep(rows: seq<Row>)
    ensures Spent(Sweep(rows)) == Spent(rows)
  {
    if rows != [] {
      var n := |rows| - 1;
      assert Sweep(rows)[..n] == Sweep(rows[..n]);
      SpentSweep(rows[..n]);
    }
  }

  lemma CancelKeeps(db: Db)
    requires Good(db) && CancelRun(db).Ok?
    ensures Kept(CancelRun(db).value)
  {
    var next := CancelRun(db).value;
    assert next.tasks == CancelOpen(db.tasks);
    SweepRows(db, next);
    SpentSweep(RowsOf(db));
    forall t | 0 <= t < |next.tasks|
      ensures next.tasks[t].state in {TaskLeased, TaskRunning, TaskSucceeded} ==> next.tasks[t] == db.tasks[t]
      ensures db.tasks[t].state == TaskSucceeded ==> next.tasks[t] == db.tasks[t]
    {
      assert next.tasks[t] == CancelRow(db.tasks[t]);
    }
  }

  lemma QuietKeeps(db: Db, next: Db)
    requires Kept(db) && next.tasks == db.tasks && next.costs == db.costs && next.metrics == db.metrics
    requires next.failures == db.failures && next.attempts == db.attempts && next.actualCost == db.actualCost
    ensures Kept(next)
  {
    SameRows(db, next);
  }

  lemma BeginKeeps(db: Db, owner: string, t: nat, estimate: real)
    requires Good(db) && Begin(db, owner, t, estimate).Ok?
    ensures Kept(Begin(db, owner, t, estimate).value)
  {
    BeginCases(db, owner, t, estimate);
    MarkKeeps(db, t, owner);
    if db.actualCost + estimate > db.budgetLimit {
      var marked := MarkTaskRunning(db, t, owner).value;
      FailedKeeps(marked, t, BudgetExceeded);
      FinalizeKeeps(FailedDb(marked, t, BudgetExceeded));
    }
  }

  lemma SucceedKeeps(db: Db, t: nat, cost: real, outcomes: seq<MetricOutcome>)
    requires Good(db) && CompleteTaskSuccess(db, t, cost, outcomes).Ok?
    ensures Kept(CompleteTaskSuccess(db, t, cost, outcomes).value)
  {
    if db.tasks[t].state == TaskRunning {
      assert SettledOnce(db, t);
      SucceededKeeps(db, t, cost, outcomes);
      FinalizeKeeps(SucceededDb(db, t, cost, outcomes));
    }
  }

  lemma FailKeeps(db: Db, t: nat, category: FailureCategory)
    requires Good(db) && CompleteTaskFailure(db, t, category).Ok?
    ensures Kept(CompleteTaskFailure(db, t, category).value)
  {
    if !Settled(db.tasks[t].state) {
      FailedKeeps(db, t, category);
      FinalizeKeeps(FailedDb(db, t, category));
    }
  }

  lemma StepKeepsGood(db: Db, a: Action)
    requires Good(db) && !a.TransitionTo?
    ensures Good(Apply(db, a))
  {
    ActionKeepsLedger(db, a);
    ActionKeepsLog(db, a);
    ActionKeepsStates(db, a);
    if Step(db, a).Ok? {
      match a
      case Start => QuietKeeps(db, Apply(db, a));
      case ClaimTask(owner, now, locked) => if db.state == Running { ClaimKeeps(db, owner, now, locked); }
      case BeginTask(owner, t, estimate) => BeginKeeps(db, owner, t, estimate);
      case Succeed(t, cost, outcomes) => SucceedKeeps(db, t, cost, outcomes);
      case Fail(t, category) => FailKeeps(db, t, category);
      case Pause => QuietKeeps(db, Apply(db, a));
      case Resume => QuietKeeps(db, Apply(db, a));
      case Cancel => CancelKeeps(db);
    }
  }

  lemma CreatedGood(specs: seq<TaskSpec>, limit: real)
    ensures Good(Created(specs, limit))
  {
    CreatedSafe(specs, limit);
    NothingSpent(RowsOf(Created(specs, limit)));
  }

  lemma CreatedViews(specs: seq<TaskSpec>, limit: real)
    ensures ViewOf(Created(specs, limit)) == NewView(specs, limit)
  {
    var v, w := ViewOf(Created(specs, limit)), NewView(specs, limit);
    assert v.keys == w.keys && v.rows == w.rows && v.attempts == w.attempts;
  }

  lemma {:induction false} NothingSpent(rows: seq<Row>)
    requires forall t | 0 <= t < |rows| :: rows[t].Waiting?
    ensures Spent(rows) == 0.0
  {
    if rows != [] {
      NothingSpent(rows[..|rows| - 1]);
    }
  }

  /** A queued run whose tasks all wait. */
  function NewView(specs: seq<TaskSpec>, limit: real): View {
    View(Queued, limit, specs, seq(|specs|, i requires 0 <= i < |specs| => Waiting),
         seq(|specs|, i requires 0 <= i < |specs| => 0))
  }

  lemma {:induction false} ReplayKeepsGood(db: Db, actions: seq<Action>)
    requires Good(db) && Protocol(actions)
    ensures Good(Replay(db, actions))
  {
    if actions != [] {
      var n := |actions| - 1;
      ReplayKeepsGood(db, actions[..n]);
      StepKeepsGood(Replay(db, actions[..n]), actions[n]);
    }
  }

  /** Whatever workers and API calls do, in whatever order: the view starts with every task waiting, and
      each action moves it as `Moves` says. What was spent is the sum over the answered tasks. */
  lemma EveryRunMovesAsViewed(specs: seq<TaskSpec>, limit: real, actions: seq<Action>, k: nat)
    requires Protocol(actions) && k <= |actions|
    ensures ViewOf(Replay(Created(specs, limit), [])) == NewView(specs, limit)
    ensures var db := Replay(Created(specs, limit), actions[..k]);
      && db.actualCost == Spent(ViewOf(db).rows) && AttemptsNumbered(db.attempts)
      && (k < |actions| ==> Moves(ViewOf(db), actions[k], ViewResult(Step(db, actions[k]))))
  {
    CreatedGood(specs, limit);
    CreatedViews(specs, limit);
    ReplayKeepsGood(Created(specs, limit), actions[..k]);
    if k < |actions| {
      StepMoves(Replay(Created(specs, limit), actions[..k]), actions[k]);
    }
  }

  // ---------- a worker that dies ----------

  /** A task claimed and started by a worker that is never heard of again stays with it until its lease of
      120 seconds has run out; after that it goes to the next worker that finds nothing else to do. */
  lemma DeadWorkersTaskIsReclaimed(db: Db, owner: string, now: int, t: nat, estimate: real, other: string, later: int,
                                   locked: set<nat>)
    requires db.state == Running && ClaimNextTask(db, owner, now, LEASE_SECONDS, {}).1 == Some(t)
    requires db.actualCost + estimate <= db.budgetLimit && t !in locked
    requires forall u: nat | u < |db.tasks| && u != t && u !in locked :: !MayBeTaken(db.tasks[u], later)
    ensures var working := Apply(Apply(db, ClaimTask(owner, now, {})), BeginTask(owner, t, estimate));
            var after := Apply(working, ClaimTask(other, later, locked));
      && t < |working.tasks| && working.tasks[t].state == TaskRunning
      && working.tasks[t].leaseOwner == Some(owner) && working.tasks[t].leaseExpires == Some(now + 120)
      && (later <= now + 120 ==> after == working)
      && (later > now + 120 ==>
            && t < |after.tasks| && after.tasks[t].state == TaskLeased
            && after.tasks[t].leaseOwner == Some(other) && after.tasks[t].leaseExpires == Some(later + 120))
  {
    var claimed := Apply(db, ClaimTask(owner, now, {}));
    ClaimTakesExactly(db, owner, now, LEASE_SECONDS, {});
    var working := Apply(claimed, BeginTask(owner, t, estimate));
    assert MarkTaskRunning(claimed, t, owner).Ok?;
    forall u: nat | u < |db.tasks| && u != t ensures working.tasks[u] == db.tasks[u] {
    }
    ClaimTakesExactly(working, other, later, LEASE_SECONDS, locked);
    var found := ClaimNextTask(working, other, later, LEASE_SECONDS, locked).1;
    assert found.Some? ==> found.value == t;
    if later > now + 120 {
      assert MayBeTaken(working.tasks[t], later);
    }
  }
}
