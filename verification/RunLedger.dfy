/**
 The stored state of one evaluation run, and one function per repository
 method. These functions are the specification of the class in
 RunRepository.dfy and the step relation of the interleavings in
 RunProtocol.dfy. Tasks are named by their position in `tasks`.
 */
module RunLedger {
  import opened Results
  import opened Counting
  import opened Ordering
  import opened Execution

  datatype TaskRow = TaskRow(
    recordKey: string,
    repetition: nat,
    state: TaskState,
    leaseOwner: Option<string>,
    leaseExpires: Option<int>,
    attemptCount: nat)

  datatype StateEvent = StateEvent(sequence: int, source: Option<RunState>, target: RunState)

  datatype AttemptRow = AttemptRow(task: nat, number: nat)

  datatype SampleStatus = SampleSucceeded | SampleFailed

  datatype SampleRow = SampleRow(task: nat, status: SampleStatus)

  datatype CostRow = CostRow(task: nat, amount: real)

  datatype FailureRow = FailureRow(task: nat, category: FailureCategory)

  datatype MetricStatus = MetricSucceeded | MetricMissing | MetricFailed

  datatype MetricOutcome = MetricOutcome(
    identifier: string,
    version: string,
    status: MetricStatus,
    scalar: Option<real>)

  datatype MetricRow = MetricRow(task: nat, outcome: MetricOutcome)

  datatype Db = Db(
    state: RunState,
    total: int,
    succeeded: int,
    failed: int,
    cancelled: int,
    budgetLimit: real,
    actualCost: real,
    versionStamp: int,
    events: seq<StateEvent>,
    tasks: seq<TaskRow>,
    attempts: seq<AttemptRow>,
    samples: seq<SampleRow>,
    costs: seq<CostRow>,
    failures: seq<FailureRow>,
    metrics: seq<MetricRow>)

  // ---------- row queries ----------

  function InState(s: TaskState): TaskRow -> bool { (r: TaskRow) => r.state == s }

  function Count(tasks: seq<TaskRow>, s: TaskState): nat { Hits(tasks, InState(s)) }

  function SampleOf(t: nat): SampleRow -> bool { (r: SampleRow) => r.task == t }

  /** `coalesce(max(sequence), -1)` */
  function MaxSequence(events: seq<StateEvent>): int {
    if events == [] then -1
    else
      var rest := MaxSequence(events[..|events| - 1]);
      var last := events[|events| - 1].sequence;
      if rest < last then last else rest
  }

  predicate Claimable(r: TaskRow, now: int) {
    || r.state == TaskPending
    || (r.state in {TaskLeased, TaskRunning} && r.leaseExpires.Some? && r.leaseExpires.value < now)
  }

  /** ORDER BY record_key, repetition */
  predicate RowLeq(a: TaskRow, b: TaskRow) {
    if a.recordKey == b.recordKey then a.repetition <= b.repetition
    else StringLeq(a.recordKey, b.recordKey)
  }

  /** The first claimable row, passing over those other transactions have locked. */
  function FirstClaimable(tasks: seq<TaskRow>, now: int, locked: set<nat>): (r: Option<nat>)
    ensures r.Some? ==> r.value < |tasks| && r.value !in locked && Claimable(tasks[r.value], now)
    ensures r.None? ==> forall i: nat | i < |tasks| && i !in locked :: !Claimable(tasks[i], now)
  {
    if tasks == [] then None
    else
      var n := |tasks| - 1;
      var best := FirstClaimable(tasks[..n], now, locked);
      if n !in locked && Claimable(tasks[n], now)
         && (best.None? || !RowLeq(tasks[best.value], tasks[n]))
      then Some(n)
      else best
  }

  lemma RowOrder()
    ensures forall a, b :: RowLeq(a, b) || RowLeq(b, a)
    ensures forall a, b, c :: RowLeq(a, b) && RowLeq(b, c) ==> RowLeq(a, c)
  {
    StringOrder();
  }

  /** No row that could be claimed comes before the one that is. */
  lemma {:induction false} FirstClaimableIsFirst(tasks: seq<TaskRow>, now: int, locked: set<nat>, i: nat)
    requires i < |tasks| && i !in locked && Claimable(tasks[i], now)
    ensures var first := FirstClaimable(tasks, now, locked);
      first.Some? && RowLeq(tasks[first.value], tasks[i])
  {
    RowOrder();
    var n := |tasks| - 1;
    if i < n {
      FirstClaimableIsFirst(tasks[..n], now, locked, i);
    } else if FirstClaimable(tasks[..n], now, locked).None? {
      assert FirstClaimable(tasks, now, locked) == Some(n);
    }
  }

  // ---------- repository methods ----------

  function TransitionRun(db: Db, target: RunState): Result<Db, RunError> {
    if target !in Allowed(db.state) then Err(InvalidStateTransition)
    else Ok(db.(
      state := target,
      versionStamp := db.versionStamp + 1,
      events := db.events + [StateEvent(MaxSequence(db.events) + 1, Some(db.state), target)]))
  }

  function ClaimNextTask(db: Db, owner: string, now: int, leaseSeconds: int, locked: set<nat>): (Db, Option<nat>) {
    var found := FirstClaimable(db.tasks, now, locked);
    if found.None? then (db, None)
    else
      var row := db.tasks[found.value].(
        state := TaskLeased,
        leaseOwner := Some(owner),
        leaseExpires := Some(now + leaseSeconds));
      (db.(tasks := db.tasks[found.value := row]), found)
  }

  function MarkTaskRunning(db: Db, t: nat, owner: string): Result<Db, RunError> {
    if t >= |db.tasks| || db.tasks[t].state != TaskLeased || db.tasks[t].leaseOwner != Some(owner) then Err(Conflict)
    else
      var row := db.tasks[t].(state := TaskRunning, attemptCount := db.tasks[t].attemptCount + 1);
      Ok(db.(
        tasks := db.tasks[t := row],
        attempts := db.attempts + [AttemptRow(t, row.attemptCount)]))
  }

  function Active(tasks: seq<TaskRow>): nat { Count(tasks, TaskLeased) + Count(tasks, TaskRunning) }

  function FinalizeIfSettled(db: Db): Db {
    if db.state == Pausing then
      if Active(db.tasks) == 0 then TransitionRun(db, Paused).value else db
    else if db.succeeded + db.failed + db.cancelled != db.total then db
    else if db.state == Cancelling then TransitionRun(db, RunState.Cancelled).value
    else if db.state == Running then
      TransitionRun(db, if db.failed != 0 then CompletedWithErrors else Completed).value
    else db
  }

  function MetricRows(t: nat, outcomes: seq<MetricOutcome>): seq<MetricRow> {
    seq(|outcomes|, i requires 0 <= i < |outcomes| => MetricRow(t, outcomes[i]))
  }

  /** UNIQUE (sample_id, metric_identifier, metric_version) */
  predicate UniqueMetrics(outcomes: seq<MetricOutcome>) {
    forall i, j | 0 <= i < j < |outcomes| ::
      (outcomes[i].identifier, outcomes[i].version) != (outcomes[j].identifier, outcomes[j].version)
  }

  /** Every row a success writes, before the run is finalized. */
  function SucceededDb(db: Db, t: nat, cost: real, outcomes: seq<MetricOutcome>): Db
    requires t < |db.tasks|
  {
    db.(
      tasks := db.tasks[t := db.tasks[t].(state := TaskSucceeded)],
      samples := db.samples + [SampleRow(t, SampleSucceeded)],
      metrics := db.metrics + MetricRows(t, outcomes),
      costs := db.costs + [CostRow(t, cost)],
      succeeded := db.succeeded + 1,
      actualCost := db.actualCost + cost)
  }

  function CompleteTaskSuccess(db: Db, t: nat, cost: real, outcomes: seq<MetricOutcome>): Result<Db, RunError> {
    if t >= |db.tasks| then Err(NotFound)
    else if db.tasks[t].state == TaskSucceeded then Ok(db)
    else if db.tasks[t].state != TaskRunning then Err(Conflict)
    else
      var tasks := db.tasks[t := db.tasks[t].(state := TaskSucceeded)];
      if Hits(db.samples, SampleOf(t)) != 0 then Ok(db.(tasks := tasks))
      else if !UniqueMetrics(outcomes) then Err(IntegrityViolation)
      else Ok(FinalizeIfSettled(SucceededDb(db, t, cost, outcomes)))
  }

  /** Every row a failure writes, before the run is finalized. */
  function FailedDb(db: Db, t: nat, category: FailureCategory): Db
    requires t < |db.tasks|
  {
    db.(
      tasks := db.tasks[t := db.tasks[t].(state := TaskFailed)],
      samples := if Hits(db.samples, SampleOf(t)) == 0 then db.samples + [SampleRow(t, SampleFailed)] else db.samples,
      failures := db.failures + [FailureRow(t, category)],
      failed := db.failed + 1)
  }

  function CompleteTaskFailure(db: Db, t: nat, category: FailureCategory): Result<Db, RunError> {
    if t >= |db.tasks| then Err(NotFound)
    else if Settled(db.tasks[t].state) then Ok(db)
    else Ok(FinalizeIfSettled(FailedDb(db, t, category)))
  }

  function CancelRow(r: TaskRow): TaskRow {
    if r.state in {TaskPending, TaskLeased} then r.(state := TaskCancelled) else r
  }

  /** UPDATE ... SET state = 'cancelled' WHERE state IN ('pending', 'leased') */
  function CancelOpen(tasks: seq<TaskRow>): (r: seq<TaskRow>)
    ensures |r| == |tasks|
    ensures forall i | 0 <= i < |tasks| :: r[i] == CancelRow(tasks[i])
  {
    seq(|tasks|, i requires 0 <= i < |tasks| => CancelRow(tasks[i]))
  }

  function CancelRun(db: Db): Result<Db, RunError> {
    if db.state !in {Queued, Running, Pausing, Paused} then Err(InvalidStateTransition)
    else
      var marked := TransitionRun(db, Cancelling).value;
      var swept := marked.(
        tasks := CancelOpen(db.tasks),
        cancelled := db.cancelled + Count(db.tasks, TaskPending) + Count(db.tasks, TaskLeased));
      if Count(swept.tasks, TaskRunning) == 0 then TransitionRun(swept, RunState.Cancelled) else Ok(swept)
  }

  function PauseRun(db: Db): Result<Db, RunError> {
    if db.state != Running then Err(InvalidStateTransition)
    else
      var pausing := TransitionRun(db, Pausing).value;
      if Active(db.tasks) == 0 then TransitionRun(pausing, Paused) else Ok(pausing)
  }

  function ResumeRun(db: Db): Result<Db, RunError> { TransitionRun(db, Queued) }

  // ---------- what a claim takes ----------

  /** Nobody has the row, or the lease of whoever has it expired before now. */
  ghost predicate MayBeTaken(r: TaskRow, now: int) {
    match r.state
    case TaskPending => true
    case TaskLeased => r.leaseExpires.Some? && r.leaseExpires.value < now
    case TaskRunning => r.leaseExpires.Some? && r.leaseExpires.value < now
    case _ => false
  }

  /** A claim takes a row if and only if some row that is not locked may be taken; it is one of those,
      and none of them has a smaller record key, or the same key and a smaller repetition. It is leased to
      the new owner from now on; all other rows, those under a live lease included, are left alone. */
  lemma ClaimTakesExactly(db: Db, owner: string, now: int, leaseSeconds: int, locked: set<nat>)
    ensures var (next, found) := ClaimNextTask(db, owner, now, leaseSeconds, locked);
      && (found.Some? <==> exists i: nat :: i < |db.tasks| && i !in locked && MayBeTaken(db.tasks[i], now))
      && (found.None? ==> next == db)
      && (found.Some? ==>
            && found.value < |db.tasks| && found.value !in locked && MayBeTaken(db.tasks[found.value], now)
            && (forall i: nat | i < |db.tasks| && i !in locked && MayBeTaken(db.tasks[i], now) ::
                  var taken, other := db.tasks[found.value], db.tasks[i];
                  if taken.recordKey == other.recordKey then taken.repetition <= other.repetition
                  else StringLeq(taken.recordKey, other.recordKey))
            && next.tasks[..found.value] == db.tasks[..found.value]
            && next.tasks[found.value + 1..] == db.tasks[found.value + 1..]
            && var row := next.tasks[found.value];
              && row.state == TaskLeased && row.leaseOwner == Some(owner)
              && row.leaseExpires == Some(now + leaseSeconds)
              && row.attemptCount == db.tasks[found.value].attemptCount
              && row.recordKey == db.tasks[found.value].recordKey
              && row.repetition == db.tasks[found.value].repetition)
  {
    forall i: nat | i < |db.tasks| && i !in locked
      ensures MayBeTaken(db.tasks[i], now) <==> Claimable(db.tasks[i], now)
    {
    }
    forall i: nat | i < |db.tasks| && i !in locked && MayBeTaken(db.tasks[i], now)
      ensures var first := FirstClaimable(db.tasks, now, locked);
        first.Some? && RowLeq(db.tasks[first.value], db.tasks[i])
    {
      FirstClaimableIsFirst(db.tasks, now, locked, i);
    }
  }

  // ---------- creation ----------

  datatype TaskSpec = TaskSpec(recordKey: string, repetition: nat)

  function PendingRow(s: TaskSpec): TaskRow {
    TaskRow(s.recordKey, s.repetition, TaskPending, None, None, 0)
  }

  function PendingRows(specs: seq<TaskSpec>): (r: seq<TaskRow>)
    ensures |r| == |specs|
    ensures forall i | 0 <= i < |specs| :: r[i] == PendingRow(specs[i])
  {
    seq(|specs|, i requires 0 <= i < |specs| => PendingRow(specs[i]))
  }

  /** What `add_run` stores for a run that `create_run` has queued. */
  function Created(specs: seq<TaskSpec>, budgetLimit: real): Db {
    Db(
      Queued, |specs|, 0, 0, 0, budgetLimit, 0.0, 3,
      [StateEvent(0, None, Draft), StateEvent(1, Some(Draft), Validating), StateEvent(2, Some(Validating), Queued)],
      PendingRows(specs), [], [], [], [], [])
  }
}
