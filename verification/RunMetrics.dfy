/**
 The denominators of the metric aggregate: for each reported metric the four
 reported counts are compared with the run's total, in every reachable state.
 */
module RunMetrics {
  import opened Averages
  import opened Counting
  import opened Results
  import opened Execution
  import opened RunLedger
  import opened RunProtocol
  import opened RunSafety
  import opened RunView

  /** One metric of the suite, with the version the registry has for it. */
  datatype SuiteEntry = SuiteEntry(identifier: string, version: string)

  ghost predicate DistinctSuite(suite: seq<SuiteEntry>) {
    forall i, j | 0 <= i < j < |suite| :: suite[i].identifier != suite[j].identifier
  }

  /** The worker records one outcome per suite entry, in order. */
  ghost predicate Conforms(suite: seq<SuiteEntry>, outcomes: seq<MetricOutcome>) {
    && |outcomes| == |suite|
    && forall i | 0 <= i < |suite| :: SuiteEntry(outcomes[i].identifier, outcomes[i].version) == suite[i]
  }

  function Named(e: SuiteEntry): MetricRow -> bool {
    (r: MetricRow) => SuiteEntry(r.outcome.identifier, r.outcome.version) == e
  }

  predicate IsAvailable(e: SuiteEntry, r: MetricRow) {
    Named(e)(r) && r.outcome.status == MetricSucceeded && r.outcome.scalar.Some?
  }

  /** Succeeded without a scalar: the aggregate query counts such a row nowhere. */
  predicate IsSilent(e: SuiteEntry, r: MetricRow) {
    Named(e)(r) && r.outcome.status == MetricSucceeded && r.outcome.scalar.None?
  }

  function Available(e: SuiteEntry): MetricRow -> bool { (r: MetricRow) => IsAvailable(e, r) }
  function Silent(e: SuiteEntry): MetricRow -> bool { (r: MetricRow) => IsSilent(e, r) }
  function Missing(e: SuiteEntry): MetricRow -> bool {
    (r: MetricRow) => Named(e)(r) && r.outcome.status == MetricMissing
  }
  function MetricFailures(e: SuiteEntry): MetricRow -> bool {
    (r: MetricRow) => Named(e)(r) && r.outcome.status == MetricFailed
  }

  datatype Aggregate = Aggregate(
    value: Option<real>, total: int, available: int, missing: int, failed: int, pending: int)

  /** The scalars that are averaged. */
  function Scalars(metrics: seq<MetricRow>, e: SuiteEntry): seq<real> {
    if metrics == [] then []
    else
      var last := metrics[|metrics| - 1];
      Scalars(metrics[..|metrics| - 1], e) + if IsAvailable(e, last) then [last.outcome.scalar.value] else []
  }

  /** `aggregate_metrics`, for one (identifier, version) group. */
  function AggregateMetric(db: Db, e: SuiteEntry): Aggregate {
    Aggregate(
      if Scalars(db.metrics, e) == [] then None else Some(Mean(Scalars(db.metrics, e))),
      db.total,
      Hits(db.metrics, Available(e)),
      Hits(db.metrics, Missing(e)) + db.cancelled,
      Hits(db.metrics, MetricFailures(e)) + db.failed,
      db.total - (db.succeeded + db.failed + db.cancelled))
  }

  /** Every row of a metric is available, missing, failed or silent. */
  lemma {:induction false} RowsPartition(rows: seq<MetricRow>, e: SuiteEntry)
    ensures Hits(rows, Named(e))
            == Hits(rows, Available(e)) + Hits(rows, Missing(e)) + Hits(rows, MetricFailures(e)) + Hits(rows, Silent(e))
  {
    if rows != [] {
      RowsPartition(rows[..|rows| - 1], e);
    }
  }

  /** Each suite metric has one row per succeeded task, and no other metric has any. */
  ghost predicate OneRowPerSuccess(db: Db, suite: seq<SuiteEntry>) {
    && (forall e | e in suite :: Hits(db.metrics, Named(e)) == db.succeeded)
    && (forall e | e !in suite :: Hits(db.metrics, Named(e)) == 0)
  }

  lemma {:induction false} OutcomeHits(suite: seq<SuiteEntry>, t: nat, outcomes: seq<MetricOutcome>, e: SuiteEntry)
    requires DistinctSuite(suite) && Conforms(suite, outcomes)
    ensures Hits(MetricRows(t, outcomes), Named(e)) == One(e in suite)
  {
    if suite == [] {
      assert MetricRows(t, outcomes) == [];
    } else {
      var n := |suite| - 1;
      assert MetricRows(t, outcomes)[..n] == MetricRows(t, outcomes[..n]);
      OutcomeHits(suite[..n], t, outcomes[..n], e);
      assert suite == suite[..n] + [suite[n]];
      assert suite[n] !in suite[..n];
    }
  }

  /** Only `complete_task_success` writes metric rows, one success at a time. */
  lemma ActionMetrics(db: Db, a: Action)
    requires Census(db) && Ledger(db)
    ensures var next := Apply(db, a);
            || (next.metrics == db.metrics && next.succeeded == db.succeeded)
            || (a.Succeed? && next.metrics == db.metrics + MetricRows(a.task, a.outcomes) &&
                next.succeeded == db.succeeded + 1)
  {
    match a
    case BeginTask(owner, t, estimate) =>
      if Step(db, a).Ok? {
        BeginCases(db, owner, t, estimate);
        FinalizeFrame(FailedDb(MarkTaskRunning(db, t, owner).value, t, BudgetExceeded));
      }
    case Succeed(t, cost, outcomes) =>
      if t < |db.tasks| && db.tasks[t].state == TaskRunning && UniqueMetrics(outcomes) {
        SuccessKeepsLedger(db, t, cost, outcomes);
        FinalizeFrame(SucceededDb(db, t, cost, outcomes));
      }
    case Fail(t, category) =>
      if t < |db.tasks| && !Settled(db.tasks[t].state) {
        FailureKeepsLedger(db, t, category);
        FinalizeFrame(FailedDb(db, t, category));
      }
    case _ =>
  }

  lemma ActionKeepsRows(db: Db, a: Action, suite: seq<SuiteEntry>)
    requires Census(db) && Ledger(db) && OneRowPerSuccess(db, suite) && DistinctSuite(suite)
    requires a.Succeed? ==> Conforms(suite, a.outcomes)
    ensures OneRowPerSuccess(Apply(db, a), suite)
  {
    ActionMetrics(db, a);
    var next := Apply(db, a);
    if next.succeeded != db.succeeded {
      forall e ensures Hits(next.metrics, Named(e)) == Hits(db.metrics, Named(e)) + One(e in suite) {
        HitsConcat(db.metrics, MetricRows(a.task, a.outcomes), Named(e));
        OutcomeHits(suite, a.task, a.outcomes, e);
      }
    }
  }

  lemma {:induction false} ReplayKeepsRows(specs: seq<TaskSpec>, limit: real, actions: seq<Action>,
                                           suite: seq<SuiteEntry>)
    requires DistinctSuite(suite)
    requires forall a | a in actions && a.Succeed? :: Conforms(suite, a.outcomes)
    ensures OneRowPerSuccess(Replay(Created(specs, limit), actions), suite)
  {
    if actions != [] {
      var n := |actions| - 1;
      ReplayKeepsRows(specs, limit, actions[..n], suite);
      EventLogIsGapFree(specs, limit, actions[..n]);
      ActionKeepsRows(Replay(Created(specs, limit), actions[..n]), actions[n], suite);
    }
  }

  /**
   The reported counts fall short of the total by exactly the silent rows, so
   they add up if and only if no recorded success of the metric lacks a scalar.
   */
  lemma {:induction false} DenominatorsAddUp(
    specs: seq<TaskSpec>, limit: real, actions: seq<Action>, suite: seq<SuiteEntry>, e: SuiteEntry)
    requires DistinctSuite(suite) && e in suite
    requires forall a | a in actions && a.Succeed? :: Conforms(suite, a.outcomes)
    ensures var db := Replay(Created(specs, limit), actions);
            var g := AggregateMetric(db, e);
            && g.available + g.missing + g.failed + g.pending + Hits(db.metrics, Silent(e)) == g.total == |specs|
            && (g.available + g.missing + g.failed + g.pending == g.total <==>
                forall i | 0 <= i < |db.metrics| :: !IsSilent(e, db.metrics[i]))
  {
    var db := Replay(Created(specs, limit), actions);
    ReplayKeepsRows(specs, limit, actions, suite);
    ReplayKeepsSize(Created(specs, limit), actions);
    RowsPartition(db.metrics, e);
    HitsZero(db.metrics, Silent(e));
    assert forall i | 0 <= i < |db.metrics| :: Silent(e)(db.metrics[i]) == IsSilent(e, db.metrics[i]);
  }

  /** A metric is reported exactly when it is in the suite and some task has succeeded. */
  lemma {:induction false} ReportedMetrics(
    specs: seq<TaskSpec>, limit: real, actions: seq<Action>, suite: seq<SuiteEntry>, e: SuiteEntry)
    requires DistinctSuite(suite)
    requires forall a | a in actions && a.Succeed? :: Conforms(suite, a.outcomes)
    ensures var db := Replay(Created(specs, limit), actions);
            Hits(db.metrics, Named(e)) > 0 <==> e in suite && db.succeeded > 0
  {
    ReplayKeepsRows(specs, limit, actions, suite);
    EventLogIsGapFree(specs, limit, actions);
  }

  /** A suite that names a metric twice can never record a success. */
  lemma RepeatedMetricNeverSucceeds(db: Db, t: nat, cost: real, suite: seq<SuiteEntry>, outcomes: seq<MetricOutcome>)
    requires Conforms(suite, outcomes)
    requires exists i, j :: 0 <= i < j < |suite| && suite[i] == suite[j]
    requires Ledger(db) && Census(db)
    ensures Apply(db, Succeed(t, cost, outcomes)) == db
  {
    var i, j :| 0 <= i < j < |suite| && suite[i] == suite[j];
    assert outcomes[i].identifier == outcomes[j].identifier && outcomes[i].version == outcomes[j].version by {
      assert SuiteEntry(outcomes[i].identifier, outcomes[i].version)
             == SuiteEntry(outcomes[j].identifier, outcomes[j].version);
    }
    assert !UniqueMetrics(outcomes);
    if t < |db.tasks| && db.tasks[t].state == TaskRunning {
      assert SettledOnce(db, t);
    }
  }

  // ---------- what each count counts ----------

  datatype Shown = AsAvailable | AsMissing | AsFailed | AsPending | AsNothing

  /** The outcome a task has for a metric. */
  function OutcomeOf(outcomes: seq<MetricOutcome>, e: SuiteEntry): Option<MetricOutcome> {
    if outcomes == [] then None
    else
      var last := outcomes[|outcomes| - 1];
      if SuiteEntry(last.identifier, last.version) == e then Some(last) else OutcomeOf(outcomes[..|outcomes| - 1], e)
  }

  /** How one task is reported under a metric: by its outcome when it was answered, as missing when it was
      cancelled, as failed when it failed, as pending while it is open. */
  function Shows(e: SuiteEntry, r: Row): Shown {
    match r
    case Answered(_, outcomes) => ShowsOutcome(OutcomeOf(outcomes, e))
    case Dropped => AsMissing
    case Broken(_) => AsFailed
    case _ => AsPending
  }

  function ShowsOutcome(o: Option<MetricOutcome>): Shown {
    match o
    case None => AsNothing
    case Some(outcome) =>
      match outcome.status
      case MetricMissing => AsMissing
      case MetricFailed => AsFailed
      case MetricSucceeded => if outcome.scalar.Some? then AsAvailable else AsNothing
  }

  function ShownAs(e: SuiteEntry, s: Shown): Row -> bool { (r: Row) => Shows(e, r) == s }

  /** An outcome of the metric, reported in this way. */
  function OutcomeShown(e: SuiteEntry, s: Shown): MetricOutcome -> bool {
    (o: MetricOutcome) => SuiteEntry(o.identifier, o.version) == e && ShowsOutcome(Some(o)) == s
  }

  function RowShown(e: SuiteEntry, s: Shown): MetricRow -> bool { (r: MetricRow) => OutcomeShown(e, s)(r.outcome) }

  lemma {:induction false} SameHits<T>(s: seq<T>, p: T -> bool, q: T -> bool)
    requires forall x | x in s :: p(x) == q(x)
    ensures Hits(s, p) == Hits(s, q)
  {
    if s != [] {
      assert s[|s| - 1] in s;
      SameHits(s[..|s| - 1], p, q);
    }
  }

  /** Sum over the first n tasks. */
  function Total(count: nat -> nat, n: nat): nat { if n == 0 then 0 else Total(count, n - 1) + count(n - 1) }

  lemma {:induction false} TotalChanges(a: nat -> nat, b: nat -> nat, n: nat, t: nat, x: nat)
    requires forall u :: b(u) == a(u) + if u == t then x else 0
    ensures Total(b, n) == Total(a, n) + if t < n then x else 0
  {
    if n > 0 {
      TotalChanges(a, b, n - 1, t, x);
    }
  }

  lemma {:induction false} TotalNone(count: nat -> nat, n: nat)
    requires forall u :: count(u) == 0
    ensures Total(count, n) == 0
  {
    if n > 0 {
      TotalNone(count, n - 1);
    }
  }

  /** The outcomes of a task that satisfy p. */
  function OfTask(metrics: seq<MetricRow>, p: MetricOutcome -> bool): nat -> nat {
    (t: nat) => Hits(OutcomesAt(metrics, t), p)
  }

  lemma {:induction false} OneMoreOutcome(metrics: seq<MetricRow>, row: MetricRow, t: nat, p: MetricOutcome -> bool)
    ensures Hits(OutcomesAt(metrics + [row], t), p)
            == Hits(OutcomesAt(metrics, t), p) + if row.task == t && p(row.outcome) then 1 else 0
  {
    assert (metrics + [row])[..|metrics|] == metrics;
    if row.task == t {
      HitsAppend(OutcomesAt(metrics, t), row.outcome, p);
    } else {
      assert OutcomesAt(metrics, t) + [] == OutcomesAt(metrics, t);
    }
  }

  lemma {:induction false} HitsByTask(metrics: seq<MetricRow>, n: nat, p: MetricOutcome -> bool, q: MetricRow -> bool)
    requires forall i | 0 <= i < |metrics| :: metrics[i].task < n
    requires forall r :: q(r) == p(r.outcome)
    ensures Hits(metrics, q) == Total(OfTask(metrics, p), n)
  {
    if metrics == [] {
      TotalNone(OfTask(metrics, p), n);
    } else {
      var m := |metrics| - 1;
      var last := metrics[m];
      HitsByTask(metrics[..m], n, p, q);
      forall u
        ensures OfTask(metrics, p)(u)
                == OfTask(metrics[..m], p)(u) + if u == last.task then One(p(last.outcome)) else 0
      {
        OneMoreOutcome(metrics[..m], last, u, p);
        assert metrics[..m] + [last] == metrics;
      }
      TotalChanges(OfTask(metrics[..m], p), OfTask(metrics, p), n, last.task, One(p(last.outcome)));
    }
  }

  /** Under a suite that names each metric once an answered task has at most one outcome for it. */
  lemma {:induction false} OneOutcome(suite: seq<SuiteEntry>, outcomes: seq<MetricOutcome>, e: SuiteEntry, s: Shown)
    requires DistinctSuite(suite) && Conforms(suite, outcomes) && s != AsNothing
    ensures Hits(outcomes, OutcomeShown(e, s)) == One(ShowsOutcome(OutcomeOf(outcomes, e)) == s)
  {
    if outcomes != [] {
      var n := |outcomes| - 1;
      OneOutcome(suite[..n], outcomes[..n], e, s);
      if SuiteEntry(outcomes[n].identifier, outcomes[n].version) == e {
        assert suite[n] == e;
        NoOutcomeOf(suite[..n], outcomes[..n], e, s);
      }
    }
  }

  lemma {:induction false} NoOutcomeOf(suite: seq<SuiteEntry>, outcomes: seq<MetricOutcome>, e: SuiteEntry, s: Shown)
    requires Conforms(suite, outcomes) && forall i | 0 <= i < |suite| :: suite[i].identifier != e.identifier
    ensures Hits(outcomes, OutcomeShown(e, s)) == 0
  {
    if outcomes != [] {
      var n := |outcomes| - 1;
      assert SuiteEntry(outcomes[n].identifier, outcomes[n].version) == suite[n];
      NoOutcomeOf(suite[..n], outcomes[..n], e, s);
    }
  }

  /** Every answered task was evaluated under the suite. */
  ghost predicate AnswersConform(suite: seq<SuiteEntry>, rows: seq<Row>) {
    forall t | 0 <= t < |rows| && rows[t].Answered? :: Conforms(suite, rows[t].outcomes)
  }

  lemma MoveKeepsConforming(v: View, a: Action, next: View, suite: seq<SuiteEntry>)
    requires |v.keys| == |v.rows| == |v.attempts| && Moves(v, a, Ok(next)) && AnswersConform(suite, v.rows)
    requires a.Succeed? ==> Conforms(suite, a.outcomes)
    ensures AnswersConform(suite, next.rows)
  {
  }

  lemma {:induction false} RunsConform(specs: seq<TaskSpec>, limit: real, actions: seq<Action>, suite: seq<SuiteEntry>)
    requires Protocol(actions) && forall a | a in actions && a.Succeed? :: Conforms(suite, a.outcomes)
    ensures AnswersConform(suite, RowsOf(Replay(Created(specs, limit), actions)))
  {
    var db := Created(specs, limit);
    CreatedGood(specs, limit);
    if actions != [] {
      var n := |actions| - 1;
      RunsConform(specs, limit, actions[..n], suite);
      ReplayKeepsGood(db, actions[..n]);
      var before := Replay(db, actions[..n]);
      StepMoves(before, actions[n]);
      if Step(before, actions[n]).Ok? {
        MoveKeepsConforming(ViewOf(before), actions[n], ViewOf(Apply(before, actions[n])), suite);
      }
    }
  }

  function Unanswered(e: SuiteEntry, s: Shown): Row -> bool { (r: Row) => !r.Answered? && Shows(e, r) == s }

  /** A task counts once, for an outcome shown that way or for having none and standing that way. */
  ghost predicate CountsOnce(row: Row, metrics: seq<MetricRow>, t: nat, e: SuiteEntry, s: Shown) {
    One(ShownAs(e, s)(row)) == Hits(OutcomesAt(metrics, t), OutcomeShown(e, s)) + One(Unanswered(e, s)(row))
  }

  /** Tasks shown in one way: those with such an outcome, and those without any outcome. */
  lemma {:induction false} ShownByTask(rows: seq<Row>, metrics: seq<MetricRow>, e: SuiteEntry, s: Shown)
    requires forall t | 0 <= t < |rows| :: CountsOnce(rows[t], metrics, t, e, s)
    ensures Hits(rows, ShownAs(e, s))
            == Total(OfTask(metrics, OutcomeShown(e, s)), |rows|) + Hits(rows, Unanswered(e, s))
  {
    if rows != [] {
      var n := |rows| - 1;
      ShownByTask(rows[..n], metrics, e, s);
      assert CountsOnce(rows[n], metrics, n, e, s);
    }
  }

  lemma {:induction false} ShownRow(db: Db, suite: seq<SuiteEntry>, e: SuiteEntry, s: Shown, t: nat)
    requires t < |db.tasks| && DistinctSuite(suite) && s != AsNothing && AnswersConform(suite, RowsOf(db))
    requires MetricsOfAnswers(db)
    ensures CountsOnce(RowsOf(db)[t], db.metrics, t, e, s)
  {
    var row := RowsOf(db)[t];
    if row.Answered? {
      OneOutcome(suite, row.outcomes, e, s);
    } else {
      NoOutcomes(db.metrics, t);
    }
  }

  lemma ShownCount(db: Db, suite: seq<SuiteEntry>, e: SuiteEntry, s: Shown)
    requires Good(db) && DistinctSuite(suite) && AnswersConform(suite, RowsOf(db)) && s != AsNothing
    ensures Hits(RowsOf(db), ShownAs(e, s)) == Hits(db.metrics, RowShown(e, s)) + Hits(RowsOf(db), Unanswered(e, s))
  {
    forall t | 0 <= t < |db.tasks| ensures CountsOnce(RowsOf(db)[t], db.metrics, t, e, s) {
      ShownRow(db, suite, e, s, t);
    }
    ShownByTask(RowsOf(db), db.metrics, e, s);
    HitsByTask(db.metrics, |db.tasks|, OutcomeShown(e, s), RowShown(e, s));
  }

  lemma {:induction false} UnansweredCount(db: Db, e: SuiteEntry, n: nat)
    requires n <= |db.tasks|
    ensures Hits(RowsOf(db)[..n], Unanswered(e, AsMissing)) == Count(db.tasks[..n], TaskCancelled)
    ensures Hits(RowsOf(db)[..n], Unanswered(e, AsFailed)) == Count(db.tasks[..n], TaskFailed)
    ensures Hits(RowsOf(db)[..n], Unanswered(e, AsAvailable)) == 0
    ensures Hits(RowsOf(db)[..n], ShownAs(e, AsPending))
            == Count(db.tasks[..n], TaskPending) + Count(db.tasks[..n], TaskLeased) + Count(db.tasks[..n], TaskRunning)
  {
    if n > 0 {
      UnansweredCount(db, e, n - 1);
      assert RowsOf(db)[..n][..n - 1] == RowsOf(db)[..n - 1] && db.tasks[..n][..n - 1] == db.tasks[..n - 1];
      PendingShown(e, RowsOf(db)[n - 1]);
    }
  }

  lemma PendingShown(e: SuiteEntry, r: Row)
    ensures Shows(e, r) == AsPending <==> Open(r)
  {
  }

  /** Each reported count is the number of tasks that stand that way under the metric. */
  lemma {:induction false} CountsAreTasks(
    specs: seq<TaskSpec>, limit: real, actions: seq<Action>, suite: seq<SuiteEntry>, e: SuiteEntry)
    requires Protocol(actions) && DistinctSuite(suite)
    requires forall a | a in actions && a.Succeed? :: Conforms(suite, a.outcomes)
    ensures var db := Replay(Created(specs, limit), actions);
            var g, rows := AggregateMetric(db, e), RowsOf(db);
            && g.total == |rows|
            && g.available == Hits(rows, ShownAs(e, AsAvailable))
            && g.missing == Hits(rows, ShownAs(e, AsMissing))
            && g.failed == Hits(rows, ShownAs(e, AsFailed))
            && g.pending == Hits(rows, ShownAs(e, AsPending))
  {
    var db := Replay(Created(specs, limit), actions);
    CreatedGood(specs, limit);
    ReplayKeepsGood(Created(specs, limit), actions);
    RunsConform(specs, limit, actions, suite);
    ShownCounts(db, suite, e);
    CountTotal(db.tasks);
  }

  lemma StatusOfRow(e: SuiteEntry, r: MetricRow)
    ensures RowShown(e, AsAvailable)(r) == Available(e)(r)
    ensures RowShown(e, AsMissing)(r) == Missing(e)(r)
    ensures RowShown(e, AsFailed)(r) == MetricFailures(e)(r)
  {
    var o := r.outcome;
    assert Named(e)(r) <==> SuiteEntry(o.identifier, o.version) == e;
    forall s ensures RowShown(e, s)(r) <==> SuiteEntry(o.identifier, o.version) == e && ShowsOutcome(Some(o)) == s {
      assert RowShown(e, s)(r) == OutcomeShown(e, s)(o);
    }
    match o.status
    case MetricMissing =>
    case MetricFailed =>
    case MetricSucceeded =>
  }

  lemma {:induction false} ShownByStatus(metrics: seq<MetricRow>, e: SuiteEntry)
    ensures Hits(metrics, RowShown(e, AsAvailable)) == Hits(metrics, Available(e))
    ensures Hits(metrics, RowShown(e, AsMissing)) == Hits(metrics, Missing(e))
    ensures Hits(metrics, RowShown(e, AsFailed)) == Hits(metrics, MetricFailures(e))
  {
    forall r
      ensures RowShown(e, AsAvailable)(r) == Available(e)(r)
      ensures RowShown(e, AsMissing)(r) == Missing(e)(r)
      ensures RowShown(e, AsFailed)(r) == MetricFailures(e)(r)
    {
      StatusOfRow(e, r);
    }
    SameHits(metrics, RowShown(e, AsAvailable), Available(e));
    SameHits(metrics, RowShown(e, AsMissing), Missing(e));
    SameHits(metrics, RowShown(e, AsFailed), MetricFailures(e));
  }

  lemma ShownCounts(db: Db, suite: seq<SuiteEntry>, e: SuiteEntry)
    requires Good(db) && DistinctSuite(suite) && AnswersConform(suite, RowsOf(db))
    ensures var rows := RowsOf(db);
            && Hits(rows, ShownAs(e, AsAvailable)) == Hits(db.metrics, Available(e))
            && Hits(rows, ShownAs(e, AsMissing)) == Hits(db.metrics, Missing(e)) + Count(db.tasks, TaskCancelled)
            && Hits(rows, ShownAs(e, AsFailed)) == Hits(db.metrics, MetricFailures(e)) + Count(db.tasks, TaskFailed)
            && Hits(rows, ShownAs(e, AsPending))
               == Count(db.tasks, TaskPending) + Count(db.tasks, TaskLeased) + Count(db.tasks, TaskRunning)
  {
    ShownCount(db, suite, e, AsAvailable);
    ShownCount(db, suite, e, AsMissing);
    ShownCount(db, suite, e, AsFailed);
    ShownByStatus(db.metrics, e);
    UnansweredCount(db, e, |db.tasks|);
    assert RowsOf(db)[..|db.tasks|] == RowsOf(db) && db.tasks[..|db.tasks|] == db.tasks;
  }

  lemma {:induction false} ScalarsAreAvailable(metrics: seq<MetricRow>, e: SuiteEntry)
    ensures |Scalars(metrics, e)| == Hits(metrics, Available(e))
  {
    if metrics != [] {
      ScalarsAreAvailable(metrics[..|metrics| - 1], e);
    }
  }

  /** The reported value is the mean of the available scalars, and there is one exactly when some are. */
  lemma {:induction false} ValueIsMean(db: Db, e: SuiteEntry)
    ensures var g := AggregateMetric(db, e);
            && |Scalars(db.metrics, e)| == g.available
            && (g.value.Some? <==> g.available > 0)
            && (g.value.Some? ==> IsMean(g.value.value, Scalars(db.metrics, e)))
  {
    ScalarsAreAvailable(db.metrics, e);
    if Scalars(db.metrics, e) != [] {
      MeanTimesLength(Scalars(db.metrics, e));
    }
  }
}
