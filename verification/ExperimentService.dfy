/** `create_run`: one task per record and repetition, and a queued run. */
module ExperimentService {
  import opened Results
  import opened Ordering
  import opened Execution
  import opened RunLedger
  import opened RunRepository

  function Repetitions(key: string, n: nat): seq<TaskSpec> {
    seq(n, r requires 0 <= r < n => TaskSpec(key, r))
  }

  function RepeatedBy(n: nat): string -> seq<TaskSpec> { (key: string) => Repetitions(key, n) }

  /** Every record key with every repetition, records outermost. */
  function TaskSpecs(keys: seq<string>, n: nat): seq<TaskSpec> { FlatMap(keys, RepeatedBy(n)) }

  /** Distinct record keys give distinct natural task keys, one per record and repetition. */
  lemma NaturalKeysAreUnique(keys: seq<string>, n: nat)
    requires Distinct(keys)
    ensures Distinct(TaskSpecs(keys, n))
    ensures |TaskSpecs(keys, n)| == |keys| * n
    ensures forall key, r: nat :: TaskSpec(key, r) in TaskSpecs(keys, n) <==> key in keys && r < n
  {
    FlatMapDistinct(keys, RepeatedBy(n));
    FlatMapLength(keys, RepeatedBy(n), n);
    forall key, r: nat ensures TaskSpec(key, r) in TaskSpecs(keys, n) <==> key in keys && r < n {
      if TaskSpec(key, r) in TaskSpecs(keys, n) {
        var source := FlatMapSource(keys, RepeatedBy(n), TaskSpec(key, r));
      }
      if key in keys && r < n {
        assert Repetitions(key, n)[r] == TaskSpec(key, r);
        FlatMapTarget(keys, RepeatedBy(n), key, TaskSpec(key, r));
      }
    }
  }

  method CreateRun(recordKeys: seq<string>, repetitions: int, budgetLimit: real)
    returns (r: Result<SqlExperimentRepository, RunError>)
    ensures r.Ok? <==> 1 <= repetitions <= 100
    ensures r.Ok? ==> fresh(r.value) && r.value.Snapshot() == Created(TaskSpecs(recordKeys, repetitions), budgetLimit)
    ensures r.Err? ==> r.error == ValidationError
  {
    if !(1 <= repetitions <= 100) {
      return Err(ValidationError);
    }
    var tasks: seq<TaskSpec> := [];
    for i := 0 to |recordKeys|
      invariant tasks == TaskSpecs(recordKeys[..i], repetitions)
    {
      for repetition := 0 to repetitions
        invariant tasks
                  == TaskSpecs(recordKeys[..i], repetitions) + Repetitions(recordKeys[i], repetitions)[..repetition]
      {
        tasks := tasks + [TaskSpec(recordKeys[i], repetition)];
      }
      FlatMapAppend(recordKeys[..i], recordKeys[i], RepeatedBy(repetitions));
      assert recordKeys[..i + 1] == recordKeys[..i] + [recordKeys[i]];
    }
    assert recordKeys[..|recordKeys|] == recordKeys;
    var run := new EvaluationRun(|tasks|);
    var _ := run.Transition(Validating);
    var _ := run.Transition(Queued);
    var repository := new SqlExperimentRepository.AddRun(run.state, run.versionStamp, tasks, budgetLimit);
    r := Ok(repository);
  }
}
