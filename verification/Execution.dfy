/** Run and task lifecycles: the transition table and the run aggregate. */
module Execution {
  import opened Results

  datatype RunState =
    | Draft
    | Validating
    | Queued
    | Running
    | Pausing
    | Paused
    | Cancelling
    | Cancelled
    | Completed
    | CompletedWithErrors
    | Failed

  datatype TaskState = TaskPending | TaskLeased | TaskRunning | TaskSucceeded | TaskFailed | TaskCancelled

  datatype FailureCategory = ProviderFailure | BudgetExceeded

  datatype RunError = NotFound | InvalidStateTransition | Conflict | IntegrityViolation | ValidationError

  /** ALLOWED_RUN_TRANSITIONS */
  function Allowed(source: RunState): set<RunState> {
    match source
    case Draft => {Validating}
    case Validating => {Draft, Queued}
    case Queued => {Running, Cancelling, Failed}
    case Running => {Pausing, Cancelling, Completed, CompletedWithErrors, Failed}
    case Pausing => {Paused, Cancelling}
    case Paused => {Queued, Cancelling}
    case Cancelling => {RunState.Cancelled}
    case Cancelled => {}
    case Completed => {}
    case CompletedWithErrors => {}
    case Failed => {}
  }

  /** TERMINAL_RUN_STATES */
  const TERMINAL_RUN_STATES: set<RunState> := {RunState.Cancelled, Completed, CompletedWithErrors, RunState.Failed}

  predicate Settled(s: TaskState) {
    s in {TaskSucceeded, TaskFailed, TaskCancelled}
  }

  /** The run aggregate that `create_run` builds before anything is stored. */
  class EvaluationRun {
    var state: RunState
    var versionStamp: int
    const totalTasks: nat

    constructor (totalTasks: nat)
      ensures state == Draft && versionStamp == 1 && this.totalTasks == totalTasks
    {
      state := Draft;
      versionStamp := 1;
      this.totalTasks := totalTasks;
    }

    method Transition(target: RunState) returns (r: Result<(), RunError>)
      modifies this
      ensures r.Ok? <==> target in Allowed(old(state))
      ensures r.Ok? ==> state == target && versionStamp == old(versionStamp) + 1
      ensures r.Err? ==> r.error == InvalidStateTransition && state == old(state) && versionStamp == old(versionStamp)
    {
      if target !in Allowed(state) {
        return Err(InvalidStateTransition);
      }
      state := target;
      versionStamp := versionStamp + 1;
      r := Ok(());
    }
  }

  /** A sequence of states each reached from the one before by the table. */
  ghost predicate Path(states: seq<RunState>) {
    forall i | 0 < i < |states| :: states[i] in Allowed(states[i - 1])
  }

  /** Terminal states are exactly those with no way out. */
  lemma TerminalHasNoExit(s: RunState)
    ensures s in TERMINAL_RUN_STATES <==> forall t: RunState :: t !in Allowed(s)
  {
    match s
    case Draft => assert Validating in Allowed(s);
    case Validating => assert Queued in Allowed(s);
    case Queued => assert Running in Allowed(s);
    case Running => assert Pausing in Allowed(s);
    case Pausing => assert Paused in Allowed(s);
    case Paused => assert Queued in Allowed(s);
    case Cancelling => assert RunState.Cancelled in Allowed(s);
    case Cancelled =>
    case Completed =>
    case CompletedWithErrors =>
    case Failed =>
  }

  /** Cancelling is a one-way door: from there only Cancelled can follow. */
  lemma {:induction false} CancellingOnlyCancels(states: seq<RunState>, k: nat)
    requires Path(states) && k < |states| && states[0] == Cancelling
    ensures k == 0 || (k == 1 && states[k] == RunState.Cancelled)
  {
    if k > 0 {
      CancellingOnlyCancels(states, k - 1);
      assert states[k] in Allowed(states[k - 1]);
    }
  }

  /** The table read backwards: the states from which each state can be reached in one step. */
  lemma ReachedFromExactly(source: RunState, target: RunState)
    ensures target in Allowed(source) <==>
            match target
            case Draft => source == Validating
            case Validating => source == Draft
            case Queued => source in {Validating, Paused}
            case Running => source == Queued
            case Pausing => source == Running
            case Paused => source == Pausing
            case Cancelling => source in {Queued, Running, Pausing, Paused}
            case Cancelled => source == Cancelling
            case Completed => source == Running
            case CompletedWithErrors => source == Running
            case Failed => source in {Queued, Running}
  {
  }
}
