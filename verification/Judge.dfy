/**
 Repeated model judgments with bounded retries and repairs. The provider is an
 arbitrary function from repetition, attempt number and "is this a repair" to
 an outcome.
 */
module Judge {
  import opened Averages
  import opened Counting
  import opened Ordering
  import opened PairDesign
  import opened Results

  datatype Usage = Usage(
    inputTokens: nat,
    outputTokens: nat,
    actualCost: Option<real>,
    currency: string,
    estimated: bool)

  datatype JudgeResponse = JudgeResponse(verdict: Verdict, scores: map<string, real>, confidence: real)

  /** A provider call: a provider error; no answer in time; or an answer, which parses or does not. */
  datatype Outcome =
    | ProviderFailed(retryable: bool)
    | NoAnswer
    | Received(usage: Usage, parsed: Option<JudgeResponse>)

  datatype AggregationStrategy = MajorityRule | MeanScores | MedianScores

  datatype Configuration = Configuration(
    repetitions: nat,
    maxAttempts: nat,
    maxRepairs: nat,
    costLimit: real,
    aggregation: AggregationStrategy)
  {
    predicate Valid() { repetitions >= 1 && maxAttempts >= 1 && costLimit >= 0.0 }
  }

  datatype JudgeAttempt = JudgeAttempt(repetition: nat, attempt: nat, usage: Usage, response: JudgeResponse)

  datatype JudgeError =
    | ProviderFailure
    | RetriesExhausted
    | CostLimitExceeded
    | NoResponse
    | InconsistentCurrencies
    | WrongNumberOfAttempts
    | AttemptCurrencies
    | InconsistentDimensions

  /** What has been received so far, accepted or not. */
  datatype Totals = Totals(
    cost: real,
    inputTokens: nat,
    outputTokens: nat,
    currencies: set<string>,
    estimated: bool,
    reported: bool)

  const NOTHING := Totals(0.0, 0, 0, {}, false, false)

  function CostOf(u: Usage): real { if u.actualCost.Some? then u.actualCost.value else 0.0 }

  function Add(t: Totals, u: Usage): Totals {
    Totals(t.cost + CostOf(u), t.inputTokens + u.inputTokens, t.outputTokens + u.outputTokens,
           t.currencies + {u.currency}, t.estimated || u.estimated, t.reported || u.actualCost.Some?)
  }

  type Provider = (nat, nat, bool) -> Outcome

  /** One call of a repetition, as the log keeps it. */
  datatype Call = Call(attempt: nat, outcome: Outcome)

  // ---------- one repetition ----------

  /** How a repetition ends: with an accepted response or an error, and after which calls. */
  datatype Ending = Ending(accepted: Result<JudgeAttempt, JudgeError>, totals: Totals, log: seq<Call>)

  function After(call: Call, e: Ending): Ending { e.(log := [call] + e.log) }

  /** The retry and repair loop from a given attempt on. */
  function Repetition(p: Provider, c: Configuration, repetition: nat, attempt: nat, repairs: nat,
                      totals: Totals): Ending
    decreases c.maxAttempts + 1 - attempt
  {
    if attempt > c.maxAttempts then Ending(Err(NoResponse), totals, [])
    else
      var outcome := p(repetition, attempt, repairs > 0);
      var call := Call(attempt, outcome);
      match outcome
      case ProviderFailed(retryable) =>
        if !retryable || attempt >= c.maxAttempts then Ending(Err(ProviderFailure), totals, [call])
        else After(call, Repetition(p, c, repetition, attempt + 1, repairs, totals))
      case NoAnswer =>
        if repairs >= c.maxRepairs || attempt >= c.maxAttempts then Ending(Err(RetriesExhausted), totals, [call])
        else After(call, Repetition(p, c, repetition, attempt + 1, repairs + 1, totals))
      case Received(usage, parsed) =>
        var spent := Add(totals, usage);
        if spent.cost > c.costLimit then Ending(Err(CostLimitExceeded), spent, [call])
        else if parsed.Some? then Ending(Ok(JudgeAttempt(repetition, attempt, usage, parsed.value)), spent, [call])
        else if repairs >= c.maxRepairs || attempt >= c.maxAttempts then Ending(Err(RetriesExhausted), spent, [call])
        else After(call, Repetition(p, c, repetition, attempt + 1, repairs + 1, spent))
  }

  predicate Accepted(o: Outcome) { o.Received? && o.parsed.Some? }

  /** A rejected or missing answer, which costs one repair. */
  predicate NeedsRepair(o: Outcome) { o.NoAnswer? || (o.Received? && o.parsed.None?) }

  function Repairs(log: seq<Call>): nat {
    if log == [] then 0 else (if NeedsRepair(log[0].outcome) then 1 else 0) + Repairs(log[1..])
  }

  /** Every received answer counts, whether it was accepted or not. */
  function AddLog(t: Totals, log: seq<Call>): Totals
    decreases |log|
  {
    if log == [] then t
    else AddLog(if log[0].outcome.Received? then Add(t, log[0].outcome.usage) else t, log[1..])
  }

  /** The sum of f over the answers received, rejected ones included. */
  function ReceivedSum(log: seq<Call>, f: Usage -> int): int {
    if log == [] then 0
    else (if log[0].outcome.Received? then f(log[0].outcome.usage) else 0) + ReceivedSum(log[1..], f)
  }

  function ReceivedCost(log: seq<Call>): real {
    if log == [] then 0.0
    else (if log[0].outcome.Received? then CostOf(log[0].outcome.usage) else 0.0) + ReceivedCost(log[1..])
  }

  function InputOf(): Usage -> int { (u: Usage) => u.inputTokens }
  function OutputOf(): Usage -> int { (u: Usage) => u.outputTokens }

  /** What the totals mean: sums of tokens and costs, the currencies seen, and whether any answer was
      estimated or priced. */
  lemma {:induction false} TotalsAreSums(t: Totals, log: seq<Call>)
    ensures var r := AddLog(t, log);
      && r.inputTokens == t.inputTokens + ReceivedSum(log, InputOf())
      && r.outputTokens == t.outputTokens + ReceivedSum(log, OutputOf())
      && r.cost == t.cost + ReceivedCost(log)
      && r.currencies
         == t.currencies + (set call | call in log && call.outcome.Received? :: call.outcome.usage.currency)
      && (r.estimated <==> t.estimated || exists call ::
            call in log && call.outcome.Received? && call.outcome.usage.estimated)
      && (r.reported <==> t.reported || exists call ::
            call in log && call.outcome.Received? && call.outcome.usage.actualCost.Some?)
    decreases |log|
  {
    if log != [] {
      TotalsAreSums(if log[0].outcome.Received? then Add(t, log[0].outcome.usage) else t, log[1..]);
      assert forall call :: call in log <==> call == log[0] || call in log[1..];
    }
  }

  /** Consecutive attempts, each asked as a repair exactly when an earlier answer was rejected or
      missing, and none accepted before the last. */
  ghost predicate Faithful(p: Provider, repetition: nat, first: nat, repairs: nat, log: seq<Call>) {
    forall k | 0 <= k < |log| ::
      && log[k] == Call(first + k, p(repetition, first + k, repairs + Repairs(log[..k]) > 0))
      && (k < |log| - 1 ==> !Accepted(log[k].outcome))
  }

  lemma FaithfulAfter(p: Provider, repetition: nat, first: nat, repairs: nat, call: Call, rest: seq<Call>)
    requires call == Call(first, p(repetition, first, repairs > 0)) && !Accepted(call.outcome)
    requires Faithful(p, repetition, first + 1, repairs + (if NeedsRepair(call.outcome) then 1 else 0), rest)
    ensures Faithful(p, repetition, first, repairs, [call] + rest)
  {
    var log := [call] + rest;
    forall k | 0 <= k < |log|
      ensures log[k] == Call(first + k, p(repetition, first + k, repairs + Repairs(log[..k]) > 0))
    {
      if k > 0 {
        assert log[..k][1..] == rest[..k - 1];
        assert log[k] == rest[k - 1];
      }
    }
  }

  /** No call may follow this one: it was accepted, cannot be retried or repaired, passed the cost
      limit, or was the last one allowed. `used` repairs came before it, `cost` includes it. */
  ghost predicate Final(c: Configuration, attempt: nat, used: nat, cost: real, outcome: Outcome) {
    match outcome
    case ProviderFailed(retryable) => !retryable || attempt >= c.maxAttempts
    case NoAnswer => used >= c.maxRepairs || attempt >= c.maxAttempts
    case Received(_, parsed) =>
      cost > c.costLimit || parsed.Some? || used >= c.maxRepairs || attempt >= c.maxAttempts
  }

  ghost predicate FinalAt(c: Configuration, first: nat, repairs: nat, totals: Totals, log: seq<Call>, k: nat)
    requires k < |log|
  {
    Final(c, first + k, repairs + Repairs(log[..k]), AddLog(totals, log[..k + 1]).cost, log[k].outcome)
  }

  lemma FinalAfter(c: Configuration, first: nat, repairs: nat, totals: Totals, call: Call, rest: seq<Call>, k: nat)
    requires k < |rest|
    ensures var t := if call.outcome.Received? then Add(totals, call.outcome.usage) else totals;
            var used := repairs + if NeedsRepair(call.outcome) then 1 else 0;
      FinalAt(c, first, repairs, totals, [call] + rest, k + 1) <==> FinalAt(c, first + 1, used, t, rest, k)
  {
    var log := [call] + rest;
    assert log[..k + 1][1..] == rest[..k] && log[..k + 2][1..] == rest[..k + 1];
  }

  /** Why a repetition ended, by its last call: a provider failure that was not retryable or came on
      the last attempt; a rejected or missing answer within the cost limit with no attempt or no repair
      left; or an answer past the cost limit. */
  ghost predicate EndsBecause(c: Configuration, repairs: nat, e: Ending)
    requires e.log != []
  {
    var n := |e.log| - 1;
    var last := e.log[n];
    && (e.accepted == Err(ProviderFailure) <==>
        last.outcome.ProviderFailed? && (!last.outcome.retryable || last.attempt == c.maxAttempts))
    && (e.accepted == Err(RetriesExhausted) <==>
        && NeedsRepair(last.outcome) && (last.outcome.Received? ==> e.totals.cost <= c.costLimit)
        && (last.attempt == c.maxAttempts || repairs + Repairs(e.log[..n]) >= c.maxRepairs))
    && (e.accepted == Err(CostLimitExceeded) <==> last.outcome.Received? && e.totals.cost > c.costLimit)
  }

  /** Bounds of one repetition: at most the remaining attempts, at most the remaining repairs; it
      ends with an accepted answer or with a real error, never without either, and exactly when no
      further call is allowed; all received answers are in the totals, and an accepted one is within
      the cost limit. */
  ghost predicate Bounded(p: Provider, c: Configuration, repetition: nat, attempt: nat, repairs: nat,
                          totals: Totals, e: Ending) {
    && 1 <= |e.log| <= c.maxAttempts + 1 - attempt
    && Faithful(p, repetition, attempt, repairs, e.log)
    && e.totals == AddLog(totals, e.log)
    && (e.accepted.Ok? <==> Accepted(e.log[|e.log| - 1].outcome) && e.totals.cost <= c.costLimit)
    && (e.accepted.Ok? ==>
          && repairs + Repairs(e.log) <= c.maxRepairs
          && e.accepted.value == JudgeAttempt(repetition, attempt + |e.log| - 1,
                                              e.log[|e.log| - 1].outcome.usage,
                                              e.log[|e.log| - 1].outcome.parsed.value))
    && (e.accepted.Err? ==> e.accepted.error in {ProviderFailure, RetriesExhausted, CostLimitExceeded})
    && EndsBecause(c, repairs, e)
    && (forall k | 0 <= k < |e.log| :: FinalAt(c, attempt, repairs, totals, e.log, k) <==> k == |e.log| - 1)
  }

  lemma BoundedAfter(p: Provider, c: Configuration, repetition: nat, attempt: nat, repairs: nat, totals: Totals,
                     call: Call, e: Ending)
    requires call == Call(attempt, p(repetition, attempt, repairs > 0)) && !Accepted(call.outcome)
    requires var t := if call.outcome.Received? then Add(totals, call.outcome.usage) else totals;
             !Final(c, attempt, repairs, t.cost, call.outcome) &&
             Bounded(p, c, repetition, attempt + 1, repairs + (if NeedsRepair(call.outcome) then 1 else 0), t, e)
    ensures Bounded(p, c, repetition, attempt, repairs, totals, After(call, e))
  {
    var spent := if call.outcome.Received? then Add(totals, call.outcome.usage) else totals;
    var used := repairs + if NeedsRepair(call.outcome) then 1 else 0;
    FaithfulAfter(p, repetition, attempt, repairs, call, e.log);
    LastCallAfter(c, repairs, call, e);
    CountsAfter(totals, call, e.log);
    OnlyLastFinal(c, attempt, repairs, totals, call, e.log, attempt + 1, used, spent);
  }

  lemma CountsAfter(totals: Totals, call: Call, log: seq<Call>)
    ensures Repairs([call] + log) == (if NeedsRepair(call.outcome) then 1 else 0) + Repairs(log)
    ensures AddLog(totals, [call] + log)
            == AddLog(if call.outcome.Received? then Add(totals, call.outcome.usage) else totals, log)
  {
    assert ([call] + log)[1..] == log;
  }

  lemma LastCallAfter(c: Configuration, repairs: nat, call: Call, e: Ending)
    requires e.log != [] && EndsBecause(c, repairs + (if NeedsRepair(call.outcome) then 1 else 0), e)
    ensures EndsBecause(c, repairs, After(call, e)) && After(call, e).log[|e.log|] == e.log[|e.log| - 1]
  {
    var log, n := [call] + e.log, |e.log|;
    assert log[..n][1..] == e.log[..n - 1] && log[n] == e.log[n - 1];
  }

  lemma OnlyLastFinal(c: Configuration, first: nat, repairs: nat, totals: Totals, call: Call, rest: seq<Call>,
                      next: nat, used: nat, spent: Totals)
    requires rest != [] && next == first + 1 && used == repairs + (if NeedsRepair(call.outcome) then 1 else 0)
    requires spent == if call.outcome.Received? then Add(totals, call.outcome.usage) else totals
    requires !Final(c, first, repairs, spent.cost, call.outcome)
    requires forall k | 0 <= k < |rest| :: FinalAt(c, next, used, spent, rest, k) <==> k == |rest| - 1
    ensures var log := [call] + rest;
      forall k | 0 <= k < |log| :: FinalAt(c, first, repairs, totals, log, k) <==> k == |log| - 1
  {
    var log := [call] + rest;
    forall k | 0 <= k < |log| ensures FinalAt(c, first, repairs, totals, log, k) <==> k == |rest| {
      if k == 0 {
        FirstFinal(c, first, repairs, totals, log);
      } else {
        FinalAfter(c, first, repairs, totals, call, rest, k - 1);
      }
    }
  }

  lemma FirstFinal(c: Configuration, attempt: nat, repairs: nat, totals: Totals, log: seq<Call>)
    requires log != []
    ensures var t := if log[0].outcome.Received? then Add(totals, log[0].outcome.usage) else totals;
      FinalAt(c, attempt, repairs, totals, log, 0) <==> Final(c, attempt, repairs, t.cost, log[0].outcome)
  {
    assert log[..0] == [] && log[..1] == [log[0]] && [log[0]][1..] == [];
    assert Repairs(log[..0]) == 0;
    assert AddLog(totals, log[..1])
           == AddLog(if log[0].outcome.Received? then Add(totals, log[0].outcome.usage) else totals, []);
  }

  lemma {:induction false} RepetitionIsBounded(p: Provider, c: Configuration, repetition: nat, attempt: nat,
                                               repairs: nat, totals: Totals)
    requires c.Valid() && 1 <= attempt <= c.maxAttempts && repairs <= c.maxRepairs
    ensures Bounded(p, c, repetition, attempt, repairs, totals, Repetition(p, c, repetition, attempt, repairs, totals))
    decreases c.maxAttempts + 1 - attempt
  {
    var outcome := p(repetition, attempt, repairs > 0);
    var call := Call(attempt, outcome);
    var spent := if outcome.Received? then Add(totals, outcome.usage) else totals;
    var used := repairs + if NeedsRepair(outcome) then 1 else 0;
    var over := outcome.Received? && spent.cost > c.costLimit;
    if Accepted(outcome) || over || attempt >= c.maxAttempts || (outcome.ProviderFailed? && !outcome.retryable)
       || used > c.maxRepairs {
      OneCall(p, c, repetition, attempt, repairs, totals);
    } else {
      RepetitionIsBounded(p, c, repetition, attempt + 1, used, spent);
      BoundedAfter(p, c, repetition, attempt, repairs, totals, call,
                   Repetition(p, c, repetition, attempt + 1, used, spent));
    }
  }

  lemma {:induction false} OneCall(p: Provider, c: Configuration, repetition: nat, attempt: nat, repairs: nat,
                                   totals: Totals)
    requires c.Valid() && 1 <= attempt <= c.maxAttempts && repairs <= c.maxRepairs
    requires var e := Repetition(p, c, repetition, attempt, repairs, totals);
             e.log == [Call(attempt, p(repetition, attempt, repairs > 0))]
    ensures Bounded(p, c, repetition, attempt, repairs, totals, Repetition(p, c, repetition, attempt, repairs, totals))
  {
    var call := Call(attempt, p(repetition, attempt, repairs > 0));
    assert [call][1..] == [] && [call][..0] == [];
    assert Repairs([call]) == (if NeedsRepair(call.outcome) then 1 else 0) + Repairs([call][1..]);
    assert AddLog(totals, [call]) ==
           AddLog(if call.outcome.Received? then Add(totals, call.outcome.usage) else totals, [call][1..]);
    FirstFinal(c, attempt, repairs, totals, [call]);
  }

  // ---------- all repetitions ----------

  /** The loop over repetitions: the accepted attempts, the totals, one log per repetition, and
      the error that stopped it, if any. */
  datatype Progress = Progress(
    attempts: seq<JudgeAttempt>,
    totals: Totals,
    logs: seq<seq<Call>>,
    stopped: Option<JudgeError>)

  function Run(p: Provider, c: Configuration, n: nat): Progress {
    if n == 0 then Progress([], NOTHING, [], None)
    else
      var done := Run(p, c, n - 1);
      if done.stopped.Some? then done
      else
        var e := Repetition(p, c, n - 1, 1, 0, done.totals);
        match e.accepted
        case Ok(attempt) => Progress(done.attempts + [attempt], e.totals, done.logs + [e.log], None)
        case Err(error) => Progress(done.attempts, e.totals, done.logs + [e.log], Some(error))
  }

  function Flatten(logs: seq<seq<Call>>): seq<Call> {
    if logs == [] then [] else Flatten(logs[..|logs| - 1]) + logs[|logs| - 1]
  }

  lemma {:induction false} AddLogConcat(t: Totals, a: seq<Call>, b: seq<Call>)
    ensures AddLog(t, a + b) == AddLog(AddLog(t, a), b)
    decreases |a|
  {
    if a == [] {
      assert a + b == b;
    } else {
      assert (a + b)[1..] == a[1..] + b;
      AddLogConcat(if a[0].outcome.Received? then Add(t, a[0].outcome.usage) else t, a[1..], b);
    }
  }

  /** The log of a repetition that ended with the given attempt. */
  ghost predicate Justified(p: Provider, c: Configuration, repetition: nat, log: seq<Call>, attempt: JudgeAttempt) {
    && 1 <= |log| <= c.maxAttempts
    && Faithful(p, repetition, 1, 0, log)
    && Repairs(log) <= c.maxRepairs
    && log[|log| - 1].outcome.Received?
    && log[|log| - 1].outcome.parsed == Some(attempt.response)
    && attempt == JudgeAttempt(repetition, |log|, log[|log| - 1].outcome.usage, attempt.response)
  }

  lemma {:induction false} LastRepetition(p: Provider, c: Configuration, repetition: nat, totals: Totals)
    requires c.Valid()
    ensures var e := Repetition(p, c, repetition, 1, 0, totals);
      && e.totals == AddLog(totals, e.log)
      && (e.accepted.Ok? ==> e.totals.cost <= c.costLimit && Justified(p, c, repetition, e.log, e.accepted.value))
      && (e.accepted.Err? ==> e.accepted.error in {ProviderFailure, RetriesExhausted, CostLimitExceeded})
  {
    RepetitionIsBounded(p, c, repetition, 1, 0, totals);
  }

  lemma {:induction false} OneMoreLog(logs: seq<seq<Call>>, log: seq<Call>)
    ensures AddLog(NOTHING, Flatten(logs + [log])) == AddLog(AddLog(NOTHING, Flatten(logs)), log)
  {
    AddLogConcat(NOTHING, Flatten(logs), log);
    assert (logs + [log])[..|logs|] == logs;
  }

  /** One accepted attempt per repetition, in order, each justified by its log. */
  ghost predicate AllJustified(p: Provider, c: Configuration, logs: seq<seq<Call>>, attempts: seq<JudgeAttempt>) {
    |attempts| == |logs| && forall i | 0 <= i < |logs| :: Justified(p, c, i, logs[i], attempts[i])
  }

  lemma ExtendJustified(p: Provider, c: Configuration, logs: seq<seq<Call>>, attempts: seq<JudgeAttempt>,
                        log: seq<Call>, attempt: JudgeAttempt)
    requires AllJustified(p, c, logs, attempts) && Justified(p, c, |logs|, log, attempt)
    ensures AllJustified(p, c, logs + [log], attempts + [attempt])
  {
    var l, a := logs + [log], attempts + [attempt];
    forall i | 0 <= i < |l| ensures Justified(p, c, i, l[i], a[i]) {
      if i < |logs| {
        assert Justified(p, c, i, logs[i], attempts[i]);
      }
    }
  }

  /** After n repetitions without an error there are n justified attempts within the cost limit;
      the totals count every received answer of every log. */
  ghost predicate JustifiedRun(p: Provider, c: Configuration, n: nat, r: Progress) {
    && r.totals == AddLog(NOTHING, Flatten(r.logs))
    && (r.stopped.None? ==> |r.logs| == n && r.totals.cost <= c.costLimit && AllJustified(p, c, r.logs, r.attempts))
    && (r.stopped.Some? ==> r.stopped.value in {ProviderFailure, RetriesExhausted, CostLimitExceeded})
  }

  lemma {:induction false} RunIsJustified(p: Provider, c: Configuration, n: nat)
    requires c.Valid()
    ensures JustifiedRun(p, c, n, Run(p, c, n))
  {
    if n > 0 {
      RunIsJustified(p, c, n - 1);
      var done := Run(p, c, n - 1);
      if done.stopped.None? {
        RunStep(p, c, n, done);
      }
    }
  }

  lemma RunStep(p: Provider, c: Configuration, n: nat, done: Progress)
    requires c.Valid() && n > 0 && done == Run(p, c, n - 1) && done.stopped.None?
    requires done.totals == AddLog(NOTHING, Flatten(done.logs)) && |done.logs| == n - 1
    requires AllJustified(p, c, done.logs, done.attempts)
    ensures JustifiedRun(p, c, n, Run(p, c, n))
  {
    var e := Repetition(p, c, n - 1, 1, 0, done.totals);
    LastRepetition(p, c, n - 1, done.totals);
    OneMoreLog(done.logs, e.log);
    if e.accepted.Ok? {
      ExtendJustified(p, c, done.logs, done.attempts, e.log, e.accepted.value);
    }
  }

  // ---------- aggregation ----------

  function Votes(attempts: seq<JudgeAttempt>, v: Verdict): nat {
    Hits(attempts, (a: JudgeAttempt) => a.response.verdict == v)
  }

  function Max(x: nat, y: nat): nat { if x >= y then x else y }

  /** The most votes any usable verdict got. */
  function Top(attempts: seq<JudgeAttempt>): nat {
    Max(Votes(attempts, A), Max(Votes(attempts, B), Votes(attempts, Tie)))
  }

  function Usable(attempts: seq<JudgeAttempt>): nat { |attempts| - Min(|attempts|, Votes(attempts, Abstain)) }

  function Min(x: nat, y: nat): nat { if x <= y then x else y }

  function Leaders(attempts: seq<JudgeAttempt>): seq<Verdict> {
    (if Votes(attempts, A) == Top(attempts) then [A] else []) +
    (if Votes(attempts, B) == Top(attempts) then [B] else []) +
    (if Votes(attempts, Tie) == Top(attempts) then [Tie] else [])
  }

  datatype Aggregate = Aggregate(
    verdict: Verdict,
    scores: map<string, real>,
    confidence: real,
    disagreement: real,
    abstentions: nat)

  /** The responses that do not abstain. */
  function UsableResponses(attempts: seq<JudgeAttempt>): seq<JudgeResponse> {
    if attempts == [] then []
    else
      var last := attempts[|attempts| - 1].response;
      UsableResponses(attempts[..|attempts| - 1]) + if last.verdict != Abstain then [last] else []
  }

  function ScoresOf(responses: seq<JudgeResponse>, dimension: string): seq<real> {
    if responses == [] then []
    else
      var last := responses[|responses| - 1];
      ScoresOf(responses[..|responses| - 1], dimension)
        + if dimension in last.scores then [last.scores[dimension]] else []
  }

  function ConfidenceOf(): JudgeResponse -> real { (r: JudgeResponse) => r.confidence }

  /** `rubric_dimensions`, once they are known to agree. */
  function Dimensions(attempts: seq<JudgeAttempt>): set<string> {
    if attempts == [] then {} else attempts[0].response.scores.Keys
  }

  function Averaged(strategy: AggregationStrategy, values: seq<real>): real
    requires values != []
  {
    if strategy.MeanScores? then Mean(values) else Median(values)
  }

  /** `aggregate_judge_responses` */
  function AggregateResponses(c: Configuration, attempts: seq<JudgeAttempt>): Result<Aggregate, JudgeError> {
    if |attempts| != c.repetitions then Err(WrongNumberOfAttempts)
    else if |set a | a in attempts :: a.response.scores.Keys| != 1 then Err(InconsistentDimensions)
    else if |set a | a in attempts :: a.usage.currency| != 1 then Err(AttemptCurrencies)
    else
      var usable, responses := Usable(attempts), UsableResponses(attempts);
      var verdict := if usable == 0 then Abstain else if |Leaders(attempts)| == 1 then Leaders(attempts)[0] else Tie;
      var disagreement := if usable == 0 then 1.0 else 1.0 - Top(attempts) as real / usable as real;
      var confidence := if responses == [] then 0.0 else Mean(Map(ConfidenceOf(), responses));
      Ok(Aggregate(verdict, Scores(c, attempts), confidence, disagreement, |attempts| - usable))
  }

  /** The loop over the rubric's dimensions. */
  function Scores(c: Configuration, attempts: seq<JudgeAttempt>): map<string, real> {
    var responses := UsableResponses(attempts);
    map dimension | dimension in Dimensions(attempts) && ScoresOf(responses, dimension) != [] ::
      Averaged(c.aggregation, ScoresOf(responses, dimension))
  }

  lemma {:induction false} VotesPartition(attempts: seq<JudgeAttempt>)
    ensures Votes(attempts, A) + Votes(attempts, B) + Votes(attempts, Tie) + Votes(attempts, Abstain) == |attempts|
    ensures Usable(attempts) == Votes(attempts, A) + Votes(attempts, B) + Votes(attempts, Tie)
  {
    if attempts != [] {
      VotesPartition(attempts[..|attempts| - 1]);
    }
  }

  /** Abstentions never decide: A or B wins exactly when it has more votes than each other usable
      verdict; everything else that is usable is a tie; disagreement is the share of usable votes
      outside the top verdict. */
  lemma AggregateIsPlurality(c: Configuration, attempts: seq<JudgeAttempt>)
    requires AggregateResponses(c, attempts).Ok?
    ensures var r := AggregateResponses(c, attempts).value;
      && r.abstentions == Votes(attempts, Abstain)
      && (r.verdict == Abstain <==> Votes(attempts, Abstain) == |attempts|)
      && (r.verdict == A <==> Votes(attempts, A) > Votes(attempts, B) && Votes(attempts, A) > Votes(attempts, Tie))
      && (r.verdict == B <==> Votes(attempts, B) > Votes(attempts, A) && Votes(attempts, B) > Votes(attempts, Tie))
      && 0.0 <= r.disagreement <= 1.0
      && (r.disagreement == 0.0 <==> Usable(attempts) > 0 && Top(attempts) == Usable(attempts))
      && (Usable(attempts) == 0 ==> r.disagreement == 1.0)
      && (Usable(attempts) > 0 ==> r.disagreement == 1.0 - Top(attempts) as real / Usable(attempts) as real)
  {
    VotesPartition(attempts);
    if Usable(attempts) > 0 {
      TopShare(Top(attempts), Usable(attempts));
    }
  }

  lemma TopShare(top: nat, usable: nat)
    requires usable > 0 && top <= usable
    ensures 0.0 <= top as real / usable as real <= 1.0
    ensures top as real / usable as real == 1.0 <==> top == usable
  {
    var share := top as real / usable as real;
    assert share * usable as real == top as real;
    Share(share, top as real, usable as real);
  }

  lemma {:induction false} UsableAreCounted(attempts: seq<JudgeAttempt>)
    ensures |UsableResponses(attempts)| == Usable(attempts)
  {
    if attempts != [] {
      var n := |attempts| - 1;
      UsableAreCounted(attempts[..n]);
      VotesPartition(attempts);
      VotesPartition(attempts[..n]);
    }
  }

  lemma {:induction false} ScoresOfAll(responses: seq<JudgeResponse>, dimension: string)
    requires forall r | r in responses :: dimension in r.scores
    ensures |ScoresOf(responses, dimension)| == |responses|
    ensures forall i | 0 <= i < |responses| :: ScoresOf(responses, dimension)[i] == responses[i].scores[dimension]
  {
    if responses != [] {
      ScoresOfAll(responses[..|responses| - 1], dimension);
    }
  }

  lemma {:induction false} UsableAreResponses(attempts: seq<JudgeAttempt>, r: JudgeResponse)
    requires r in UsableResponses(attempts)
    ensures r.verdict != Abstain && exists a :: a in attempts && a.response == r
  {
    var n := |attempts| - 1;
    if r in UsableResponses(attempts[..n]) {
      UsableAreResponses(attempts[..n], r);
    } else {
      assert attempts[n] in attempts;
    }
  }

  /** All attempts score the same dimensions. */
  lemma {:induction false} SameDimensions(c: Configuration, attempts: seq<JudgeAttempt>, r: JudgeResponse)
    requires AggregateResponses(c, attempts).Ok? && r in UsableResponses(attempts)
    ensures r.scores.Keys == Dimensions(attempts)
  {
    UsableAreResponses(attempts, r);
    var a :| a in attempts && a.response == r;
    var keys := set x | x in attempts :: x.response.scores.Keys;
    assert attempts[0] in attempts;
    OnlyOne(keys, a.response.scores.Keys, attempts[0].response.scores.Keys);
  }

  /** As soon as one response is usable every dimension of the rubric gets a score, and none else. By
      strategy it is the mean of the usable scores, or the mean of the two middle ones in any ascending
      arrangement; it never leaves their range. */
  lemma {:induction false} AggregateScores(c: Configuration, attempts: seq<JudgeAttempt>, dimension: string, lo: real,
                                           hi: real)
    requires AggregateResponses(c, attempts).Ok?
    ensures var scores, usable := AggregateResponses(c, attempts).value.scores, UsableResponses(attempts);
            var values := ScoresOf(usable, dimension);
      && (dimension in scores <==> usable != [] && dimension in Dimensions(attempts))
      && (dimension in scores ==>
            && (|values| == |usable| && forall i | 0 <= i < |usable| ::
                  dimension in usable[i].scores && values[i] == usable[i].scores[dimension])
            && (Within(values, lo, hi) ==> lo <= scores[dimension] <= hi)
            && (if c.aggregation.MeanScores? then IsMean(scores[dimension], values)
                else IsMedian(scores[dimension], values)))
  {
    var usable := UsableResponses(attempts);
    forall r | r in usable ensures r.scores.Keys == Dimensions(attempts) {
      SameDimensions(c, attempts, r);
    }
    ScoresByDimension(c, attempts, dimension, lo, hi);
  }

  lemma {:induction false} ScoresByDimension(c: Configuration, attempts: seq<JudgeAttempt>, dimension: string,
                                             lo: real, hi: real)
    requires forall r | r in UsableResponses(attempts) :: r.scores.Keys == Dimensions(attempts)
    ensures var scores, usable := Scores(c, attempts), UsableResponses(attempts);
            var values := ScoresOf(usable, dimension);
      && (dimension in scores <==> usable != [] && dimension in Dimensions(attempts))
      && (dimension in scores ==>
            && (|values| == |usable| && forall i | 0 <= i < |usable| ::
                  dimension in usable[i].scores && values[i] == usable[i].scores[dimension])
            && (Within(values, lo, hi) ==> lo <= scores[dimension] <= hi)
            && (if c.aggregation.MeanScores? then IsMean(scores[dimension], values)
                else IsMedian(scores[dimension], values)))
  {
    var usable := UsableResponses(attempts);
    ScoreAt(c, attempts, dimension);
    if dimension in Dimensions(attempts) && usable != [] {
      ScoresOfAll(usable, dimension);
      AveragedFacts(c.aggregation, ScoresOf(usable, dimension), lo, hi);
    }
  }

  lemma {:induction false} ScoreAt(c: Configuration, attempts: seq<JudgeAttempt>, dimension: string)
    requires forall r | r in UsableResponses(attempts) :: r.scores.Keys == Dimensions(attempts)
    ensures dimension in Scores(c, attempts) <==> UsableResponses(attempts) != [] && dimension in Dimensions(attempts)
    ensures var values := ScoresOf(UsableResponses(attempts), dimension);
      dimension in Scores(c, attempts) ==>
        values != [] && Scores(c, attempts)[dimension] == Averaged(c.aggregation, values)
  {
    var usable := UsableResponses(attempts);
    if dimension in Dimensions(attempts) && usable != [] {
      ScoresOfAll(usable, dimension);
    }
  }

  lemma AveragedFacts(strategy: AggregationStrategy, values: seq<real>, lo: real, hi: real)
    requires values != []
    ensures Within(values, lo, hi) ==> lo <= Averaged(strategy, values) <= hi
    ensures if strategy.MeanScores? then IsMean(Averaged(strategy, values), values)
            else IsMedian(Averaged(strategy, values), values)
  {
    if strategy.MeanScores? {
      MeanFacts(values, lo, hi);
    } else {
      MedianFacts(values, lo, hi);
    }
  }

  lemma MeanFacts(values: seq<real>, lo: real, hi: real)
    requires values != []
    ensures Within(values, lo, hi) ==> lo <= Mean(values) <= hi
    ensures IsMean(Mean(values), values)
  {
    MeanTimesLength(values);
    if Within(values, lo, hi) {
      MeanWithin(values, lo, hi);
    }
  }

  lemma MedianFacts(values: seq<real>, lo: real, hi: real)
    requires values != []
    ensures Within(values, lo, hi) ==> lo <= Median(values) <= hi
    ensures IsMedian(Median(values), values)
  {
    MedianIsMiddle(values);
    if Within(values, lo, hi) {
      MedianWithin(values, lo, hi);
    }
  }

  /** The confidence is zero without a usable response, and else the mean of theirs, within their range. */
  lemma {:induction false} AggregateConfidence(c: Configuration, attempts: seq<JudgeAttempt>, lo: real, hi: real)
    requires AggregateResponses(c, attempts).Ok?
    requires forall r | r in UsableResponses(attempts) :: lo <= r.confidence <= hi
    ensures var confidence, usable := AggregateResponses(c, attempts).value.confidence, UsableResponses(attempts);
      if usable == [] then confidence == 0.0
      else
        && lo <= confidence <= hi
        && IsMean(confidence, seq(|usable|, i requires 0 <= i < |usable| => usable[i].confidence))
  {
    var usable := UsableResponses(attempts);
    if usable != [] {
      var values := Map(ConfidenceOf(), usable);
      assert values == seq(|usable|, i requires 0 <= i < |usable| => usable[i].confidence);
      MeanFacts(values, lo, hi);
    }
  }

  /** Aggregation fails exactly when there are not as many attempts as repetitions, or none, or they
      score different dimensions or charge in different currencies. */
  lemma AggregationFailsExactly(c: Configuration, attempts: seq<JudgeAttempt>)
    ensures AggregateResponses(c, attempts).Ok? <==>
            && |attempts| == c.repetitions && attempts != []
            && (forall a, b | a in attempts && b in attempts ::
                  a.response.scores.Keys == b.response.scores.Keys && a.usage.currency == b.usage.currency)
  {
    var keys := set a | a in attempts :: a.response.scores.Keys;
    var currencies := set a | a in attempts :: a.usage.currency;
    if attempts != [] {
      assert attempts[0] in attempts;
      if forall a | a in attempts :: a.response.scores.Keys == attempts[0].response.scores.Keys {
        OneValue(keys, attempts[0].response.scores.Keys);
      }
      if forall a | a in attempts :: a.usage.currency == attempts[0].usage.currency {
        OneValue(currencies, attempts[0].usage.currency);
      }
      if AggregateResponses(c, attempts).Ok? {
        forall a, b | a in attempts && b in attempts
          ensures a.response.scores.Keys == b.response.scores.Keys && a.usage.currency == b.usage.currency
        {
          OnlyOne(keys, a.response.scores.Keys, b.response.scores.Keys);
          OnlyOne(currencies, a.usage.currency, b.usage.currency);
        }
      }
    }
  }

  // ---------- the whole evaluation ----------

  datatype Evaluation = Evaluation(outcome: Aggregate, attempts: seq<JudgeAttempt>, usage: Totals)

  /** `evaluate_with_judge` */
  function Evaluate(p: Provider, c: Configuration): Result<Evaluation, JudgeError> {
    var r := Run(p, c, c.repetitions);
    if r.stopped.Some? then Err(r.stopped.value)
    else if |r.totals.currencies| != 1 then Err(InconsistentCurrencies)
    else
      match AggregateResponses(c, r.attempts)
      case Err(e) => Err(e)
      case Ok(outcome) => Ok(Evaluation(outcome, r.attempts, r.totals))
  }

  /** A normal return holds exactly one accepted attempt per repetition, in order, each after at
      most `maxAttempts` calls and `maxRepairs` repairs; the usage counts every received answer,
      rejected ones included; and the cost is within the limit. */
  lemma {:induction false} EvaluationIsAccountedFor(p: Provider, c: Configuration)
    requires c.Valid() && Evaluate(p, c).Ok?
    ensures var v, logs := Evaluate(p, c).value, Run(p, c, c.repetitions).logs;
      && |v.attempts| == c.repetitions
      && AllJustified(p, c, logs, v.attempts)
      && v.usage == AddLog(NOTHING, Flatten(logs))
      && v.usage.cost <= c.costLimit
  {
    RunIsJustified(p, c, c.repetitions);
  }

  /** Accepted responses score exactly the rubric's dimensions. */
  ghost predicate Conforming(p: Provider, dimensions: set<string>) {
    forall repetition, attempt, repair ::
      Accepted(p(repetition, attempt, repair)) ==> p(repetition, attempt, repair).parsed.value.scores.Keys == dimensions
  }

  lemma {:induction false} CurrencyKept(t: Totals, log: seq<Call>)
    ensures t.currencies <= AddLog(t, log).currencies
    ensures forall call | call in log && call.outcome.Received? ::
              call.outcome.usage.currency in AddLog(t, log).currencies
    decreases |log|
  {
    if log != [] {
      CurrencyKept(if log[0].outcome.Received? then Add(t, log[0].outcome.usage) else t, log[1..]);
    }
  }

  lemma {:induction false} InFlatten(logs: seq<seq<Call>>, i: nat, call: Call)
    requires i < |logs| && call in logs[i]
    ensures call in Flatten(logs)
  {
    if i < |logs| - 1 {
      InFlatten(logs[..|logs| - 1], i, call);
    }
  }

  lemma {:induction false} AttemptsAgree(p: Provider, c: Configuration, dimensions: set<string>, logs: seq<seq<Call>>,
                                         attempts: seq<JudgeAttempt>, i: nat)
    requires Conforming(p, dimensions) && AllJustified(p, c, logs, attempts) && i < |attempts|
    ensures attempts[i].response.scores.Keys == dimensions
    ensures attempts[i].usage.currency in AddLog(NOTHING, Flatten(logs)).currencies
  {
    var log := logs[i];
    assert Justified(p, c, i, log, attempts[i]);
    var last := log[|log| - 1];
    assert last in log;
    InFlatten(logs, i, last);
    CurrencyKept(NOTHING, Flatten(logs));
    assert log[|log| - 1] == Call(1 + (|log| - 1), p(i, 1 + (|log| - 1), 0 + Repairs(log[..|log| - 1]) > 0));
  }

  lemma OneValue<T>(s: set<T>, x: T)
    requires x in s && forall y | y in s :: y == x
    ensures |s| == 1
  {
    assert s == {x};
  }

  lemma OnlyOne<T>(s: set<T>, x: T, y: T)
    requires |s| == 1 && x in s && y in s
    ensures x == y
  {
    var rest := s - {x};
    assert |rest| == 0;
    assert y !in rest;
  }

  lemma {:induction false} AggregationSucceeds(p: Provider, c: Configuration, dimensions: set<string>)
    requires c.Valid() && Conforming(p, dimensions)
    requires Run(p, c, c.repetitions).stopped.None? && |Run(p, c, c.repetitions).totals.currencies| == 1
    ensures AggregateResponses(c, Run(p, c, c.repetitions).attempts).Ok?
  {
    var r := Run(p, c, c.repetitions);
    RunIsJustified(p, c, c.repetitions);
    assert r.attempts[0] in r.attempts;
    forall i | 0 <= i < |r.attempts|
      ensures r.attempts[i].response.scores.Keys == dimensions &&
              r.attempts[i].usage.currency == r.attempts[0].usage.currency
    {
      AttemptsAgree(p, c, dimensions, r.logs, r.attempts, i);
      AttemptsAgree(p, c, dimensions, r.logs, r.attempts, 0);
      OnlyOne(r.totals.currencies, r.attempts[i].usage.currency, r.attempts[0].usage.currency);
    }
    OneValue(set a | a in r.attempts :: a.response.scores.Keys, dimensions);
    OneValue(set a | a in r.attempts :: a.usage.currency, r.attempts[0].usage.currency);
  }

  /** Why the loop over repetitions stopped: the repetitions before the last one were all accepted, and
      the last one ended with that error after the calls in its log. Without an error all ran. */
  ghost predicate StoppedBy(p: Provider, c: Configuration, n: nat, r: Progress) {
    match r.stopped
    case None => |r.logs| == n
    case Some(error) =>
      && 1 <= |r.logs| <= n && |r.attempts| == |r.logs| - 1
      && var last := |r.logs| - 1;
        && AllJustified(p, c, r.logs[..last], r.attempts)
        && Bounded(p, c, last, 1, 0, AddLog(NOTHING, Flatten(r.logs[..last])),
                   Ending(Err(error), r.totals, r.logs[last]))
  }

  lemma {:induction false} RunStopsOnce(p: Provider, c: Configuration, n: nat)
    requires c.Valid()
    ensures StoppedBy(p, c, n, Run(p, c, n))
  {
    if n > 0 {
      RunStopsOnce(p, c, n - 1);
      RunIsJustified(p, c, n - 1);
      var done := Run(p, c, n - 1);
      if done.stopped.None? {
        RepetitionIsBounded(p, c, n - 1, 1, 0, done.totals);
        var e := Repetition(p, c, n - 1, 1, 0, done.totals);
        assert (done.logs + [e.log])[..n - 1] == done.logs;
      }
    }
  }

  /** An evaluation ends with the error of the first repetition that fails; when all are accepted it
      fails exactly if the answers received were not all charged in one currency. */
  lemma {:induction false} EvaluationEndsExactly(p: Provider, c: Configuration, dimensions: set<string>)
    requires c.Valid() && Conforming(p, dimensions)
    ensures var r := Run(p, c, c.repetitions);
      && StoppedBy(p, c, c.repetitions, r)
      && (r.stopped.Some? ==> Evaluate(p, c) == Err(r.stopped.value))
      && (r.stopped.None? ==>
            var seen := set call | call in Flatten(r.logs) && call.outcome.Received? :: call.outcome.usage.currency;
            if |seen| == 1 then Evaluate(p, c).Ok? else Evaluate(p, c) == Err(InconsistentCurrencies))
  {
    var r := Run(p, c, c.repetitions);
    RunStopsOnce(p, c, c.repetitions);
    RunIsJustified(p, c, c.repetitions);
    TotalsAreSums(NOTHING, Flatten(r.logs));
    if r.stopped.None? {
      var seen := set call | call in Flatten(r.logs) && call.outcome.Received? :: call.outcome.usage.currency;
      assert r.totals.currencies == seen;
      if |seen| == 1 {
        AggregationSucceeds(p, c, dimensions);
      }
    }
  }

  /** The only errors are a provider failure, exhausted retries, the cost limit, and answers in
      different currencies: a repetition never ends without a response, and aggregation never fails. */
  lemma OnlyRealErrors(p: Provider, c: Configuration, dimensions: set<string>)
    requires c.Valid() && Conforming(p, dimensions) && Evaluate(p, c).Err?
    ensures Evaluate(p, c).error in {ProviderFailure, RetriesExhausted, CostLimitExceeded, InconsistentCurrencies}
  {
    RunIsJustified(p, c, c.repetitions);
    if Run(p, c, c.repetitions).stopped.None? && |Run(p, c, c.repetitions).totals.currencies| == 1 {
      AggregationSucceeds(p, c, dimensions);
    }
  }

  // ---------- the procedure ----------

  /** The attempts of one repetition. */
  method JudgeRepetition(p: Provider, c: Configuration, repetition: nat, received: Totals)
    returns (accepted: Result<JudgeAttempt, JudgeError>, totals: Totals)
    ensures var e := Repetition(p, c, repetition, 1, 0, received);
      accepted == e.accepted && totals == e.totals
  {
    ghost var all := Repetition(p, c, repetition, 1, 0, received);
    var repairs := 0;
    totals := received;
    for attempt := 1 to c.maxAttempts + 1
      invariant var e := Repetition(p, c, repetition, attempt, repairs, totals);
        all.accepted == e.accepted && all.totals == e.totals
    {
      var outcome := p(repetition, attempt, repairs > 0);
      match outcome {
        case ProviderFailed(retryable) =>
          if !retryable || attempt >= c.maxAttempts {
            return Err(ProviderFailure), totals;
          }
        case NoAnswer =>
          if repairs >= c.maxRepairs || attempt >= c.maxAttempts {
            return Err(RetriesExhausted), totals;
          }
          repairs := repairs + 1;
        case Received(usage, parsed) =>
          totals := Add(totals, usage);
          if totals.cost > c.costLimit {
            return Err(CostLimitExceeded), totals;
          }
          if parsed.Some? {
            return Ok(JudgeAttempt(repetition, attempt, usage, parsed.value)), totals;
          }
          if repairs >= c.maxRepairs || attempt >= c.maxAttempts {
            return Err(RetriesExhausted), totals;
          }
          repairs := repairs + 1;
      }
    }
    accepted := Err(NoResponse);
  }

  method EvaluateWithJudge(p: Provider, c: Configuration) returns (result: Result<Evaluation, JudgeError>)
    ensures result == Evaluate(p, c)
  {
    var attempts: seq<JudgeAttempt> := [];
    var totals := NOTHING;
    for repetition := 0 to c.repetitions
      invariant var r := Run(p, c, repetition);
        r.stopped.None? && r.attempts == attempts && r.totals == totals
    {
      var accepted;
      accepted, totals := JudgeRepetition(p, c, repetition, totals);
      if accepted.Err? {
        StoppedStays(p, c, repetition + 1, c.repetitions);
        return Err(accepted.error);
      }
      attempts := attempts + [accepted.value];
    }
    if |totals.currencies| != 1 {
      return Err(InconsistentCurrencies);
    }
    var outcome := AggregateResponses(c, attempts);
    if outcome.Err? {
      return Err(outcome.error);
    }
    result := Ok(Evaluation(outcome.value, attempts, totals));
  }

  lemma {:induction false} StoppedStays(p: Provider, c: Configuration, n: nat, m: nat)
    requires n <= m && Run(p, c, n).stopped.Some?
    ensures Run(p, c, m) == Run(p, c, n)
  {
    if n < m {
      StoppedStays(p, c, n, m - 1);
    }
  }
}
