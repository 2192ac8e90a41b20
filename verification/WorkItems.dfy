/**
 One work item run to its end under a retry arm and a timeout arm. The world
 tape answers attempts; the arms only choose delays and bounds.
 */
module WorkItems {
  import opened Effects
  import opened Numbers
  import opened Retry
  import opened Statistics
  import opened Wrappers

  const LEASE_BOUND_MS: nat := 300_000
  const MIN_TIMEOUT_RUNG_MS: nat := 100
  const HEURISTIC_WARMUP_RUNG_MS: nat := 30_000
  const HEURISTIC_WINDOW: nat := 256
  const HEURISTIC_MIN_SAMPLES: nat := 8

  datatype AttemptKind = Success | Failure(errorClass: ErrorClass, retryAfterMs: Option<nat>) | Hang

  /** What one attempt will do, and what it costs whatever it does. */
  datatype AttemptTruth = AttemptTruth(kind: AttemptKind, latencyMs: nat, costUsd: real)

  datatype WorkItem = WorkItem(effect: Effect, callee: nat, tape: seq<AttemptTruth>)

  datatype RetryArm = RetryFloor | RetryOracle | RetryHeuristic

  datatype TimeoutArm = TimeoutFloor | TimeoutOracle | TimeoutHeuristic

  datatype ItemOutcome = ItemOutcome(
    completed: bool,
    deadLettered: bool,
    attempts: nat,
    elapsedMs: nat,
    decisions: nat,
    costUsd: real)

  /** A stream of uniform draws. */
  type Jitter = nat -> real

  /** The tape is long enough for the whole attempt budget; even without one the
      first attempt is made. */
  predicate Recorded(item: WorkItem, budget: nat) {
    |item.tape| >= 1 && |item.tape| >= budget
  }

  predicate InBudget(item: WorkItem, budget: nat, attempt: nat) {
    Recorded(item, budget) && 1 <= attempt && (attempt == 1 || attempt <= budget)
  }

  /** And attempts are never paid to run. */
  ghost predicate Playable(item: WorkItem, budget: nat) {
    Recorded(item, budget) && forall i :: 0 <= i < |item.tape| ==> item.tape[i].costUsd >= 0.0
  }

  // ------------------------------------------------------------------
  // The arms' choices.
  // ------------------------------------------------------------------

  function HeuristicBackoff(class_: ErrorClass, retryAfterMs: Option<nat>): nat {
    (match class_
     case Transient => 150
     case RateLimited => 1_000
     case Timeout => 2_000
     case DependencyFailure => 1_000
     case ResourceExhausted => 5_000
     case Unknown => 10_000
     case InvalidInput => 0
     case Cancelled => 0)
    + RetryAfter(retryAfterMs)
  }

  function RetryAfter(ms: Option<nat>): nat {
    if ms.Some? then ms.value else 0
  }

  /** Per-callee windows of completion latencies. */
  type Samples = seq<seq<nat>>

  function Observe(samples: Samples, callee: nat, latencyMs: nat): (r: Samples)
    requires callee < |samples|
    ensures |r| == |samples|
    ensures forall c :: 0 <= c < |samples| && c != callee ==> r[c] == samples[c]
    ensures var all := samples[callee] + [latencyMs];
      |r[callee]| == Min(|all|, HEURISTIC_WINDOW) && r[callee] == all[|all| - |r[callee]|..]
  {
    var window := samples[callee] + [latencyMs];
    samples[callee := if |window| > HEURISTIC_WINDOW then window[|window| - HEURISTIC_WINDOW..] else window]
  }

  /** Five quarters of the 99th percentile, within the rungs. */
  function HeuristicBound(samples: Samples, callee: nat): (bound: nat)
    requires callee < |samples|
    ensures MIN_TIMEOUT_RUNG_MS <= bound <= LEASE_BOUND_MS
    ensures |samples[callee]| < HEURISTIC_MIN_SAMPLES ==> bound == HEURISTIC_WARMUP_RUNG_MS
    ensures |samples[callee]| >= HEURISTIC_MIN_SAMPLES ==>
              var p99 := Percentile(samples[callee], 99);
              && (bound > MIN_TIMEOUT_RUNG_MS ==> 4 * bound <= 5 * p99)
              && (bound < LEASE_BOUND_MS ==> 5 * p99 < 4 * bound + 4)
  {
    if |samples[callee]| < HEURISTIC_MIN_SAMPLES then HEURISTIC_WARMUP_RUNG_MS
    else Max(MIN_TIMEOUT_RUNG_MS, Min(Percentile(samples[callee], 99) * 5 / 4, LEASE_BOUND_MS))
  }

  function Bound(arm: TimeoutArm, truth: AttemptTruth, samples: Samples, callee: nat): Option<nat>
    requires arm.TimeoutHeuristic? ==> callee < |samples|
  {
    match arm
    case TimeoutFloor => None
    case TimeoutOracle => Some(if truth.kind.Hang? then MIN_TIMEOUT_RUNG_MS else truth.latencyMs)
    case TimeoutHeuristic => Some(HeuristicBound(samples, callee))
  }

  datatype Observation =
    | Completed(elapsedMs: nat)
    | Failed(elapsedMs: nat, errorClass: ErrorClass, retryAfterMs: Option<nat>)

  /** What the policy sees of an attempt under its bound. */
  function ObserveAttempt(truth: AttemptTruth, bound: Option<nat>): Observation {
    match truth.kind
    case Success =>
      if bound.Some? && truth.latencyMs > bound.value then Failed(bound.value, Timeout, None)
      else Completed(truth.latencyMs)
    case Failure(errorClass, retryAfterMs) => Failed(truth.latencyMs, errorClass, retryAfterMs)
    case Hang =>
      if bound.None? then Failed(LEASE_BOUND_MS, Unknown, None)
      else Failed(bound.value, Timeout, None)
  }

  /** Some attempt after `attempt`, still in budget, succeeds on the tape. */
  predicate WorthRetrying(item: WorkItem, budget: nat, attempt: nat)
    requires Recorded(item, budget)
  {
    exists k :: attempt <= k < budget && item.tape[k].kind.Success?
  }

  function FloorDelay(item: WorkItem, budget: nat, class_: ErrorClass, attempt: nat, retryAfterMs: Option<nat>, uniform: real): nat
    requires RetryIsLegal(item.effect, class_, attempt, budget)
  {
    Max(Classify(item.effect, class_, attempt, budget, uniform).afterMs, RetryAfter(retryAfterMs))
  }

  // ------------------------------------------------------------------
  // The run of one item.
  // ------------------------------------------------------------------

  /** What one attempt adds to the outcome, and whether the item goes on. */
  datatype Step =
    | Finish(outcome: ItemOutcome, samples: Samples)
    | Again(outcome: ItemOutcome, draws: nat)

  function Attempt(item: WorkItem, budget: nat, retry: RetryArm, timeout: TimeoutArm, samples: Samples,
                   uniform: real, attempt: nat): Step
    requires InBudget(item, budget, attempt)
    requires timeout.TimeoutHeuristic? ==> item.callee < |samples|
  {
    var truth := item.tape[attempt - 1];
    var bound := Bound(timeout, truth, samples, item.callee);
    var timeoutDecisions := if timeout.TimeoutFloor? then 0 else 1;
    match ObserveAttempt(truth, bound)
    case Completed(elapsed) =>
      Finish(ItemOutcome(true, false, 1, elapsed, timeoutDecisions, truth.costUsd),
             if timeout.TimeoutHeuristic? then Observe(samples, item.callee, truth.latencyMs) else samples)
    case Failed(elapsed, class_, retryAfterMs) =>
      var paid := ItemOutcome(false, false, 1, elapsed, timeoutDecisions + 1, truth.costUsd);
      if !RetryIsLegal(item.effect, class_, attempt, budget) then
        Finish(paid.(deadLettered := item.effect.FreelyRepeatable() && class_.Retryable()), samples)
      else
        match retry
        case RetryFloor =>
          Again(paid.(elapsedMs := elapsed + FloorDelay(item, budget, class_, attempt, retryAfterMs, uniform)), 1)
        case RetryOracle =>
          if WorthRetrying(item, budget, attempt) then Again(paid.(elapsedMs := elapsed + RetryAfter(retryAfterMs)), 0)
          else Finish(paid, samples)
        case RetryHeuristic =>
          Again(paid.(elapsedMs := elapsed + HeuristicBackoff(class_, retryAfterMs)), 0)
  }

  lemma AttemptEnds(item: WorkItem, budget: nat, retry: RetryArm, timeout: TimeoutArm, samples: Samples, uniform: real, attempt: nat)
    requires InBudget(item, budget, attempt)
    requires timeout.TimeoutHeuristic? ==> item.callee < |samples|
    ensures Attempt(item, budget, retry, timeout, samples, uniform, attempt).Again? ==> attempt < budget
  {
  }

  /** The outcome, how many jitter draws the run took, and the samples after. */
  datatype ItemRun = ItemRun(outcome: ItemOutcome, draws: nat, samples: Samples)

  const NOTHING_YET := ItemOutcome(false, false, 0, 0, 0, 0.0)

  function Then(first: ItemOutcome, next: ItemOutcome): ItemOutcome {
    ItemOutcome(next.completed, next.deadLettered, first.attempts + next.attempts,
                first.elapsedMs + next.elapsedMs, first.decisions + next.decisions, first.costUsd + next.costUsd)
  }

  function RunFrom(item: WorkItem, budget: nat, retry: RetryArm, timeout: TimeoutArm, samples: Samples,
                   jitter: Jitter, draw: nat, attempt: nat): ItemRun
    requires InBudget(item, budget, attempt)
    requires timeout.TimeoutHeuristic? ==> item.callee < |samples|
    decreases budget - attempt
  {
    match Attempt(item, budget, retry, timeout, samples, jitter(draw), attempt)
    case Finish(outcome, samples') => ItemRun(outcome, 0, samples')
    case Again(paid, draws) =>
      var rest := RunFrom(item, budget, retry, timeout, samples, jitter, draw + draws, attempt + 1);
      ItemRun(Then(paid, rest.outcome), draws + rest.draws, rest.samples)
  }

  lemma RunUnfolds(item: WorkItem, budget: nat, retry: RetryArm, timeout: TimeoutArm, samples: Samples,
                   jitter: Jitter, draw: nat, attempt: nat)
    requires InBudget(item, budget, attempt)
    requires timeout.TimeoutHeuristic? ==> item.callee < |samples|
    ensures var step := Attempt(item, budget, retry, timeout, samples, jitter(draw), attempt);
      var run := RunFrom(item, budget, retry, timeout, samples, jitter, draw, attempt);
      && (step.Finish? ==> run == ItemRun(step.outcome, 0, step.samples))
      && (step.Again? ==>
            && attempt < budget
            && var rest := RunFrom(item, budget, retry, timeout, samples, jitter, draw + step.draws, attempt + 1);
              run == ItemRun(Then(step.outcome, rest.outcome), step.draws + rest.draws, rest.samples))
  {
    hide Attempt, Then;
    AttemptEnds(item, budget, retry, timeout, samples, jitter(draw), attempt);
  }

  function Simulate(item: WorkItem, budget: nat, retry: RetryArm, timeout: TimeoutArm, samples: Samples,
                    jitter: Jitter, draw: nat): ItemRun
    requires Recorded(item, budget)
    requires timeout.TimeoutHeuristic? ==> item.callee < |samples|
  {
    RunFrom(item, budget, retry, timeout, samples, jitter, draw, 1)
  }

  /** The attempt loop, with the outcome accumulated in place: it ends, reads
      the tape only inside the budget, and computes the run. */
  method SimulateItem(item: WorkItem, budget: nat, retry: RetryArm, timeout: TimeoutArm, samples: Samples,
                      jitter: Jitter, draw: nat) returns (run: ItemRun)
    requires Recorded(item, budget)
    requires timeout.TimeoutHeuristic? ==> item.callee < |samples|
    ensures run == Simulate(item, budget, retry, timeout, samples, jitter, draw)
  {
    hide Attempt, RunFrom;
    var outcome := NOTHING_YET;
    var attempt, draws: nat := 1, 0;
    ghost var total := Simulate(item, budget, retry, timeout, samples, jitter, draw);
    ghost var rest := total;
    while true
      invariant InBudget(item, budget, attempt)
      invariant rest == RunFrom(item, budget, retry, timeout, samples, jitter, draw + draws, attempt)
      invariant total == ItemRun(Then(outcome, rest.outcome), draws + rest.draws, rest.samples)
      decreases budget - attempt
    {
      var step := Attempt(item, budget, retry, timeout, samples, jitter(draw + draws), attempt);
      RunUnfolds(item, budget, retry, timeout, samples, jitter, draw + draws, attempt);
      if step.Finish? {
        return ItemRun(Then(outcome, step.outcome), draws, step.samples);
      }
      rest := RunFrom(item, budget, retry, timeout, samples, jitter, draw + draws + step.draws, attempt + 1);
      outcome := Then(outcome, step.outcome);
      draws := draws + step.draws;
      attempt := attempt + 1;
    }
  }

  // ------------------------------------------------------------------
  // Oracle dominance.
  // ------------------------------------------------------------------

  /** No worse on any account, at exactly the same completion. */
  ghost predicate Dominates(better: ItemOutcome, worse: ItemOutcome) {
    && better.completed == worse.completed
    && better.attempts <= worse.attempts
    && better.elapsedMs <= worse.elapsedMs
    && better.decisions <= worse.decisions
    && better.costUsd <= worse.costUsd
  }

  lemma {:induction false} NothingWorthRetryingFails(item: WorkItem, budget: nat, samples: Samples, jitter: Jitter, draw: nat, attempt: nat)
    requires Playable(item, budget) && 1 <= attempt <= budget && !WorthRetrying(item, budget, attempt - 1)
    ensures var run := RunFrom(item, budget, RetryFloor, TimeoutFloor, samples, jitter, draw, attempt);
      !run.outcome.completed && run.outcome.attempts >= 1 && run.outcome.costUsd >= 0.0
    decreases budget - attempt
  {
    assert !item.tape[attempt - 1].kind.Success?;
    if Attempt(item, budget, RetryFloor, TimeoutFloor, samples, jitter(draw), attempt).Again? {
      NothingWorthRetryingFails(item, budget, samples, jitter, draw + 1, attempt + 1);
    }
  }

  /** One attempt under the two retry arms: same bill up to the chosen delay,
      and the oracle goes on only when the floor does. */
  lemma AttemptsCompare(item: WorkItem, budget: nat, samples: Samples, floorSamples: Samples, u: real, floorU: real, attempt: nat)
    requires Playable(item, budget) && InBudget(item, budget, attempt)
    ensures var oracle := Attempt(item, budget, RetryOracle, TimeoutFloor, samples, u, attempt);
      var floor := Attempt(item, budget, RetryFloor, TimeoutFloor, floorSamples, floorU, attempt);
      && oracle.outcome.attempts == floor.outcome.attempts == 1
      && oracle.outcome.elapsedMs <= floor.outcome.elapsedMs
      && oracle.outcome.decisions == floor.outcome.decisions
      && oracle.outcome.costUsd == floor.outcome.costUsd
      && (floor.Again? ==> attempt < budget && floor.draws == 1)
      && (oracle.Again? ==> floor.Again? && oracle.draws == 0)
      && (floor.Finish? ==> oracle.Finish? && oracle.outcome.completed == floor.outcome.completed)
      && (floor.Again? && oracle.Finish? ==> !oracle.outcome.completed && !WorthRetrying(item, budget, attempt))
  {
  }

  /** Whatever the tape and whatever jitter either arm draws, from any attempt
      on the retry oracle completes exactly what the floor completes and pays
      no more for it. */
  lemma {:induction false} RetryOracleDominatesFrom(item: WorkItem, budget: nat, samples: Samples, floorSamples: Samples,
      jitter: Jitter, draw: nat, floorJitter: Jitter, floorDraw: nat, attempt: nat)
    requires Playable(item, budget) && InBudget(item, budget, attempt)
    ensures Dominates(RunFrom(item, budget, RetryOracle, TimeoutFloor, samples, jitter, draw, attempt).outcome,
                      RunFrom(item, budget, RetryFloor, TimeoutFloor, floorSamples, floorJitter, floorDraw, attempt).outcome)
    decreases budget - attempt
  {
    hide Attempt;
    AttemptsCompare(item, budget, samples, floorSamples, jitter(draw), floorJitter(floorDraw), attempt);
    var oracle := Attempt(item, budget, RetryOracle, TimeoutFloor, samples, jitter(draw), attempt);
    var floor := Attempt(item, budget, RetryFloor, TimeoutFloor, floorSamples, floorJitter(floorDraw), attempt);
    if oracle.Again? {
      RetryOracleDominatesFrom(item, budget, samples, floorSamples, jitter, draw, floorJitter, floorDraw + 1, attempt + 1);
    } else if floor.Again? {
      NothingWorthRetryingFails(item, budget, floorSamples, floorJitter, floorDraw + 1, attempt + 1);
    }
  }

  /** From any attempt on, the retry oracle's run of an item dominates the
      floor's; this is the whole run. */
  lemma RetryOracleDominates(item: WorkItem, budget: nat, samples: Samples, floorSamples: Samples,
      jitter: Jitter, draw: nat, floorJitter: Jitter, floorDraw: nat)
    requires Playable(item, budget)
    ensures Dominates(Simulate(item, budget, RetryOracle, TimeoutFloor, samples, jitter, draw).outcome,
                      Simulate(item, budget, RetryFloor, TimeoutFloor, floorSamples, floorJitter, floorDraw).outcome)
  {
    hide RunFrom;
    RetryOracleDominatesFrom(item, budget, samples, floorSamples, jitter, draw, floorJitter, floorDraw, 1);
  }

  // ------------------------------------------------------------------
  // Which items complete.
  // ------------------------------------------------------------------

  /** An attempt no class gate stops at. */
  predicate Retriable(kind: AttemptKind) {
    kind.Hang? || (kind.Failure? && kind.errorClass.Retryable())
  }

  /** Attempt `k` succeeds and every attempt from `attempt` up to it may be
      followed by another. */
  predicate ReachesSuccess(item: WorkItem, budget: nat, attempt: nat, k: nat)
    requires InBudget(item, budget, attempt)
  {
    && attempt <= k && (k == attempt || (k <= budget && item.effect.FreelyRepeatable()))
    && item.tape[k - 1].kind.Success? && forall i :: attempt - 1 <= i < k - 1 ==> Retriable(item.tape[i].kind)
  }

  ghost predicate Completes(item: WorkItem, budget: nat, attempt: nat)
    requires InBudget(item, budget, attempt)
  {
    exists k :: ReachesSuccess(item, budget, attempt, k)
  }

  lemma CompletesStep(item: WorkItem, budget: nat, attempt: nat)
    requires InBudget(item, budget, attempt)
    ensures Completes(item, budget, attempt) <==>
            || item.tape[attempt - 1].kind.Success?
            || (Retriable(item.tape[attempt - 1].kind) && item.effect.FreelyRepeatable() && attempt < budget
                && Completes(item, budget, attempt + 1))
  {
    if item.tape[attempt - 1].kind.Success? {
      assert ReachesSuccess(item, budget, attempt, attempt);
    } else if attempt < budget && Completes(item, budget, attempt + 1) && Retriable(item.tape[attempt - 1].kind)
              && item.effect.FreelyRepeatable() {
      var k :| ReachesSuccess(item, budget, attempt + 1, k);
      assert ReachesSuccess(item, budget, attempt, k);
    } else if Completes(item, budget, attempt) {
      var k :| ReachesSuccess(item, budget, attempt, k);
      assert ReachesSuccess(item, budget, attempt + 1, k);
    }
  }

  /** Under every retry arm, and whatever the jitter, an item completes exactly
      when its tape says so: some attempt in budget succeeds, all before it may be
      retried, and unless it is the first the effect is freely repeatable. */
  lemma {:induction false} CompletionIsOnTheTape(item: WorkItem, budget: nat, retry: RetryArm, timeout: TimeoutArm,
      samples: Samples, jitter: Jitter, draw: nat, attempt: nat)
    requires InBudget(item, budget, attempt) && !timeout.TimeoutHeuristic?
    ensures RunFrom(item, budget, retry, timeout, samples, jitter, draw, attempt).outcome.completed
       <==> Completes(item, budget, attempt)
    decreases budget - attempt
  {
    hide RunFrom, Completes;
    RunUnfolds(item, budget, retry, timeout, samples, jitter, draw, attempt);
    CompletesStep(item, budget, attempt);
    var step := Attempt(item, budget, retry, timeout, samples, jitter(draw), attempt);
    if step.Again? {
      CompletionIsOnTheTape(item, budget, retry, timeout, samples, jitter, draw + step.draws, attempt + 1);
    } else if attempt < budget {
      OnlyWorthRetryingCompletes(item, budget, attempt + 1);
    }
  }

  lemma OnlyWorthRetryingCompletes(item: WorkItem, budget: nat, attempt: nat)
    requires InBudget(item, budget, attempt) && attempt <= budget
    ensures Completes(item, budget, attempt) ==> WorthRetrying(item, budget, attempt - 1)
  {
    if Completes(item, budget, attempt) {
      var k :| ReachesSuccess(item, budget, attempt, k);
      assert item.tape[k - 1].kind.Success?;
    }
  }

  /** The first attempt that may not be retried, and is no success either. */
  predicate StopsAt(item: WorkItem, j: nat)
    requires j < |item.tape|
  {
    && item.tape[j].kind.Failure? && !item.tape[j].kind.errorClass.Retryable()
    && forall i :: 0 <= i < j ==> Retriable(item.tape[i].kind)
  }

  /** On such a tape the success ahead is out of reach. */
  lemma NothingPastTheStop(item: WorkItem, budget: nat, j: nat)
    requires Recorded(item, budget) && j < |item.tape| && StopsAt(item, j)
    ensures !Completes(item, budget, 1)
  {
    assert !Retriable(item.tape[j].kind);
    forall k: nat ensures !ReachesSuccess(item, budget, 1, k) {
    }
  }

  lemma {:induction false} StopIsFound(item: WorkItem, budget: nat, attempt: nat) returns (j: nat, k: nat)
    requires InBudget(item, budget, attempt) && item.effect.FreelyRepeatable()
    requires WorthRetrying(item, budget, attempt - 1) && !Completes(item, budget, attempt)
    requires forall i :: 0 <= i < attempt - 1 ==> Retriable(item.tape[i].kind)
    ensures attempt - 1 <= j < k < budget && StopsAt(item, j) && item.tape[k].kind.Success?
    decreases budget - attempt
  {
    hide Completes;
    CompletesStep(item, budget, attempt);
    k :| attempt - 1 <= k < budget && item.tape[k].kind.Success?;
    if Retriable(item.tape[attempt - 1].kind) {
      j, k := StopIsFound(item, budget, attempt + 1);
    } else {
      j := attempt - 1;
    }
  }

  /** The oracle retries in vain exactly on tapes whose first attempt may be
      retried and that hold, within budget, a success behind the first failure
      that may not. */
  lemma RetriesInVainExactly(item: WorkItem, budget: nat, samples: Samples, jitter: Jitter, draw: nat)
    requires Playable(item, budget)
    ensures var o := Simulate(item, budget, RetryOracle, TimeoutFloor, samples, jitter, draw).outcome;
      o.attempts > 1 && !o.completed <==>
      item.effect.FreelyRepeatable() && exists j, k :: 1 <= j < k < budget && StopsAt(item, j) && item.tape[k].kind.Success?
  {
    hide RunFrom, Completes, StopsAt;
    RunUnfolds(item, budget, RetryOracle, TimeoutFloor, samples, jitter, draw, 1);
    CompletionIsOnTheTape(item, budget, RetryOracle, TimeoutFloor, samples, jitter, draw, 1);
    var step := Attempt(item, budget, RetryOracle, TimeoutFloor, samples, jitter(draw), 1);
    if step.Again? {
      RunAttempts(item, budget, RetryOracle, TimeoutFloor, samples, jitter, draw + step.draws, 2);
      if !Completes(item, budget, 1) {
        var j, k := StopIsFound(item, budget, 1);
        StopIsLater(item, j);
      }
    }
    if j, k :| 1 <= j < k < budget && StopsAt(item, j) && item.tape[k].kind.Success? {
      NothingPastTheStop(item, budget, j);
      FirstIsRetriable(item, j);
    }
  }

  lemma StopIsLater(item: WorkItem, j: nat)
    requires j < |item.tape| && StopsAt(item, j)
    ensures Retriable(item.tape[0].kind) ==> j >= 1
  {
  }

  lemma FirstIsRetriable(item: WorkItem, j: nat)
    requires 1 <= j < |item.tape| && StopsAt(item, j)
    ensures Retriable(item.tape[0].kind)
  {
  }

  lemma {:induction false} RunAttempts(item: WorkItem, budget: nat, retry: RetryArm, timeout: TimeoutArm, samples: Samples,
                                       jitter: Jitter, draw: nat, attempt: nat)
    requires InBudget(item, budget, attempt)
    requires timeout.TimeoutHeuristic? ==> item.callee < |samples|
    ensures RunFrom(item, budget, retry, timeout, samples, jitter, draw, attempt).outcome.attempts >= 1
    ensures |RunFrom(item, budget, retry, timeout, samples, jitter, draw, attempt).samples| == |samples|
    decreases budget - attempt
  {
    hide RunFrom;
    RunUnfolds(item, budget, retry, timeout, samples, jitter, draw, attempt);
    var step := Attempt(item, budget, retry, timeout, samples, jitter(draw), attempt);
    if step.Again? {
      RunAttempts(item, budget, retry, timeout, samples, jitter, draw + step.draws, attempt + 1);
    }
  }

  /** A transient fault, an invalid input, a success: the oracle makes a second
      attempt for the third's sake and fails. */
  lemma RetryInVain(samples: Samples, jitter: Jitter, draw: nat, latencyMs: nat, costUsd: real)
    requires costUsd >= 0.0
    ensures var tape := [AttemptTruth(Failure(Transient, None), latencyMs, costUsd),
                         AttemptTruth(Failure(InvalidInput, None), latencyMs, costUsd),
                         AttemptTruth(Success, latencyMs, costUsd)];
      var o := Simulate(WorkItem(Idempotent, 0, tape), MAX_ATTEMPTS, RetryOracle, TimeoutFloor, samples, jitter, draw).outcome;
      o.attempts > 1 && !o.completed
  {
    var tape := [AttemptTruth(Failure(Transient, None), latencyMs, costUsd),
                 AttemptTruth(Failure(InvalidInput, None), latencyMs, costUsd),
                 AttemptTruth(Success, latencyMs, costUsd)];
    var item := WorkItem(Idempotent, 0, tape);
    assert StopsAt(item, 1) && item.tape[2].kind.Success?;
    RetriesInVainExactly(item, MAX_ATTEMPTS, samples, jitter, draw);
  }

  // ------------------------------------------------------------------
  // The timeout oracle, retry pinned at the floor.
  // ------------------------------------------------------------------

  /** Whether the floor retries after this attempt, and the backoff it pays. */
  function BackoffPaid(item: WorkItem, budget: nat, jitter: Jitter, draw: nat, attempt: nat): nat
    requires InBudget(item, budget, attempt)
    decreases budget - attempt
  {
    match ObserveAttempt(item.tape[attempt - 1], None)
    case Completed(_) => 0
    case Failed(_, class_, retryAfterMs) =>
      if !RetryIsLegal(item.effect, class_, attempt, budget) then 0
      else FloorDelay(item, budget, class_, attempt, retryAfterMs, jitter(draw))
           + BackoffPaid(item, budget, jitter, draw + 1, attempt + 1)
  }

  /** The milliseconds a bound at the minimum rung saves on one attempt. */
  function HangSaving(truth: AttemptTruth): nat {
    if truth.kind.Hang? then LEASE_BOUND_MS - MIN_TIMEOUT_RUNG_MS else 0
  }

  /** The savings on the hangs among the attempts the floor makes. */
  function HangsCut(item: WorkItem, budget: nat, attempt: nat): nat
    requires InBudget(item, budget, attempt)
    decreases budget - attempt
  {
    match ObserveAttempt(item.tape[attempt - 1], None)
    case Completed(_) => 0
    case Failed(_, class_, _) =>
      HangSaving(item.tape[attempt - 1])
      + (if RetryIsLegal(item.effect, class_, attempt, budget) then HangsCut(item, budget, attempt + 1) else 0)
  }

  /** Completion, attempts and cost are the floor's whatever jitter the two
      arms draw; one timeout decision is paid per attempt; and the elapsed
      times differ by the hangs cut short and the two arms' backoffs. */
  ghost predicate TimeoutOracleLedger(oracle: ItemRun, floor: ItemRun, hangsCut: nat, backoff: nat, floorBackoff: nat) {
    && oracle.outcome.completed == floor.outcome.completed
    && oracle.outcome.deadLettered == floor.outcome.deadLettered
    && oracle.outcome.attempts == floor.outcome.attempts
    && oracle.outcome.costUsd == floor.outcome.costUsd
    && oracle.outcome.decisions == floor.outcome.decisions + floor.outcome.attempts
    && oracle.draws == floor.draws
    && oracle.outcome.elapsedMs + hangsCut + floorBackoff == floor.outcome.elapsedMs + backoff
  }

  lemma TimeoutAttemptsCompare(item: WorkItem, budget: nat, samples: Samples, floorSamples: Samples, u: real, floorU: real, attempt: nat)
    requires Playable(item, budget) && InBudget(item, budget, attempt)
    ensures var oracle := Attempt(item, budget, RetryFloor, TimeoutOracle, samples, u, attempt);
      var floor := Attempt(item, budget, RetryFloor, TimeoutFloor, floorSamples, floorU, attempt);
      var o, f := oracle.outcome, floor.outcome;
      && o.completed == f.completed && o.deadLettered == f.deadLettered
      && o.attempts == f.attempts == 1 && o.costUsd == f.costUsd && o.decisions == f.decisions + 1
      && (oracle.Again? <==> floor.Again?)
      && (oracle.Again? ==> oracle.draws == floor.draws == 1)
      && match ObserveAttempt(item.tape[attempt - 1], None)
         case Completed(_) => floor.Finish? && o.elapsedMs == f.elapsedMs
         case Failed(_, class_, retryAfterMs) =>
           var legal := RetryIsLegal(item.effect, class_, attempt, budget);
           && (floor.Again? <==> legal)
           && o.elapsedMs + HangSaving(item.tape[attempt - 1]) + (if legal then FloorDelay(item, budget, class_, attempt, retryAfterMs, floorU) else 0)
              == f.elapsedMs + (if legal then FloorDelay(item, budget, class_, attempt, retryAfterMs, u) else 0)
  {
  }

  lemma {:induction false} TimeoutOracleLedgerFrom(item: WorkItem, budget: nat, samples: Samples, floorSamples: Samples,
      jitter: Jitter, draw: nat, floorJitter: Jitter, floorDraw: nat, attempt: nat)
    requires Playable(item, budget) && InBudget(item, budget, attempt)
    ensures TimeoutOracleLedger(
              RunFrom(item, budget, RetryFloor, TimeoutOracle, samples, jitter, draw, attempt),
              RunFrom(item, budget, RetryFloor, TimeoutFloor, floorSamples, floorJitter, floorDraw, attempt),
              HangsCut(item, budget, attempt), BackoffPaid(item, budget, jitter, draw, attempt),
              BackoffPaid(item, budget, floorJitter, floorDraw, attempt))
    decreases budget - attempt
  {
    hide RunFrom, Attempt, ObserveAttempt, FloorDelay, RetryIsLegal, HangSaving;
    RunUnfolds(item, budget, RetryFloor, TimeoutOracle, samples, jitter, draw, attempt);
    RunUnfolds(item, budget, RetryFloor, TimeoutFloor, floorSamples, floorJitter, floorDraw, attempt);
    TimeoutAttemptsCompare(item, budget, samples, floorSamples, jitter(draw), floorJitter(floorDraw), attempt);
    if Attempt(item, budget, RetryFloor, TimeoutOracle, samples, jitter(draw), attempt).Again? {
      TimeoutOracleLedgerFrom(item, budget, samples, floorSamples, jitter, draw + 1, floorJitter, floorDraw + 1, attempt + 1);
    }
  }

  // ------------------------------------------------------------------
  // When the timeout oracle cannot be slower.
  // ------------------------------------------------------------------

  function Excess(a: nat, b: nat): nat {
    if a > b then a - b else 0
  }

  /** How far two floor delays after the same failure can lie apart: from the
      world's own Retry-After to the last millisecond of the window. */
  function DelaySpread(attempt: nat, retryAfterMs: Option<nat>): nat {
    Excess(BackoffWindow(attempt, BASE_RETRY_DELAY_MS, MAX_RETRY_DELAY_MS), RetryAfter(retryAfterMs) + 1)
  }

  /** Draws lie in [0, 1). */
  ghost predicate Uniform(jitter: Jitter) {
    forall n: nat :: 0.0 <= jitter(n) < 1.0
  }

  /** The spread of all the delays the floor pays on this tape. */
  function Spread(item: WorkItem, budget: nat, attempt: nat): nat
    requires InBudget(item, budget, attempt)
    decreases budget - attempt
  {
    match ObserveAttempt(item.tape[attempt - 1], None)
    case Completed(_) => 0
    case Failed(_, class_, retryAfterMs) =>
      if !RetryIsLegal(item.effect, class_, attempt, budget) then 0
      else DelaySpread(attempt, retryAfterMs) + Spread(item, budget, attempt + 1)
  }

  /** A draw that lands on the last millisecond of every window. */
  const LATE_DRAW: real := 299_999.0 / 300_000.0

  const LATE: Jitter := n => LATE_DRAW
  const EARLY: Jitter := n => 0.0

  lemma LateDrawIsLast(attempt: nat)
    ensures var window := BackoffWindow(attempt, BASE_RETRY_DELAY_MS, MAX_RETRY_DELAY_MS);
      window >= 1 && BackoffDelay(attempt, LATE_DRAW, BASE_RETRY_DELAY_MS, MAX_RETRY_DELAY_MS) == window - 1
  {
    hide BackoffDelay, Pow2;
    var window := BackoffWindow(attempt, BASE_RETRY_DELAY_MS, MAX_RETRY_DELAY_MS);
    var delay := BackoffDelay(attempt, LATE_DRAW, BASE_RETRY_DELAY_MS, MAX_RETRY_DELAY_MS);
    assert LATE_DRAW * window as real == window as real - window as real / 300_000.0;
    assert window as real / 300_000.0 <= 1.0;
    assert delay as real + 1.0 > (window - 1) as real;
  }

  lemma DelaysDiffer(item: WorkItem, budget: nat, class_: ErrorClass, attempt: nat, retryAfterMs: Option<nat>, u: real, floorU: real)
    requires RetryIsLegal(item.effect, class_, attempt, budget) && u < 1.0
    ensures var late, early := FloorDelay(item, budget, class_, attempt, retryAfterMs, u),
                               FloorDelay(item, budget, class_, attempt, retryAfterMs, floorU);
      && late <= early + DelaySpread(attempt, retryAfterMs)
      && (u == LATE_DRAW && floorU == 0.0 ==> late == early + DelaySpread(attempt, retryAfterMs))
  {
    hide BackoffWindow, BackoffDelay;
    LateDrawIsLast(attempt);
  }

  lemma {:induction false} BackoffsDiffer(item: WorkItem, budget: nat, jitter: Jitter, draw: nat,
                                          floorJitter: Jitter, floorDraw: nat, attempt: nat)
    requires InBudget(item, budget, attempt) && Uniform(jitter)
    ensures var late, early := BackoffPaid(item, budget, jitter, draw, attempt),
                               BackoffPaid(item, budget, floorJitter, floorDraw, attempt);
      && late <= early + Spread(item, budget, attempt)
      && (jitter == LATE && floorJitter == EARLY ==> late == early + Spread(item, budget, attempt))
    decreases budget - attempt
  {
    hide FloorDelay, DelaySpread, ObserveAttempt;
    assert 0.0 <= jitter(draw) < 1.0;
    match ObserveAttempt(item.tape[attempt - 1], None)
    case Completed(_) =>
    case Failed(_, class_, retryAfterMs) =>
      if RetryIsLegal(item.effect, class_, attempt, budget) {
        DelaysDiffer(item, budget, class_, attempt, retryAfterMs, jitter(draw), floorJitter(floorDraw));
        BackoffsDiffer(item, budget, jitter, draw + 1, floorJitter, floorDraw + 1, attempt + 1);
      }
  }

  /** Whatever the two arms draw, the oracle has the floor's outcome, attempts
      and cost and pays a timeout decision per attempt; and it ends at most the
      spread later, less the hangs it cuts, which opposite draws attain. */
  lemma TimeoutOracleGap(item: WorkItem, budget: nat, samples: Samples, floorSamples: Samples,
      jitter: Jitter, draw: nat, floorJitter: Jitter, floorDraw: nat)
    requires Playable(item, budget) && Uniform(jitter)
    ensures var o := Simulate(item, budget, RetryFloor, TimeoutOracle, samples, jitter, draw).outcome;
      var f := Simulate(item, budget, RetryFloor, TimeoutFloor, floorSamples, floorJitter, floorDraw).outcome;
      && o == f.(decisions := f.decisions + f.attempts, elapsedMs := o.elapsedMs)
      && o.elapsedMs + HangsCut(item, budget, 1) <= f.elapsedMs + Spread(item, budget, 1)
      && (jitter == LATE && floorJitter == EARLY ==>
            o.elapsedMs + HangsCut(item, budget, 1) == f.elapsedMs + Spread(item, budget, 1))
  {
    hide RunFrom, BackoffPaid, HangsCut, Spread;
    TimeoutOracleLedgerFrom(item, budget, samples, floorSamples, jitter, draw, floorJitter, floorDraw, 1);
    BackoffsDiffer(item, budget, jitter, draw, floorJitter, floorDraw, 1);
  }

  /** What the tape costs the floor at the least: every attempt it makes, and the
      world's own hints in between. */
  function LeastMs(item: WorkItem, budget: nat, attempt: nat): nat
    requires InBudget(item, budget, attempt)
    decreases budget - attempt
  {
    match ObserveAttempt(item.tape[attempt - 1], None)
    case Completed(elapsed) => elapsed
    case Failed(elapsed, class_, retryAfterMs) =>
      elapsed + if RetryIsLegal(item.effect, class_, attempt, budget)
                then RetryAfter(retryAfterMs) + LeastMs(item, budget, attempt + 1) else 0
  }

  lemma EarlyAttempt(item: WorkItem, budget: nat, samples: Samples, attempt: nat)
    requires InBudget(item, budget, attempt)
    ensures var step := Attempt(item, budget, RetryFloor, TimeoutFloor, samples, 0.0, attempt);
      match ObserveAttempt(item.tape[attempt - 1], None)
      case Completed(elapsed) => step.Finish? && step.outcome.elapsedMs == elapsed
      case Failed(elapsed, class_, retryAfterMs) =>
        var legal := RetryIsLegal(item.effect, class_, attempt, budget);
        && (step.Again? <==> legal)
        && step.outcome.elapsedMs == elapsed + if legal then RetryAfter(retryAfterMs) else 0
  {
    hide BackoffWindow;
  }

  lemma {:induction false} EarlyIsLeast(item: WorkItem, budget: nat, samples: Samples, draw: nat, attempt: nat)
    requires InBudget(item, budget, attempt)
    ensures RunFrom(item, budget, RetryFloor, TimeoutFloor, samples, EARLY, draw, attempt).outcome.elapsedMs
         == LeastMs(item, budget, attempt)
    decreases budget - attempt
  {
    hide RunFrom, Attempt, ObserveAttempt, RetryIsLegal, RetryAfter;
    RunUnfolds(item, budget, RetryFloor, TimeoutFloor, samples, EARLY, draw, attempt);
    EarlyAttempt(item, budget, samples, attempt);
    var step := Attempt(item, budget, RetryFloor, TimeoutFloor, samples, EARLY(draw), attempt);
    if step.Again? {
      EarlyIsLeast(item, budget, samples, draw + step.draws, attempt + 1);
    }
  }

  ghost predicate NeverSlower(item: WorkItem, budget: nat)
    requires Playable(item, budget)
  {
    forall samples: Samples, floorSamples: Samples, jitter: Jitter, draw: nat, floorJitter: Jitter, floorDraw: nat ::
      Uniform(jitter) && Uniform(floorJitter) ==>
      Simulate(item, budget, RetryFloor, TimeoutOracle, samples, jitter, draw).outcome.elapsedMs
      <= Simulate(item, budget, RetryFloor, TimeoutFloor, floorSamples, floorJitter, floorDraw).outcome.elapsedMs
  }

  /** The timeout oracle is no slower than the floor for all jitter of both arms
      exactly when the hangs it cuts make up for the spread of the back-offs. */
  lemma TimeoutOracleNeverSlowerExactly(item: WorkItem, budget: nat)
    requires Playable(item, budget)
    ensures NeverSlower(item, budget) <==> Spread(item, budget, 1) <= HangsCut(item, budget, 1)
  {
    hide Simulate, HangsCut, Spread;
    if Spread(item, budget, 1) <= HangsCut(item, budget, 1) {
      forall samples: Samples, floorSamples: Samples, jitter: Jitter, draw: nat, floorJitter: Jitter, floorDraw: nat
        | Uniform(jitter)
        ensures Simulate(item, budget, RetryFloor, TimeoutOracle, samples, jitter, draw).outcome.elapsedMs
             <= Simulate(item, budget, RetryFloor, TimeoutFloor, floorSamples, floorJitter, floorDraw).outcome.elapsedMs
      {
        TimeoutOracleGap(item, budget, samples, floorSamples, jitter, draw, floorJitter, floorDraw);
      }
    } else {
      TimeoutOracleGap(item, budget, [], [], LATE, 0, EARLY, 0);
    }
  }

  /** A fault the floor retries and no hang: the timeout oracle can lose. */
  lemma TimeoutOracleCanBeSlower(latencyMs: nat, costUsd: real)
    requires costUsd >= 0.0
    ensures var fault, success := AttemptTruth(Failure(Transient, None), latencyMs, costUsd), AttemptTruth(Success, latencyMs, costUsd);
      var item := WorkItem(Idempotent, 0, [fault, success, success]);
      Playable(item, MAX_ATTEMPTS) && !NeverSlower(item, MAX_ATTEMPTS)
  {
    hide NeverSlower;
    var fault, success := AttemptTruth(Failure(Transient, None), latencyMs, costUsd), AttemptTruth(Success, latencyMs, costUsd);
    var item := WorkItem(Idempotent, 0, [fault, success, success]);
    TimeoutOracleNeverSlowerExactly(item, MAX_ATTEMPTS);
    assert Pow2(0) == 1;
    assert Spread(item, MAX_ATTEMPTS, 2) == 0 && Spread(item, MAX_ATTEMPTS, 1) == 999;
    assert HangsCut(item, MAX_ATTEMPTS, 2) == 0 && HangsCut(item, MAX_ATTEMPTS, 1) == 0;
  }
}
