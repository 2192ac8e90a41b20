/**
 What a work item is billed, read off its tape: for every pair of arms the cost,
 the decisions and the time of a run are those of the attempts it made and the
 pauses between them, and a workload's account is the sum of its items'.
 */
module Bills {
  import opened Numbers
  import opened Retry
  import opened Statistics
  import opened Tallies
  import opened WorkItems
  import opened Workloads
  import opened Wrappers

  // ------------------------------------------------------------------
  // One attempt.
  // ------------------------------------------------------------------

  /** The heuristic's fixed delays, by class of failure. */
  ghost const HEURISTIC_DELAYS: map<ErrorClass, nat> := map[
    Transient := 150, RateLimited := 1_000, Timeout := 2_000, DependencyFailure := 1_000,
    ResourceExhausted := 5_000, Unknown := 10_000, InvalidInput := 0, Cancelled := 0]

  /** How long the arm lets the attempt go on, if it says so at all. The oracle
      knows; the heuristic starts with thirty seconds and then goes by five quarters of
      the 99th percentile of what it has seen complete. */
  ghost function Allowed(arm: TimeoutArm, truth: AttemptTruth, seen: seq<nat>): Option<nat> {
    match arm
    case TimeoutFloor => None
    case TimeoutOracle => Some(if truth.kind == Hang then 100 else truth.latencyMs)
    case TimeoutHeuristic =>
      Some(if |seen| < 8 then 30_000 else Max(100, Min(5 * Percentile(seen, 99) / 4, 300_000)))
  }

  ghost function Seen(item: WorkItem, samples: Samples): seq<nat> {
    if item.callee < |samples| then samples[item.callee] else []
  }

  ghost predicate Succeeds(truth: AttemptTruth, allowed: Option<nat>) {
    truth.kind == Success && (allowed == None || truth.latencyMs <= allowed.value)
  }

  /** The attempt takes its own time or what it is allowed; a hang takes all it is
      allowed, or the whole lease. */
  ghost function SpentMs(truth: AttemptTruth, allowed: Option<nat>): nat {
    if truth.kind == Hang then (if allowed.Some? then allowed.value else 300_000)
    else if truth.kind == Success && allowed.Some? then Min(truth.latencyMs, allowed.value)
    else truth.latencyMs
  }

  /** What a failed attempt is taken for. */
  ghost function FaultOf(truth: AttemptTruth, allowed: Option<nat>): ErrorClass {
    if truth.kind.Failure? then truth.kind.errorClass
    else if allowed.Some? then Timeout
    else Unknown
  }

  ghost function HintMs(truth: AttemptTruth): nat {
    if truth.kind.Failure? && truth.kind.retryAfterMs.Some? then truth.kind.retryAfterMs.value else 0
  }

  /** The pause after failed attempt number `n`. */
  ghost function PauseMs(arm: RetryArm, truth: AttemptTruth, fault: ErrorClass, n: nat, uniform: real): nat {
    match arm
    case RetryFloor => Max(BackoffDelay(n, uniform, 1_000, 300_000), HintMs(truth))
    case RetryOracle => HintMs(truth)
    case RetryHeuristic => (if fault in HEURISTIC_DELAYS then HEURISTIC_DELAYS[fault] else 0) + HintMs(truth)
  }

  lemma BoundIsAllowed(item: WorkItem, timeout: TimeoutArm, truth: AttemptTruth, samples: Samples)
    requires timeout.TimeoutHeuristic? ==> item.callee < |samples|
    ensures Bound(timeout, truth, samples, item.callee) == Allowed(timeout, truth, Seen(item, samples))
  {
    hide Percentile;
  }

  lemma ObservedIsSpent(truth: AttemptTruth, allowed: Option<nat>)
    ensures var o := ObserveAttempt(truth, allowed);
      && o.elapsedMs == SpentMs(truth, allowed) && (o.Completed? <==> Succeeds(truth, allowed))
      && (o.Failed? ==> o.errorClass == FaultOf(truth, allowed) && RetryAfter(o.retryAfterMs) == HintMs(truth))
  {
  }

  lemma PauseIsTaken(item: WorkItem, budget: nat, truth: AttemptTruth, fault: ErrorClass, n: nat, hint: Option<nat>,
                     uniform: real)
    requires RetryIsLegal(item.effect, fault, n, budget) && RetryAfter(hint) == HintMs(truth)
    ensures FloorDelay(item, budget, fault, n, hint, uniform) == PauseMs(RetryFloor, truth, fault, n, uniform)
    ensures HeuristicBackoff(fault, hint) == PauseMs(RetryHeuristic, truth, fault, n, uniform)
  {
    hide BackoffDelay, HintMs;
  }

  /** One attempt, spelled out: when it ends the run, and what it adds to the bill. */
  lemma AttemptIsBilled(item: WorkItem, budget: nat, retry: RetryArm, timeout: TimeoutArm, samples: Samples, uniform: real,
                        attempt: nat)
    requires InBudget(item, budget, attempt) && (timeout.TimeoutHeuristic? ==> item.callee < |samples|)
    ensures var truth := item.tape[attempt - 1];
      var allowed := Allowed(timeout, truth, Seen(item, samples));
      var fault := FaultOf(truth, allowed);
      var worth := item.effect.FreelyRepeatable() && fault != InvalidInput && fault != Cancelled;
      var step := Attempt(item, budget, retry, timeout, samples, uniform, attempt);
      var o := step.outcome;
      && o.attempts == 1 && o.costUsd == truth.costUsd
      && (o.completed <==> Succeeds(truth, allowed))
      && o.decisions == (if o.completed then 0 else 1) + (if timeout.TimeoutFloor? then 0 else 1)
      && (step.Again? <==> && !o.completed && worth && attempt < budget
                           && (retry.RetryOracle? ==> exists k :: attempt <= k < budget && item.tape[k].kind == Success))
      && o.elapsedMs == SpentMs(truth, allowed) + (if step.Again? then PauseMs(retry, truth, fault, attempt, uniform) else 0)
      && (step.Again? ==> step.draws == if retry.RetryFloor? then 1 else 0)
      && (step.Finish? ==>
            && (o.deadLettered <==> !o.completed && worth && attempt >= budget)
            && step.samples == if o.completed && timeout.TimeoutHeuristic? then Observe(samples, item.callee, truth.latencyMs)
                               else samples)
  {
    hide Bound, Allowed, ObserveAttempt, SpentMs, Succeeds, FaultOf, HintMs, RetryAfter, FloorDelay, HeuristicBackoff, Observe;
    var truth := item.tape[attempt - 1];
    var allowed := Allowed(timeout, truth, Seen(item, samples));
    BoundIsAllowed(item, timeout, truth, samples);
    ObservedIsSpent(truth, allowed);
    var o := ObserveAttempt(truth, allowed);
    if o.Failed? && RetryIsLegal(item.effect, o.errorClass, attempt, budget) {
      PauseIsTaken(item, budget, truth, o.errorClass, attempt, o.retryAfterMs, uniform);
    }
  }

  // ------------------------------------------------------------------
  // A whole run.
  // ------------------------------------------------------------------

  /** The cost of a stretch of the tape. */
  ghost function CostOf(tape: seq<AttemptTruth>): real {
    if tape == [] then 0.0 else tape[0].costUsd + CostOf(tape[1..])
  }

  /** The time the attempts take, `n` of them from `attempt` on. */
  ghost function AttemptsMs(item: WorkItem, timeout: TimeoutArm, seen: seq<nat>, attempt: nat, n: nat): nat
    requires 1 <= attempt && attempt - 1 + n <= |item.tape|
    decreases n
  {
    if n == 0 then 0
    else
      var truth := item.tape[attempt - 1];
      SpentMs(truth, Allowed(timeout, truth, seen)) + AttemptsMs(item, timeout, seen, attempt + 1, n - 1)
  }

  /** The pauses between them; the floor takes a draw for each. */
  ghost function PausesMs(item: WorkItem, retry: RetryArm, timeout: TimeoutArm, seen: seq<nat>, jitter: Jitter, draw: nat,
                    attempt: nat, n: nat): nat
    requires 1 <= attempt && attempt - 1 + n <= |item.tape|
    decreases n
  {
    if n <= 1 then 0
    else
      var truth := item.tape[attempt - 1];
      PauseMs(retry, truth, FaultOf(truth, Allowed(timeout, truth, seen)), attempt, jitter(draw))
      + PausesMs(item, retry, timeout, seen, jitter, draw + 1, attempt + 1, n - 1)
  }

  /** The bill of a run that made `o.attempts` attempts from `attempt` on. */
  ghost predicate Billed(item: WorkItem, retry: RetryArm, timeout: TimeoutArm, samples: Samples, jitter: Jitter, draw: nat,
                         attempt: nat, o: ItemOutcome, draws: nat)
  {
    && 1 <= attempt && 1 <= o.attempts && attempt - 1 + o.attempts <= |item.tape|
    && o.costUsd == CostOf(item.tape[attempt - 1..attempt - 1 + o.attempts])
    && o.decisions == o.attempts - Count(o.completed) + (if timeout.TimeoutFloor? then 0 else o.attempts)
    && o.elapsedMs == AttemptsMs(item, timeout, Seen(item, samples), attempt, o.attempts)
                      + PausesMs(item, retry, timeout, Seen(item, samples), jitter, draw, attempt, o.attempts)
    && draws == if retry.RetryFloor? then o.attempts - 1 else 0
  }

  lemma CostOfOneMore(tape: seq<AttemptTruth>, i: nat, n: nat)
    requires i + 1 + n <= |tape|
    ensures CostOf(tape[i..i + 1 + n]) == tape[i].costUsd + CostOf(tape[i + 1..i + 1 + n])
  {
    assert tape[i..i + 1 + n][1..] == tape[i + 1..i + 1 + n];
  }

  /** What one attempt that the run goes on from adds to the bill. */
  ghost predicate BilledOnce(item: WorkItem, retry: RetryArm, timeout: TimeoutArm, samples: Samples, uniform: real,
                             attempt: nat, o: ItemOutcome, draws: nat)
  {
    && 1 <= attempt <= |item.tape| && !o.completed && o.attempts == 1
    && var truth := item.tape[attempt - 1];
      var allowed := Allowed(timeout, truth, Seen(item, samples));
      && o.costUsd == truth.costUsd
      && o.decisions == 1 + (if timeout.TimeoutFloor? then 0 else 1)
      && o.elapsedMs == SpentMs(truth, allowed) + PauseMs(retry, truth, FaultOf(truth, allowed), attempt, uniform)
      && draws == if retry.RetryFloor? then 1 else 0
  }

  lemma OneMoreBilled(item: WorkItem, retry: RetryArm, timeout: TimeoutArm, samples: Samples, jitter: Jitter, draw: nat,
                      attempt: nat, first: ItemOutcome, draws: nat, rest: ItemOutcome, restDraws: nat)
    requires BilledOnce(item, retry, timeout, samples, jitter(draw), attempt, first, draws)
    requires Billed(item, retry, timeout, samples, jitter, draw + draws, attempt + 1, rest, restDraws)
    ensures Billed(item, retry, timeout, samples, jitter, draw, attempt, Then(first, rest), draws + restDraws)
  {
    hide SpentMs, PauseMs, Allowed, FaultOf, CostOf, Seen, AttemptsMs, PausesMs;
    var n, seen := rest.attempts, Seen(item, samples);
    CostOfOneMore(item.tape, attempt - 1, n);
    TimesOfOneMore(item, retry, timeout, seen, jitter, draw, attempt, n);
    if !retry.RetryFloor? {
      PausesIgnoreDraws(item, retry, timeout, seen, jitter, draw, draw + 1, attempt + 1, n);
    }
  }

  lemma TimesOfOneMore(item: WorkItem, retry: RetryArm, timeout: TimeoutArm, seen: seq<nat>, jitter: Jitter, draw: nat,
                       attempt: nat, n: nat)
    requires 1 <= attempt && 1 <= n && attempt + n <= |item.tape|
    ensures var truth := item.tape[attempt - 1];
      var allowed := Allowed(timeout, truth, seen);
      && AttemptsMs(item, timeout, seen, attempt, 1 + n) == SpentMs(truth, allowed) + AttemptsMs(item, timeout, seen, attempt + 1, n)
      && PausesMs(item, retry, timeout, seen, jitter, draw, attempt, 1 + n)
         == PauseMs(retry, truth, FaultOf(truth, allowed), attempt, jitter(draw))
            + PausesMs(item, retry, timeout, seen, jitter, draw + 1, attempt + 1, n)
  {
    hide SpentMs, PauseMs, Allowed, FaultOf;
  }

  lemma LastIsBilled(item: WorkItem, retry: RetryArm, timeout: TimeoutArm, samples: Samples, jitter: Jitter, draw: nat,
                     attempt: nat, o: ItemOutcome)
    requires 1 <= attempt <= |item.tape| && o.attempts == 1 && o.costUsd == item.tape[attempt - 1].costUsd
    requires o.decisions == (if o.completed then 0 else 1) + (if timeout.TimeoutFloor? then 0 else 1)
    requires var truth := item.tape[attempt - 1]; o.elapsedMs == SpentMs(truth, Allowed(timeout, truth, Seen(item, samples)))
    ensures Billed(item, retry, timeout, samples, jitter, draw, attempt, o, 0)
  {
    hide SpentMs, PauseMs, Allowed, FaultOf, CostOf, Seen;
    CostOfOneMore(item.tape, attempt - 1, 0);
    NoCost();
    assert item.tape[attempt..attempt] == [];
  }

  lemma {:induction false} RunIsBilled(item: WorkItem, budget: nat, retry: RetryArm, timeout: TimeoutArm, samples: Samples,
                                       jitter: Jitter, draw: nat, attempt: nat)
    requires InBudget(item, budget, attempt) && (timeout.TimeoutHeuristic? ==> item.callee < |samples|)
    ensures var run := RunFrom(item, budget, retry, timeout, samples, jitter, draw, attempt);
      Billed(item, retry, timeout, samples, jitter, draw, attempt, run.outcome, run.draws)
    decreases budget - attempt
  {
    hide RunFrom, Attempt, SpentMs, PauseMs, Allowed, FaultOf, Succeeds, CostOf, Seen, RetryIsLegal, Billed;
    RunUnfolds(item, budget, retry, timeout, samples, jitter, draw, attempt);
    AttemptIsBilled(item, budget, retry, timeout, samples, jitter(draw), attempt);
    var step := Attempt(item, budget, retry, timeout, samples, jitter(draw), attempt);
    if step.Again? {
      RunIsBilled(item, budget, retry, timeout, samples, jitter, draw + step.draws, attempt + 1);
      var rest := RunFrom(item, budget, retry, timeout, samples, jitter, draw + step.draws, attempt + 1);
      OneMoreBilled(item, retry, timeout, samples, jitter, draw, attempt, step.outcome, step.draws, rest.outcome, rest.draws);
    } else {
      LastIsBilled(item, retry, timeout, samples, jitter, draw, attempt, step.outcome);
    }
  }

  lemma NoCost()
    ensures CostOf([]) == 0.0
  {
  }

  lemma {:induction false} PausesIgnoreDraws(item: WorkItem, retry: RetryArm, timeout: TimeoutArm, seen: seq<nat>,
                                             jitter: Jitter, draw: nat, other: nat, attempt: nat, n: nat)
    requires !retry.RetryFloor? && 1 <= attempt && attempt - 1 + n <= |item.tape|
    ensures PausesMs(item, retry, timeout, seen, jitter, draw, attempt, n)
         == PausesMs(item, retry, timeout, seen, jitter, other, attempt, n)
    decreases n
  {
    hide FaultOf, Allowed;
    if n > 1 {
      PausesIgnoreDraws(item, retry, timeout, seen, jitter, draw + 1, other + 1, attempt + 1, n - 1);
    }
  }

  /** The attempts of a run: it goes on past each but the last, and how the last one
      ends is how the run does. */
  ghost predicate Ended(item: WorkItem, budget: nat, timeout: TimeoutArm, samples: Samples, last: nat, o: ItemOutcome, after: Samples)
  {
    && 1 <= last <= |item.tape|
    && var truth := item.tape[last - 1];
      var allowed := Allowed(timeout, truth, Seen(item, samples));
      var fault := FaultOf(truth, allowed);
      && (o.completed <==> Succeeds(truth, allowed))
      && (o.deadLettered <==>
            !o.completed && item.effect.FreelyRepeatable() && fault != InvalidInput && fault != Cancelled && last >= budget)
      && (timeout.TimeoutHeuristic? ==> item.callee < |samples|)
      && after == if o.completed && timeout.TimeoutHeuristic? then Observe(samples, item.callee, truth.latencyMs) else samples
  }

  lemma {:induction false} RunEnds(item: WorkItem, budget: nat, retry: RetryArm, timeout: TimeoutArm, samples: Samples,
                                   jitter: Jitter, draw: nat, attempt: nat)
    requires InBudget(item, budget, attempt) && (timeout.TimeoutHeuristic? ==> item.callee < |samples|)
    ensures var run := RunFrom(item, budget, retry, timeout, samples, jitter, draw, attempt);
      Ended(item, budget, timeout, samples, attempt - 1 + run.outcome.attempts, run.outcome, run.samples)
    decreases budget - attempt
  {
    hide RunFrom, Attempt, SpentMs, PauseMs, Allowed, FaultOf, Succeeds, Seen, RetryIsLegal, Observe;
    RunUnfolds(item, budget, retry, timeout, samples, jitter, draw, attempt);
    AttemptIsBilled(item, budget, retry, timeout, samples, jitter(draw), attempt);
    var step := Attempt(item, budget, retry, timeout, samples, jitter(draw), attempt);
    if step.Again? {
      RunEnds(item, budget, retry, timeout, samples, jitter, draw + step.draws, attempt + 1);
    }
  }

  /** The whole bill of an item, for every pair of arms and every jitter. */
  lemma ItemIsBilled(item: WorkItem, budget: nat, retry: RetryArm, timeout: TimeoutArm, samples: Samples, jitter: Jitter, draw: nat)
    requires Recorded(item, budget) && (timeout.TimeoutHeuristic? ==> item.callee < |samples|)
    ensures var run := Simulate(item, budget, retry, timeout, samples, jitter, draw);
      && Billed(item, retry, timeout, samples, jitter, draw, 1, run.outcome, run.draws)
      && run.outcome.costUsd == CostOf(item.tape[..run.outcome.attempts])
      && Ended(item, budget, timeout, samples, run.outcome.attempts, run.outcome, run.samples)
  {
    hide RunFrom, Billed, Ended, CostOf;
    RunIsBilled(item, budget, retry, timeout, samples, jitter, draw, 1);
    RunEnds(item, budget, retry, timeout, samples, jitter, draw, 1);
    var o := Simulate(item, budget, retry, timeout, samples, jitter, draw).outcome;
    FirstStretch(item, retry, timeout, samples, jitter, draw, o, Simulate(item, budget, retry, timeout, samples, jitter, draw).draws);
  }

  lemma FirstStretch(item: WorkItem, retry: RetryArm, timeout: TimeoutArm, samples: Samples, jitter: Jitter, draw: nat,
                     o: ItemOutcome, draws: nat)
    requires Billed(item, retry, timeout, samples, jitter, draw, 1, o, draws)
    ensures o.attempts <= |item.tape| && o.costUsd == CostOf(item.tape[..o.attempts])
  {
    hide CostOf;
    assert item.tape[0..o.attempts] == item.tape[..o.attempts];
  }

  // ------------------------------------------------------------------
  // Accounts.
  // ------------------------------------------------------------------

  /** The runs of a queue's items, in order, each with the draws and samples that the
      ones before it have left. */
  ghost function RunsOf(items: seq<WorkItem>, budget: nat, callees: nat, retry: RetryArm, timeout: TimeoutArm, jitter: Jitter): (runs: seq<ItemRun>)
    requires forall i :: 0 <= i < |items| ==> Recorded(items[i], budget) && items[i].callee < callees
    ensures |runs| == |items|
  {
    if items == [] then []
    else
      var n := |items| - 1;
      var before := RunItems(items[..n], budget, callees, retry, timeout, jitter);
      RunsOf(items[..n], budget, callees, retry, timeout, jitter)
      + [RunItem(items[n], budget, retry, timeout, before.samples, jitter, before.draw)]
  }

  ghost function OneIfCompleted(r: ItemRun): nat { Count(r.outcome.completed) }
  ghost function OneIfDead(r: ItemRun): nat { Count(r.outcome.deadLettered) }
  ghost function AttemptsOf(r: ItemRun): nat { r.outcome.attempts }
  ghost function DecisionsOf(r: ItemRun): nat { r.outcome.decisions }
  ghost function DrawsOf(r: ItemRun): nat { r.draws }

  ghost function CostOfRuns(runs: seq<ItemRun>): real {
    if runs == [] then 0.0 else CostOfRuns(runs[..|runs| - 1]) + runs[|runs| - 1].outcome.costUsd
  }

  /** The account of a queue is the sum of its items' bills, and the draws are taken in
      order. */
  lemma {:induction false} QueueIsBilled(items: seq<WorkItem>, budget: nat, callees: nat, retry: RetryArm, timeout: TimeoutArm,
                                         jitter: Jitter)
    requires forall i :: 0 <= i < |items| ==> Recorded(items[i], budget) && items[i].callee < callees
    ensures var run := RunItems(items, budget, callees, retry, timeout, jitter);
      var runs := RunsOf(items, budget, callees, retry, timeout, jitter);
      && run.stats.items == |items|
      && run.stats.completed == Sum(runs, OneIfCompleted) && run.stats.deadLettered == Sum(runs, OneIfDead)
      && run.stats.attempts == Sum(runs, AttemptsOf) && run.stats.decisions == Sum(runs, DecisionsOf)
      && run.stats.wastedAttempts + run.stats.completed == run.stats.attempts
      && run.stats.costUsd == CostOfRuns(runs)
      && run.stats.latencies == seq(|runs|, i requires 0 <= i < |runs| => runs[i].outcome.elapsedMs)
      && run.draw == Sum(runs, DrawsOf)
  {
    hide Simulate;
    if items != [] {
      var n := |items| - 1;
      QueueIsBilled(items[..n], budget, callees, retry, timeout, jitter);
      var runs := RunsOf(items, budget, callees, retry, timeout, jitter);
      assert runs[..n] == RunsOf(items[..n], budget, callees, retry, timeout, jitter);
    }
  }

  // ------------------------------------------------------------------
  // Recordings of several calls.
  // ------------------------------------------------------------------

  ghost function ElapsedOf(r: ItemRun): nat { r.outcome.elapsedMs }

  /** The runs of the calls that are made: those up to the first that fails. */
  ghost function CallRuns(calls: seq<WorkItem>, budget: nat, retry: RetryArm, timeout: TimeoutArm, jitter: Jitter, start: CallsRun)
    : (runs: seq<ItemRun>)
    requires CallsOk(calls, budget) && |start.samples| == LLM_CALLEES
  {
    if calls == [] then []
    else
      var n := |calls| - 1;
      var before := RunCalls(calls[..n], budget, retry, timeout, jitter, start);
      CallRuns(calls[..n], budget, retry, timeout, jitter, start)
      + if before.completed then [RunItem(calls[n], budget, retry, timeout, before.samples, jitter, before.draw)] else []
  }

  ghost predicate AllCompleted(runs: seq<ItemRun>) {
    forall i :: 0 <= i < |runs| ==> runs[i].outcome.completed
  }

  /** A failed call is the last one made. */
  ghost predicate StopsAtFailure(calls: seq<WorkItem>, runs: seq<ItemRun>) {
    && |runs| <= |calls| && (|runs| < |calls| ==> runs != [] && !runs[|runs| - 1].outcome.completed)
    && forall i :: 0 <= i < |runs| - 1 ==> runs[i].outcome.completed
  }

  ghost predicate EndsDead(runs: seq<ItemRun>) {
    runs != [] && !runs[|runs| - 1].outcome.completed && runs[|runs| - 1].outcome.deadLettered
  }

  /** What the calls made have added to what was there before. */
  ghost predicate CallsBilled(start: CallsRun, r: CallsRun, runs: seq<ItemRun>) {
    && (r.completed <==> AllCompleted(runs)) && (r.deadLettered <==> EndsDead(runs))
    && r.latencyMs == start.latencyMs + Sum(runs, ElapsedOf) && r.draw == start.draw + Sum(runs, DrawsOf)
    && r.samples == (if runs == [] then start.samples else runs[|runs| - 1].samples)
    && r.stats == start.stats.(
         attempts := start.stats.attempts + Sum(runs, AttemptsOf),
         wastedAttempts := r.stats.wastedAttempts,
         decisions := start.stats.decisions + Sum(runs, DecisionsOf),
         costUsd := start.stats.costUsd + CostOfRuns(runs))
    && r.stats.wastedAttempts + Sum(runs, OneIfCompleted) == start.stats.wastedAttempts + Sum(runs, AttemptsOf)
  }

  /** A recording is its calls up to the first that fails, and is billed for those. */
  lemma {:induction false} RecordingIsBilled(calls: seq<WorkItem>, budget: nat, retry: RetryArm, timeout: TimeoutArm,
                                             jitter: Jitter, start: CallsRun)
    requires CallsOk(calls, budget) && |start.samples| == LLM_CALLEES && start.completed && !start.deadLettered
    ensures var runs := CallRuns(calls, budget, retry, timeout, jitter, start);
      && StopsAtFailure(calls, runs)
      && CallsBilled(start, RunCalls(calls, budget, retry, timeout, jitter, start), runs)
  {
    hide Simulate;
    if calls != [] {
      var n := |calls| - 1;
      RecordingIsBilled(calls[..n], budget, retry, timeout, jitter, start);
      var before := RunCalls(calls[..n], budget, retry, timeout, jitter, start);
      var sofar := CallRuns(calls[..n], budget, retry, timeout, jitter, start);
      if before.completed {
        var run := RunItem(calls[n], budget, retry, timeout, before.samples, jitter, before.draw);
        assert (sofar + [run])[..|sofar|] == sofar;
        OneMoreCall(start, before, sofar, run);
      } else {
        assert sofar + [] == sofar;
      }
    }
  }

  lemma OneMoreCall(start: CallsRun, before: CallsRun, sofar: seq<ItemRun>, run: ItemRun)
    requires CallsBilled(start, before, sofar) && before.completed && run.outcome.attempts >= 1
    ensures CallsBilled(start, AfterCall(before, run), sofar + [run])
  {
    var runs := sofar + [run];
    assert runs[..|sofar|] == sofar && runs[|sofar|] == run;
  }

  /** The runs of every recording, each from where the draws of the ones before it end
      and with nothing seen yet. */
  ghost function Recordings(fixtures: seq<seq<WorkItem>>, budget: nat, retry: RetryArm, timeout: TimeoutArm, jitter: Jitter)
    : (recordings: seq<seq<ItemRun>>)
    requires forall i :: 0 <= i < |fixtures| ==> CallsOk(fixtures[i], budget)
    ensures |recordings| == |fixtures|
  {
    if fixtures == [] then []
    else
      var n := |fixtures| - 1;
      var (stats, draw) := RunFixtures(fixtures[..n], budget, retry, timeout, jitter);
      Recordings(fixtures[..n], budget, retry, timeout, jitter)
      + [CallRuns(fixtures[n], budget, retry, timeout, jitter, CallsRun(stats, 0, true, false, draw, [[], []]))]
  }

  ghost function OneIfAllCompleted(runs: seq<ItemRun>): nat { Count(AllCompleted(runs)) }
  ghost function OneIfEndsDead(runs: seq<ItemRun>): nat { Count(EndsDead(runs)) }
  ghost function AllAttempts(runs: seq<ItemRun>): nat { Sum(runs, AttemptsOf) }
  ghost function AllDecisions(runs: seq<ItemRun>): nat { Sum(runs, DecisionsOf) }
  ghost function AllDraws(runs: seq<ItemRun>): nat { Sum(runs, DrawsOf) }
  ghost function CallsCompleted(runs: seq<ItemRun>): nat { Sum(runs, OneIfCompleted) }

  ghost function CostOfRecordings(recordings: seq<seq<ItemRun>>): real {
    if recordings == [] then 0.0
    else CostOfRecordings(recordings[..|recordings| - 1]) + CostOfRuns(recordings[|recordings| - 1])
  }

  ghost predicate FixturesBilled(stats: ArmStats, draw: nat, recordings: seq<seq<ItemRun>>) {
    && stats.items == |recordings| == |stats.latencies|
    && stats.completed == Sum(recordings, OneIfAllCompleted) && stats.deadLettered == Sum(recordings, OneIfEndsDead)
    && stats.attempts == Sum(recordings, AllAttempts) && stats.decisions == Sum(recordings, AllDecisions)
    && stats.wastedAttempts + Sum(recordings, CallsCompleted) == stats.attempts
    && stats.costUsd == CostOfRecordings(recordings) && draw == Sum(recordings, AllDraws)
    && forall i :: 0 <= i < |recordings| ==> stats.latencies[i] == Sum(recordings[i], ElapsedOf)
  }

  /** The account of the recordings counts each once, as completed when all its calls
      are, and is otherwise the sum over the calls made. */
  lemma {:induction false} FixturesAreBilled(fixtures: seq<seq<WorkItem>>, budget: nat, retry: RetryArm, timeout: TimeoutArm,
                                             jitter: Jitter)
    requires forall i :: 0 <= i < |fixtures| ==> CallsOk(fixtures[i], budget)
    ensures var (stats, draw) := RunFixtures(fixtures, budget, retry, timeout, jitter);
      FixturesBilled(stats, draw, Recordings(fixtures, budget, retry, timeout, jitter))
  {
    hide RunCalls, CallRuns, CallsBilled, FixturesBilled;
    if fixtures == [] {
      NoneBilled();
    } else {
      var n := |fixtures| - 1;
      FixturesAreBilled(fixtures[..n], budget, retry, timeout, jitter);
      var (stats, draw) := RunFixtures(fixtures[..n], budget, retry, timeout, jitter);
      var start := StartRun(stats, draw);
      assert start == CallsRun(stats, 0, true, false, draw, [[], []]);
      RecordingIsBilled(fixtures[n], budget, retry, timeout, jitter, start);
      OneMoreRecording(stats, draw, Recordings(fixtures[..n], budget, retry, timeout, jitter),
                       RunCalls(fixtures[n], budget, retry, timeout, jitter, start),
                       CallRuns(fixtures[n], budget, retry, timeout, jitter, start));
    }
  }

  lemma NoneBilled()
    ensures FixturesBilled(NO_STATS, 0, [])
  {
  }

  lemma OneMoreRecording(stats: ArmStats, draw: nat, recordings: seq<seq<ItemRun>>, r: CallsRun, runs: seq<ItemRun>)
    requires FixturesBilled(stats, draw, recordings)
    requires CallsBilled(CallsRun(stats, 0, true, false, draw, [[], []]), r, runs)
    ensures FixturesBilled(EndRun(r), r.draw, recordings + [runs])
  {
    hide AllCompleted, EndsDead;
    var more := recordings + [runs];
    assert more[..|recordings|] == recordings && more[|recordings|] == runs;
  }
}
