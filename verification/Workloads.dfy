/**
 Whole workloads under one arm: a queue of independent items, and recorded
 multi-call runs that stop at their first failed call.
 */
module Workloads {
  import opened Statistics
  import opened WorkItems

  datatype ArmStats = ArmStats(
    items: nat,
    completed: nat,
    deadLettered: nat,
    attempts: nat,
    wastedAttempts: nat,
    decisions: nat,
    costUsd: real,
    latencies: seq<nat>)

  const NO_STATS := ArmStats(0, 0, 0, 0, 0, 0, 0.0, [])

  function Count(b: bool): nat {
    if b then 1 else 0
  }

  ghost predicate PlayableAll(items: seq<WorkItem>, budget: nat) {
    forall i :: 0 <= i < |items| ==> Playable(items[i], budget)
  }

  ghost predicate CalleesKnown(items: seq<WorkItem>, callees: nat) {
    forall i :: 0 <= i < |items| ==> items[i].callee < callees
  }

  /** Both arms faced the same items; the better one completed the same ones
      and is nowhere dearer, item by item in latency. */
  ghost predicate StatsDominate(better: ArmStats, worse: ArmStats) {
    && better.items == worse.items
    && better.completed == worse.completed
    && better.attempts <= worse.attempts
    && better.wastedAttempts <= worse.wastedAttempts
    && better.decisions <= worse.decisions
    && better.costUsd <= worse.costUsd
    && NoneLater(better.latencies, worse.latencies)
  }

  /** Item-wise dominance carries over to every reported latency figure. */
  lemma DominanceOfReports(better: ArmStats, worse: ArmStats, p: nat)
    requires StatsDominate(better, worse)
    ensures Percentile(better.latencies, p) <= Percentile(worse.latencies, p)
    ensures |better.latencies| == |worse.latencies| && Total(better.latencies) <= Total(worse.latencies)
  {
    PercentileIsMonotone(better.latencies, worse.latencies, p);
    TotalIsMonotone(better.latencies, worse.latencies);
  }

  // ------------------------------------------------------------------
  // A queue of independent items.
  // ------------------------------------------------------------------

  function Record(stats: ArmStats, outcome: ItemOutcome): ArmStats
    requires outcome.attempts >= 1
  {
    ArmStats(stats.items + 1,
             stats.completed + Count(outcome.completed),
             stats.deadLettered + Count(outcome.deadLettered),
             stats.attempts + outcome.attempts,
             stats.wastedAttempts + outcome.attempts - Count(outcome.completed),
             stats.decisions + outcome.decisions,
             stats.costUsd + outcome.costUsd,
             stats.latencies + [outcome.elapsedMs])
  }

  datatype ArmRun = ArmRun(stats: ArmStats, draw: nat, samples: Samples)

  function RunItem(item: WorkItem, budget: nat, retry: RetryArm, timeout: TimeoutArm, samples: Samples, jitter: Jitter, draw: nat): (run: ItemRun)
    requires Recorded(item, budget) && item.callee < |samples|
    ensures run.outcome.attempts >= 1 && |run.samples| == |samples|
  {
    RunAttempts(item, budget, retry, timeout, samples, jitter, draw, 1);
    Simulate(item, budget, retry, timeout, samples, jitter, draw)
  }

  function RunItems(items: seq<WorkItem>, budget: nat, callees: nat, retry: RetryArm, timeout: TimeoutArm, jitter: Jitter): (run: ArmRun)
    requires forall i :: 0 <= i < |items| ==> Recorded(items[i], budget) && items[i].callee < callees
    ensures |run.samples| == callees
  {
    if items == [] then ArmRun(NO_STATS, 0, seq(callees, c => []))
    else
      var n := |items| - 1;
      var before := RunItems(items[..n], budget, callees, retry, timeout, jitter);
      var run := RunItem(items[n], budget, retry, timeout, before.samples, jitter, before.draw);
      ArmRun(Record(before.stats, run.outcome), before.draw + run.draws, run.samples)
  }

  lemma NoItems(budget: nat, callees: nat, retry: RetryArm, timeout: TimeoutArm, jitter: Jitter)
    ensures RunItems([], budget, callees, retry, timeout, jitter) == ArmRun(NO_STATS, 0, seq(callees, c => []))
  {
  }

  lemma NextItem(items: seq<WorkItem>, budget: nat, i: nat, callees: nat, retry: RetryArm, timeout: TimeoutArm, jitter: Jitter)
    requires forall j :: 0 <= j < |items| ==> Recorded(items[j], budget) && items[j].callee < callees
    requires i < |items|
    ensures var before := RunItems(items[..i], budget, callees, retry, timeout, jitter);
      var run := RunItem(items[i], budget, retry, timeout, before.samples, jitter, before.draw);
      RunItems(items[..i + 1], budget, callees, retry, timeout, jitter)
      == ArmRun(Record(before.stats, run.outcome), before.draw + run.draws, run.samples)
  {
    hide Simulate, Record;
    assert items[..i + 1][..i] == items[..i];
  }

  method RunArm(items: seq<WorkItem>, budget: nat, callees: nat, retry: RetryArm, timeout: TimeoutArm, jitter: Jitter) returns (stats: ArmStats)
    requires forall i :: 0 <= i < |items| ==> Recorded(items[i], budget) && items[i].callee < callees
    ensures stats == RunItems(items, budget, callees, retry, timeout, jitter).stats
    ensures stats.items == |items| && stats.attempts == stats.completed + stats.wastedAttempts
  {
    hide Simulate, RunItems;
    stats := NO_STATS;
    var samples: Samples := seq(callees, c => []);
    var draw: nat := 0;
    NoItems(budget, callees, retry, timeout, jitter);
    for i := 0 to |items|
      invariant ArmRun(stats, draw, samples) == RunItems(items[..i], budget, callees, retry, timeout, jitter)
      invariant stats.items == i && stats.attempts == stats.completed + stats.wastedAttempts
    {
      NextItem(items, budget, i, callees, retry, timeout, jitter);
      var run := SimulateItem(items[i], budget, retry, timeout, samples, jitter, draw);
      stats := Record(stats, run.outcome);
      draw := draw + run.draws;
      samples := run.samples;
    }
    assert items[..|items|] == items;
  }

  /** Over any queue, any tapes and any two jitter streams the retry oracle
      dominates the floor. */
  lemma {:induction false} RetryOracleDominatesQueue(items: seq<WorkItem>, budget: nat, callees: nat, jitter: Jitter, floorJitter: Jitter)
    requires PlayableAll(items, budget) && CalleesKnown(items, callees)
    ensures StatsDominate(RunItems(items, budget, callees, RetryOracle, TimeoutFloor, jitter).stats,
                          RunItems(items, budget, callees, RetryFloor, TimeoutFloor, floorJitter).stats)
  {
    hide Simulate, Record, StatsDominate, Dominates;
    if items == [] {
      NothingDominates(NO_STATS);
    } else {
      var n := |items| - 1;
      RetryOracleDominatesQueue(items[..n], budget, callees, jitter, floorJitter);
      var oracle := RunItems(items[..n], budget, callees, RetryOracle, TimeoutFloor, jitter);
      var floor := RunItems(items[..n], budget, callees, RetryFloor, TimeoutFloor, floorJitter);
      RetryOracleDominates(items[n], budget, oracle.samples, floor.samples, jitter, oracle.draw, floorJitter, floor.draw);
      RecordDominates(oracle.stats, floor.stats,
                      RunItem(items[n], budget, RetryOracle, TimeoutFloor, oracle.samples, jitter, oracle.draw).outcome,
                      RunItem(items[n], budget, RetryFloor, TimeoutFloor, floor.samples, floorJitter, floor.draw).outcome);
    }
  }

  lemma NothingDominates(stats: ArmStats)
    ensures StatsDominate(stats, stats)
  {
  }

  lemma RecordDominates(better: ArmStats, worse: ArmStats, o: ItemOutcome, f: ItemOutcome)
    requires StatsDominate(better, worse) && Dominates(o, f) && o.attempts >= 1 && f.attempts >= 1
    ensures StatsDominate(Record(better, o), Record(worse, f))
  {
  }

  // ------------------------------------------------------------------
  // The timeout oracle on a queue, each arm with its own jitter.
  // ------------------------------------------------------------------

  /** The same bill as the floor but for a decision per attempt and the latencies
      themselves. */
  ghost predicate SameBill(oracle: ArmStats, floor: ArmStats) {
    && oracle == floor.(decisions := floor.decisions + floor.attempts, latencies := oracle.latencies)
    && |oracle.latencies| == |floor.latencies|
  }

  lemma RecordSameBill(oracle: ArmStats, floor: ArmStats, o: ItemOutcome, f: ItemOutcome)
    requires SameBill(oracle, floor) && f.attempts >= 1
    requires o == f.(decisions := f.decisions + f.attempts, elapsedMs := o.elapsedMs)
    ensures SameBill(Record(oracle, o), Record(floor, f))
    ensures Total(Record(oracle, o).latencies) == Total(oracle.latencies) + o.elapsedMs
    ensures Total(Record(floor, f).latencies) == Total(floor.latencies) + f.elapsedMs
  {
    assert (oracle.latencies + [o.elapsedMs])[..|oracle.latencies|] == oracle.latencies;
    assert (floor.latencies + [f.elapsedMs])[..|floor.latencies|] == floor.latencies;
  }

  /** The spread of all delays the floor pays over the queue. */
  function QueueSpread(items: seq<WorkItem>, budget: nat): nat
    requires forall i :: 0 <= i < |items| ==> Recorded(items[i], budget)
  {
    if items == [] then 0 else QueueSpread(items[..|items| - 1], budget) + Spread(items[|items| - 1], budget, 1)
  }

  function QueueHangsCut(items: seq<WorkItem>, budget: nat): nat
    requires forall i :: 0 <= i < |items| ==> Recorded(items[i], budget)
  {
    if items == [] then 0 else QueueHangsCut(items[..|items| - 1], budget) + HangsCut(items[|items| - 1], budget, 1)
  }

  /** Whatever the two arms draw, the oracle completes and dead-letters the
      floor's items at the floor's attempts and cost, and its total is at most the
      spread later, less the hangs it cuts; opposite draws attain that. */
  lemma {:induction false} TimeoutOracleGapOnQueue(items: seq<WorkItem>, budget: nat, callees: nat, jitter: Jitter, floorJitter: Jitter)
    requires PlayableAll(items, budget) && CalleesKnown(items, callees) && Uniform(jitter)
    ensures var oracle := RunItems(items, budget, callees, RetryFloor, TimeoutOracle, jitter).stats;
      var floor := RunItems(items, budget, callees, RetryFloor, TimeoutFloor, floorJitter).stats;
      && SameBill(oracle, floor)
      && Total(oracle.latencies) + QueueHangsCut(items, budget) <= Total(floor.latencies) + QueueSpread(items, budget)
      && (jitter == LATE && floorJitter == EARLY ==>
            Total(oracle.latencies) + QueueHangsCut(items, budget) == Total(floor.latencies) + QueueSpread(items, budget))
  {
    hide Simulate, Record, SameBill, Spread, HangsCut, Total;
    if items == [] {
      NothingBilled();
    } else {
      var n := |items| - 1;
      TimeoutOracleGapOnQueue(items[..n], budget, callees, jitter, floorJitter);
      var oracle := RunItems(items[..n], budget, callees, RetryFloor, TimeoutOracle, jitter);
      var floor := RunItems(items[..n], budget, callees, RetryFloor, TimeoutFloor, floorJitter);
      TimeoutOracleGap(items[n], budget, oracle.samples, floor.samples, jitter, oracle.draw, floorJitter, floor.draw);
      RecordSameBill(oracle.stats, floor.stats,
        RunItem(items[n], budget, RetryFloor, TimeoutOracle, oracle.samples, jitter, oracle.draw).outcome,
        RunItem(items[n], budget, RetryFloor, TimeoutFloor, floor.samples, floorJitter, floor.draw).outcome);
    }
  }

  lemma NothingBilled()
    ensures SameBill(NO_STATS, NO_STATS)
  {
  }

  ghost predicate QueueNeverSlower(items: seq<WorkItem>, budget: nat, callees: nat)
    requires PlayableAll(items, budget) && CalleesKnown(items, callees)
  {
    forall jitter: Jitter, floorJitter: Jitter :: Uniform(jitter) && Uniform(floorJitter) ==>
      Total(RunItems(items, budget, callees, RetryFloor, TimeoutOracle, jitter).stats.latencies)
      <= Total(RunItems(items, budget, callees, RetryFloor, TimeoutFloor, floorJitter).stats.latencies)
  }

  /** Over a queue the oracle's total is never the larger, for all jitter of both
      arms, exactly when the hangs cut make up for the spread of the back-offs. */
  lemma TimeoutOracleNeverSlowerOnQueue(items: seq<WorkItem>, budget: nat, callees: nat)
    requires PlayableAll(items, budget) && CalleesKnown(items, callees)
    ensures QueueNeverSlower(items, budget, callees) <==> QueueSpread(items, budget) <= QueueHangsCut(items, budget)
  {
    hide RunItems, QueueSpread, QueueHangsCut, Total;
    forall jitter: Jitter, floorJitter: Jitter | Uniform(jitter)
      ensures Total(RunItems(items, budget, callees, RetryFloor, TimeoutOracle, jitter).stats.latencies)
              + QueueHangsCut(items, budget)
           <= Total(RunItems(items, budget, callees, RetryFloor, TimeoutFloor, floorJitter).stats.latencies)
              + QueueSpread(items, budget)
    {
      TimeoutOracleGapOnQueue(items, budget, callees, jitter, floorJitter);
    }
    TimeoutOracleGapOnQueue(items, budget, callees, LATE, EARLY);
    assert Uniform(LATE) && Uniform(EARLY);
  }

  function QueueLeast(items: seq<WorkItem>, budget: nat): nat
    requires forall i :: 0 <= i < |items| ==> Recorded(items[i], budget)
  {
    if items == [] then 0 else QueueLeast(items[..|items| - 1], budget) + LeastMs(items[|items| - 1], budget, 1)
  }

  lemma TotalOfRecord(stats: ArmStats, o: ItemOutcome)
    requires o.attempts >= 1
    ensures Total(Record(stats, o).latencies) == Total(stats.latencies) + o.elapsedMs
  {
    assert (stats.latencies + [o.elapsedMs])[..|stats.latencies|] == stats.latencies;
  }

  lemma {:induction false} EarlyQueueIsLeast(items: seq<WorkItem>, budget: nat, callees: nat)
    requires PlayableAll(items, budget) && CalleesKnown(items, callees)
    ensures Total(RunItems(items, budget, callees, RetryFloor, TimeoutFloor, EARLY).stats.latencies) == QueueLeast(items, budget)
  {
    hide RunFrom, Record, LeastMs, Total;
    if items == [] {
      assert Total([]) == 0 by { TotalOfNone(); }
    } else {
      var n := |items| - 1;
      EarlyQueueIsLeast(items[..n], budget, callees);
      var before := RunItems(items[..n], budget, callees, RetryFloor, TimeoutFloor, EARLY);
      EarlyIsLeast(items[n], budget, before.samples, before.draw, 1);
      TotalOfRecord(before.stats, RunItem(items[n], budget, RetryFloor, TimeoutFloor, before.samples, EARLY, before.draw).outcome);
    }
  }

  lemma TotalOfNone()
    ensures Total([]) == 0
  {
  }

  /** The experiment's assertion holds of the queue, whatever the arms draw. */
  ghost predicate QueuePasses(items: seq<WorkItem>, budget: nat, callees: nat)
    requires PlayableAll(items, budget) && CalleesKnown(items, callees)
  {
    forall jitter: Jitter, floorJitter: Jitter :: Uniform(jitter) && Uniform(floorJitter) ==>
      !Slower(Total(RunItems(items, budget, callees, RetryFloor, TimeoutOracle, jitter).stats.latencies),
              Total(RunItems(items, budget, callees, RetryFloor, TimeoutFloor, floorJitter).stats.latencies))
  }

  /** From the three bounds on the arms' totals to the asserted tolerance. */
  lemma WithinTolerance(oracle: nat, floor: nat, least: nat, spread: nat, cut: nat)
    requires oracle + cut <= least + spread && least <= floor && 10_000 * spread <= 10_000 * cut + least
    ensures !Slower(oracle, floor)
  {
  }

  /** The asserted bound, tolerance and all, holds for all jitter of both arms
      exactly when the spread, less the hangs cut, is at most a ten-thousandth of
      what the queue costs the floor at the least. */
  lemma TimeoutOraclePassesOnQueueExactly(items: seq<WorkItem>, budget: nat, callees: nat)
    requires PlayableAll(items, budget) && CalleesKnown(items, callees)
    ensures QueuePasses(items, budget, callees) <==>
            10_000 * QueueSpread(items, budget) <= 10_000 * QueueHangsCut(items, budget) + QueueLeast(items, budget)
  {
    hide RunItems, QueueSpread, QueueHangsCut, QueueLeast, Total;
    EarlyQueueIsLeast(items, budget, callees);
    TimeoutOracleGapOnQueue(items, budget, callees, LATE, EARLY);
    assert Uniform(LATE) && Uniform(EARLY);
    if 10_000 * QueueSpread(items, budget) <= 10_000 * QueueHangsCut(items, budget) + QueueLeast(items, budget) {
      forall jitter: Jitter, floorJitter: Jitter | Uniform(jitter)
        ensures !Slower(Total(RunItems(items, budget, callees, RetryFloor, TimeoutOracle, jitter).stats.latencies),
                        Total(RunItems(items, budget, callees, RetryFloor, TimeoutFloor, floorJitter).stats.latencies))
      {
        TimeoutOracleGapOnQueue(items, budget, callees, jitter, EARLY);
        TimeoutOracleGapOnQueue(items, budget, callees, LATE, floorJitter);
        WithinTolerance(Total(RunItems(items, budget, callees, RetryFloor, TimeoutOracle, jitter).stats.latencies),
                        Total(RunItems(items, budget, callees, RetryFloor, TimeoutFloor, floorJitter).stats.latencies),
                        QueueLeast(items, budget), QueueSpread(items, budget), QueueHangsCut(items, budget));
      }
    }
  }

  // ------------------------------------------------------------------
  // Recorded runs of several calls.
  // ------------------------------------------------------------------

  const LLM_CALLEES: nat := 2

  datatype CallsRun = CallsRun(stats: ArmStats, latencyMs: nat, completed: bool, deadLettered: bool,
                               draw: nat, samples: Samples)

  predicate CallsOk(calls: seq<WorkItem>, budget: nat) {
    forall i :: 0 <= i < |calls| ==> Recorded(calls[i], budget) && calls[i].callee < LLM_CALLEES
  }

  /** One call's bill, added to the arm's totals; runs count as items, not calls. */
  function AddCall(stats: ArmStats, outcome: ItemOutcome): ArmStats
    requires outcome.attempts >= 1
  {
    stats.(attempts := stats.attempts + outcome.attempts,
           wastedAttempts := stats.wastedAttempts + outcome.attempts - Count(outcome.completed),
           decisions := stats.decisions + outcome.decisions,
           costUsd := stats.costUsd + outcome.costUsd)
  }

  function AfterCall(before: CallsRun, run: ItemRun): CallsRun
    requires run.outcome.attempts >= 1
  {
    CallsRun(AddCall(before.stats, run.outcome), before.latencyMs + run.outcome.elapsedMs,
             run.outcome.completed, run.outcome.deadLettered && !run.outcome.completed,
             before.draw + run.draws, run.samples)
  }

  /** The calls in order, each only if all before it completed. */
  function RunCalls(calls: seq<WorkItem>, budget: nat, retry: RetryArm, timeout: TimeoutArm, jitter: Jitter, start: CallsRun): (r: CallsRun)
    requires CallsOk(calls, budget) && |start.samples| == LLM_CALLEES
    ensures |r.samples| == LLM_CALLEES
  {
    if calls == [] then start
    else
      var n := |calls| - 1;
      var before := RunCalls(calls[..n], budget, retry, timeout, jitter, start);
      if !before.completed then before
      else AfterCall(before, RunItem(calls[n], budget, retry, timeout, before.samples, jitter, before.draw))
  }

  function StartRun(stats: ArmStats, draw: nat): CallsRun {
    CallsRun(stats, 0, true, false, draw, seq(LLM_CALLEES, c => []))
  }

  function EndRun(run: CallsRun): ArmStats {
    run.stats.(items := run.stats.items + 1,
               completed := run.stats.completed + Count(run.completed),
               deadLettered := run.stats.deadLettered + Count(run.deadLettered),
               latencies := run.stats.latencies + [run.latencyMs])
  }

  function RunFixtures(fixtures: seq<seq<WorkItem>>, budget: nat, retry: RetryArm, timeout: TimeoutArm, jitter: Jitter): (ArmStats, nat)
    requires forall i :: 0 <= i < |fixtures| ==> CallsOk(fixtures[i], budget)
  {
    if fixtures == [] then (NO_STATS, 0)
    else
      var n := |fixtures| - 1;
      var (stats, draw) := RunFixtures(fixtures[..n], budget, retry, timeout, jitter);
      var run := RunCalls(fixtures[n], budget, retry, timeout, jitter, StartRun(stats, draw));
      (EndRun(run), run.draw)
  }

  lemma {:induction false} FailedRunStops(calls: seq<WorkItem>, budget: nat, retry: RetryArm, timeout: TimeoutArm, jitter: Jitter, start: CallsRun, i: nat)
    requires CallsOk(calls, budget) && |start.samples| == LLM_CALLEES && i <= |calls|
    requires !RunCalls(calls[..i], budget, retry, timeout, jitter, start).completed
    ensures RunCalls(calls, budget, retry, timeout, jitter, start) == RunCalls(calls[..i], budget, retry, timeout, jitter, start)
    decreases |calls|
  {
    if i == |calls| {
      assert calls[..i] == calls;
    } else {
      assert calls[..|calls| - 1][..i] == calls[..i];
      FailedRunStops(calls[..|calls| - 1], budget, retry, timeout, jitter, start, i);
    }
  }

  /** The call loop with its break at the first failed call. */
  method RunRecording(calls: seq<WorkItem>, budget: nat, retry: RetryArm, timeout: TimeoutArm, jitter: Jitter, start: CallsRun) returns (r: CallsRun)
    requires CallsOk(calls, budget) && |start.samples| == LLM_CALLEES && start.completed
    ensures r == RunCalls(calls, budget, retry, timeout, jitter, start)
  {
    hide Simulate;
    r := start;
    for i := 0 to |calls|
      invariant r == RunCalls(calls[..i], budget, retry, timeout, jitter, start) && r.completed
    {
      assert calls[..i + 1][..i] == calls[..i];
      var run := SimulateItem(calls[i], budget, retry, timeout, r.samples, jitter, r.draw);
      assert run == RunItem(calls[i], budget, retry, timeout, r.samples, jitter, r.draw);
      r := AfterCall(r, run);
      if !r.completed {
        FailedRunStops(calls, budget, retry, timeout, jitter, start, i + 1);
        return;
      }
    }
    assert calls[..|calls|] == calls;
  }

  method RunLlmArm(fixtures: seq<seq<WorkItem>>, budget: nat, retry: RetryArm, timeout: TimeoutArm, jitter: Jitter) returns (stats: ArmStats)
    requires forall i :: 0 <= i < |fixtures| ==> CallsOk(fixtures[i], budget)
    ensures stats == RunFixtures(fixtures, budget, retry, timeout, jitter).0
  {
    stats := NO_STATS;
    var draw: nat := 0;
    for i := 0 to |fixtures|
      invariant (stats, draw) == RunFixtures(fixtures[..i], budget, retry, timeout, jitter)
    {
      assert fixtures[..i + 1][..i] == fixtures[..i];
      var run := RunRecording(fixtures[i], budget, retry, timeout, jitter, StartRun(stats, draw));
      stats, draw := EndRun(run), run.draw;
    }
    assert fixtures[..|fixtures|] == fixtures;
  }

  ghost predicate CallsDominate(better: CallsRun, worse: CallsRun) {
    && better.completed == worse.completed
    && better.latencyMs <= worse.latencyMs
    && StatsDominate(better.stats, worse.stats)
  }

  lemma {:induction false} RetryOracleDominatesCalls(calls: seq<WorkItem>, budget: nat, jitter: Jitter, floorJitter: Jitter, start: CallsRun, floorStart: CallsRun)
    requires CallsOk(calls, budget) && PlayableAll(calls, budget)
    requires |start.samples| == |floorStart.samples| == LLM_CALLEES && CallsDominate(start, floorStart)
    ensures CallsDominate(RunCalls(calls, budget, RetryOracle, TimeoutFloor, jitter, start),
                          RunCalls(calls, budget, RetryFloor, TimeoutFloor, floorJitter, floorStart))
  {
    if calls != [] {
      hide Simulate;
      var n := |calls| - 1;
      RetryOracleDominatesCalls(calls[..n], budget, jitter, floorJitter, start, floorStart);
      var oracle := RunCalls(calls[..n], budget, RetryOracle, TimeoutFloor, jitter, start);
      var floor := RunCalls(calls[..n], budget, RetryFloor, TimeoutFloor, floorJitter, floorStart);
      if oracle.completed {
        RetryOracleDominates(calls[n], budget, oracle.samples, floor.samples, jitter, oracle.draw, floorJitter, floor.draw);
      }
    }
  }

  /** Over any set of recorded runs, each stopping at its first failed call,
      the retry oracle completes the runs the floor completes and dominates. */
  lemma {:induction false} RetryOracleDominatesFixtures(fixtures: seq<seq<WorkItem>>, budget: nat, jitter: Jitter, floorJitter: Jitter)
    requires forall i :: 0 <= i < |fixtures| ==> CallsOk(fixtures[i], budget) && PlayableAll(fixtures[i], budget)
    ensures StatsDominate(RunFixtures(fixtures, budget, RetryOracle, TimeoutFloor, jitter).0,
                          RunFixtures(fixtures, budget, RetryFloor, TimeoutFloor, floorJitter).0)
  {
    if fixtures != [] {
      var n := |fixtures| - 1;
      RetryOracleDominatesFixtures(fixtures[..n], budget, jitter, floorJitter);
      var (oracle, draw) := RunFixtures(fixtures[..n], budget, RetryOracle, TimeoutFloor, jitter);
      var (floor, floorDraw) := RunFixtures(fixtures[..n], budget, RetryFloor, TimeoutFloor, floorJitter);
      RetryOracleDominatesCalls(fixtures[n], budget, jitter, floorJitter, StartRun(oracle, draw), StartRun(floor, floorDraw));
    }
  }

  // ------------------------------------------------------------------
  // The timeout oracle on recorded runs.
  // ------------------------------------------------------------------

  /** Every call up to the first failed one is made; this one is. */
  ghost predicate AllComplete(calls: seq<WorkItem>, budget: nat)
    requires CallsOk(calls, budget)
  {
    forall i :: 0 <= i < |calls| ==> Completes(calls[i], budget, 1)
  }

  ghost function CallsSpread(calls: seq<WorkItem>, budget: nat): nat
    requires CallsOk(calls, budget)
  {
    if calls == [] then 0
    else
      var n := |calls| - 1;
      CallsSpread(calls[..n], budget) + (if AllComplete(calls[..n], budget) then Spread(calls[n], budget, 1) else 0)
  }

  ghost function CallsHangsCut(calls: seq<WorkItem>, budget: nat): nat
    requires CallsOk(calls, budget)
  {
    if calls == [] then 0
    else
      var n := |calls| - 1;
      CallsHangsCut(calls[..n], budget) + (if AllComplete(calls[..n], budget) then HangsCut(calls[n], budget, 1) else 0)
  }

  /** A recording completes exactly when all its calls do on their tapes. */
  lemma {:induction false} RecordingCompletesExactly(calls: seq<WorkItem>, budget: nat, retry: RetryArm, timeout: TimeoutArm,
                                                     jitter: Jitter, start: CallsRun)
    requires CallsOk(calls, budget) && |start.samples| == LLM_CALLEES && start.completed && !timeout.TimeoutHeuristic?
    ensures RunCalls(calls, budget, retry, timeout, jitter, start).completed <==> AllComplete(calls, budget)
  {
    hide Completes, RunFrom;
    if calls != [] {
      var n := |calls| - 1;
      RecordingCompletesExactly(calls[..n], budget, retry, timeout, jitter, start);
      var before := RunCalls(calls[..n], budget, retry, timeout, jitter, start);
      CompletionIsOnTheTape(calls[n], budget, retry, timeout, before.samples, jitter, before.draw, 1);
      assert calls == calls[..n] + [calls[n]];
    }
  }

  /** Two runs of a recording that differ in decisions and latency alone. */
  ghost predicate SameCalls(oracle: CallsRun, floor: CallsRun) {
    && oracle.completed == floor.completed && oracle.deadLettered == floor.deadLettered
    && SameBill(oracle.stats, floor.stats)
  }

  lemma AfterSameCall(oracle: CallsRun, floor: CallsRun, o: ItemRun, f: ItemRun)
    requires SameCalls(oracle, floor) && f.outcome.attempts >= 1
    requires o.outcome == f.outcome.(decisions := f.outcome.decisions + f.outcome.attempts, elapsedMs := o.outcome.elapsedMs)
    ensures SameCalls(AfterCall(oracle, o), AfterCall(floor, f))
    ensures AfterCall(oracle, o).stats.latencies == oracle.stats.latencies
    ensures AfterCall(floor, f).stats.latencies == floor.stats.latencies
  {
  }

  lemma {:induction false} TimeoutOracleGapOnCalls(calls: seq<WorkItem>, budget: nat, jitter: Jitter, floorJitter: Jitter,
                                                   start: CallsRun, floorStart: CallsRun)
    requires CallsOk(calls, budget) && PlayableAll(calls, budget) && Uniform(jitter)
    requires |start.samples| == |floorStart.samples| == LLM_CALLEES && SameCalls(start, floorStart) && start.completed
    ensures var oracle := RunCalls(calls, budget, RetryFloor, TimeoutOracle, jitter, start);
      var floor := RunCalls(calls, budget, RetryFloor, TimeoutFloor, floorJitter, floorStart);
      && SameCalls(oracle, floor)
      && oracle.stats.latencies == start.stats.latencies && floor.stats.latencies == floorStart.stats.latencies
      && oracle.latencyMs + floorStart.latencyMs + CallsHangsCut(calls, budget)
         <= floor.latencyMs + start.latencyMs + CallsSpread(calls, budget)
      && (jitter == LATE && floorJitter == EARLY ==>
            oracle.latencyMs + floorStart.latencyMs + CallsHangsCut(calls, budget)
            == floor.latencyMs + start.latencyMs + CallsSpread(calls, budget))
  {
    hide Simulate, SameCalls, Spread, HangsCut, AllComplete, AddCall;
    if calls != [] {
      var n := |calls| - 1;
      TimeoutOracleGapOnCalls(calls[..n], budget, jitter, floorJitter, start, floorStart);
      RecordingCompletesExactly(calls[..n], budget, RetryFloor, TimeoutOracle, jitter, start);
      SameStart(start, floorStart);
      RecordingCompletesExactly(calls[..n], budget, RetryFloor, TimeoutFloor, floorJitter, floorStart);
      var oracle := RunCalls(calls[..n], budget, RetryFloor, TimeoutOracle, jitter, start);
      var floor := RunCalls(calls[..n], budget, RetryFloor, TimeoutFloor, floorJitter, floorStart);
      TimeoutOracleGap(calls[n], budget, oracle.samples, floor.samples, jitter, oracle.draw, floorJitter, floor.draw);
      AfterSameCall(oracle, floor,
        RunItem(calls[n], budget, RetryFloor, TimeoutOracle, oracle.samples, jitter, oracle.draw),
        RunItem(calls[n], budget, RetryFloor, TimeoutFloor, floor.samples, floorJitter, floor.draw));
    }
  }

  lemma SameStart(oracle: CallsRun, floor: CallsRun)
    requires SameCalls(oracle, floor)
    ensures oracle.completed == floor.completed
  {
  }

  ghost function FixturesSpread(fixtures: seq<seq<WorkItem>>, budget: nat): nat
    requires forall i :: 0 <= i < |fixtures| ==> CallsOk(fixtures[i], budget)
  {
    if fixtures == [] then 0
    else FixturesSpread(fixtures[..|fixtures| - 1], budget) + CallsSpread(fixtures[|fixtures| - 1], budget)
  }

  ghost function FixturesHangsCut(fixtures: seq<seq<WorkItem>>, budget: nat): nat
    requires forall i :: 0 <= i < |fixtures| ==> CallsOk(fixtures[i], budget)
  {
    if fixtures == [] then 0
    else FixturesHangsCut(fixtures[..|fixtures| - 1], budget) + CallsHangsCut(fixtures[|fixtures| - 1], budget)
  }

  lemma EndSameRun(oracle: CallsRun, floor: CallsRun)
    requires SameCalls(oracle, floor)
    ensures SameBill(EndRun(oracle), EndRun(floor))
    ensures Total(EndRun(oracle).latencies) == Total(oracle.stats.latencies) + oracle.latencyMs
    ensures Total(EndRun(floor).latencies) == Total(floor.stats.latencies) + floor.latencyMs
  {
    assert EndRun(oracle).latencies[..|oracle.stats.latencies|] == oracle.stats.latencies;
    assert EndRun(floor).latencies[..|floor.stats.latencies|] == floor.stats.latencies;
  }

  /** The same over any set of recorded runs, each stopping at its first failed
      call. */
  lemma {:induction false} TimeoutOracleGapOnFixtures(fixtures: seq<seq<WorkItem>>, budget: nat, jitter: Jitter, floorJitter: Jitter)
    requires forall i :: 0 <= i < |fixtures| ==> CallsOk(fixtures[i], budget) && PlayableAll(fixtures[i], budget)
    requires Uniform(jitter)
    ensures var oracle := RunFixtures(fixtures, budget, RetryFloor, TimeoutOracle, jitter).0;
      var floor := RunFixtures(fixtures, budget, RetryFloor, TimeoutFloor, floorJitter).0;
      && SameBill(oracle, floor)
      && Total(oracle.latencies) + FixturesHangsCut(fixtures, budget) <= Total(floor.latencies) + FixturesSpread(fixtures, budget)
      && (jitter == LATE && floorJitter == EARLY ==>
            Total(oracle.latencies) + FixturesHangsCut(fixtures, budget) == Total(floor.latencies) + FixturesSpread(fixtures, budget))
  {
    hide RunCalls, SameBill, SameCalls, CallsSpread, CallsHangsCut, Total, EndRun;
    if fixtures == [] {
      NothingBilled();
    } else {
      var n := |fixtures| - 1;
      TimeoutOracleGapOnFixtures(fixtures[..n], budget, jitter, floorJitter);
      var (oracle, draw) := RunFixtures(fixtures[..n], budget, RetryFloor, TimeoutOracle, jitter);
      var (floor, floorDraw) := RunFixtures(fixtures[..n], budget, RetryFloor, TimeoutFloor, floorJitter);
      StartSameRun(oracle, draw, floor, floorDraw);
      TimeoutOracleGapOnCalls(fixtures[n], budget, jitter, floorJitter, StartRun(oracle, draw), StartRun(floor, floorDraw));
      EndSameRun(RunCalls(fixtures[n], budget, RetryFloor, TimeoutOracle, jitter, StartRun(oracle, draw)),
                 RunCalls(fixtures[n], budget, RetryFloor, TimeoutFloor, floorJitter, StartRun(floor, floorDraw)));
    }
  }

  lemma StartSameRun(oracle: ArmStats, draw: nat, floor: ArmStats, floorDraw: nat)
    requires SameBill(oracle, floor)
    ensures SameCalls(StartRun(oracle, draw), StartRun(floor, floorDraw))
  {
  }

  ghost predicate FixturesNeverSlower(fixtures: seq<seq<WorkItem>>, budget: nat)
    requires forall i :: 0 <= i < |fixtures| ==> CallsOk(fixtures[i], budget)
  {
    forall jitter: Jitter, floorJitter: Jitter :: Uniform(jitter) && Uniform(floorJitter) ==>
      Total(RunFixtures(fixtures, budget, RetryFloor, TimeoutOracle, jitter).0.latencies)
      <= Total(RunFixtures(fixtures, budget, RetryFloor, TimeoutFloor, floorJitter).0.latencies)
  }

  lemma TimeoutOracleNeverSlowerOnFixtures(fixtures: seq<seq<WorkItem>>, budget: nat)
    requires forall i :: 0 <= i < |fixtures| ==> CallsOk(fixtures[i], budget) && PlayableAll(fixtures[i], budget)
    ensures FixturesNeverSlower(fixtures, budget) <==> FixturesSpread(fixtures, budget) <= FixturesHangsCut(fixtures, budget)
  {
    hide RunFixtures, FixturesSpread, FixturesHangsCut, Total;
    forall jitter: Jitter, floorJitter: Jitter | Uniform(jitter)
      ensures Total(RunFixtures(fixtures, budget, RetryFloor, TimeoutOracle, jitter).0.latencies)
              + FixturesHangsCut(fixtures, budget)
           <= Total(RunFixtures(fixtures, budget, RetryFloor, TimeoutFloor, floorJitter).0.latencies)
              + FixturesSpread(fixtures, budget)
    {
      TimeoutOracleGapOnFixtures(fixtures, budget, jitter, floorJitter);
    }
    TimeoutOracleGapOnFixtures(fixtures, budget, LATE, EARLY);
    assert Uniform(LATE) && Uniform(EARLY);
  }

  ghost function CallsLeast(calls: seq<WorkItem>, budget: nat): nat
    requires CallsOk(calls, budget)
  {
    if calls == [] then 0
    else
      var n := |calls| - 1;
      CallsLeast(calls[..n], budget) + (if AllComplete(calls[..n], budget) then LeastMs(calls[n], budget, 1) else 0)
  }

  lemma {:induction false} EarlyCallsAreLeast(calls: seq<WorkItem>, budget: nat, start: CallsRun)
    requires CallsOk(calls, budget) && |start.samples| == LLM_CALLEES && start.completed
    ensures var r := RunCalls(calls, budget, RetryFloor, TimeoutFloor, EARLY, start);
      r.latencyMs == start.latencyMs + CallsLeast(calls, budget) && r.stats.latencies == start.stats.latencies
  {
    hide RunFrom, LeastMs, AllComplete;
    if calls != [] {
      var n := |calls| - 1;
      EarlyCallsAreLeast(calls[..n], budget, start);
      RecordingCompletesExactly(calls[..n], budget, RetryFloor, TimeoutFloor, EARLY, start);
      var before := RunCalls(calls[..n], budget, RetryFloor, TimeoutFloor, EARLY, start);
      EarlyIsLeast(calls[n], budget, before.samples, before.draw, 1);
    }
  }

  ghost function FixturesLeast(fixtures: seq<seq<WorkItem>>, budget: nat): nat
    requires forall i :: 0 <= i < |fixtures| ==> CallsOk(fixtures[i], budget)
  {
    if fixtures == [] then 0
    else FixturesLeast(fixtures[..|fixtures| - 1], budget) + CallsLeast(fixtures[|fixtures| - 1], budget)
  }

  lemma TotalOfRun(r: CallsRun)
    ensures Total(EndRun(r).latencies) == Total(r.stats.latencies) + r.latencyMs
  {
    assert EndRun(r).latencies[..|r.stats.latencies|] == r.stats.latencies;
  }

  lemma {:induction false} EarlyFixturesAreLeast(fixtures: seq<seq<WorkItem>>, budget: nat)
    requires forall i :: 0 <= i < |fixtures| ==> CallsOk(fixtures[i], budget)
    ensures Total(RunFixtures(fixtures, budget, RetryFloor, TimeoutFloor, EARLY).0.latencies) == FixturesLeast(fixtures, budget)
  {
    hide RunCalls, CallsLeast, Total, EndRun;
    if fixtures == [] {
      assert Total([]) == 0 by { TotalOfNone(); }
    } else {
      var n := |fixtures| - 1;
      EarlyFixturesAreLeast(fixtures[..n], budget);
      var (stats, draw) := RunFixtures(fixtures[..n], budget, RetryFloor, TimeoutFloor, EARLY);
      EarlyCallsAreLeast(fixtures[n], budget, StartRun(stats, draw));
      TotalOfRun(RunCalls(fixtures[n], budget, RetryFloor, TimeoutFloor, EARLY, StartRun(stats, draw)));
    }
  }

  /** The experiment's assertion holds of the recordings, whatever the arms draw. */
  ghost predicate FixturesPass(fixtures: seq<seq<WorkItem>>, budget: nat)
    requires forall i :: 0 <= i < |fixtures| ==> CallsOk(fixtures[i], budget)
  {
    forall jitter: Jitter, floorJitter: Jitter :: Uniform(jitter) && Uniform(floorJitter) ==>
      !Slower(Total(RunFixtures(fixtures, budget, RetryFloor, TimeoutOracle, jitter).0.latencies),
              Total(RunFixtures(fixtures, budget, RetryFloor, TimeoutFloor, floorJitter).0.latencies))
  }

  /** The same over any set of recorded runs. */
  lemma TimeoutOraclePassesOnFixturesExactly(fixtures: seq<seq<WorkItem>>, budget: nat)
    requires forall i :: 0 <= i < |fixtures| ==> CallsOk(fixtures[i], budget) && PlayableAll(fixtures[i], budget)
    ensures FixturesPass(fixtures, budget) <==>
            10_000 * FixturesSpread(fixtures, budget) <= 10_000 * FixturesHangsCut(fixtures, budget) + FixturesLeast(fixtures, budget)
  {
    hide RunFixtures, FixturesSpread, FixturesHangsCut, FixturesLeast, Total;
    EarlyFixturesAreLeast(fixtures, budget);
    TimeoutOracleGapOnFixtures(fixtures, budget, LATE, EARLY);
    assert Uniform(LATE) && Uniform(EARLY);
    if 10_000 * FixturesSpread(fixtures, budget) <= 10_000 * FixturesHangsCut(fixtures, budget) + FixturesLeast(fixtures, budget) {
      forall jitter: Jitter, floorJitter: Jitter | Uniform(jitter)
        ensures !Slower(Total(RunFixtures(fixtures, budget, RetryFloor, TimeoutOracle, jitter).0.latencies),
                        Total(RunFixtures(fixtures, budget, RetryFloor, TimeoutFloor, floorJitter).0.latencies))
      {
        TimeoutOracleGapOnFixtures(fixtures, budget, jitter, EARLY);
        TimeoutOracleGapOnFixtures(fixtures, budget, LATE, floorJitter);
        WithinTolerance(Total(RunFixtures(fixtures, budget, RetryFloor, TimeoutOracle, jitter).0.latencies),
                        Total(RunFixtures(fixtures, budget, RetryFloor, TimeoutFloor, floorJitter).0.latencies),
                        FixturesLeast(fixtures, budget), FixturesSpread(fixtures, budget), FixturesHangsCut(fixtures, budget));
      }
    }
  }
}
