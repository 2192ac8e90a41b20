/**
 The concurrency arms compared. The experiment takes it for granted that the
 oracle is never slower than the floor; with more tasks than the callee's ceiling
 it can be, because the floor gives up early on what the oracle waits for.
 */
module Contention {
  import opened Retry
  import opened Statistics
  import opened Tallies
  import opened Rounds
  import opened Tasks
  import opened Backpressure
  import opened Workloads
  import opened Concurrency

  // ------------------------------------------------------------------
  // Below the ceiling.
  // ------------------------------------------------------------------

  /** Everything starts at once and succeeds at once. */
  ghost predicate Calm(tapes: Tapes, w: World) {
    forall t :: 0 <= t < |w.tasks| ==>
      || (w.tasks[t] == Ready(0) && w.now == 0 && t in w.queue)
      || (|w.tasks| == |tapes| && w.tasks[t] == Running(1, tapes[t][0]))
      || (|w.tasks| == |tapes| && w.tasks[t] == Completed(1, tapes[t][0]))
  }

  lemma {:induction false} AllRunning(tasks: seq<Phase>, t: nat)
    requires Sum(tasks, OneIfRunning) >= |tasks| && t < |tasks|
    ensures tasks[t].Running?
  {
    var n := |tasks| - 1;
    RunningAtMost(tasks[..n]);
    if t < n {
      AllRunning(tasks[..n], t);
    }
  }

  lemma {:induction false} RunningAtMost(tasks: seq<Phase>)
    ensures Sum(tasks, OneIfRunning) <= |tasks|
  {
    if tasks != [] {
      RunningAtMost(tasks[..|tasks| - 1]);
    }
  }

  lemma MoveKeepsCalm(tapes: Tapes, w: World, m: Move)
    requires |tapes| == |w.tasks| <= CEILING && Calm(tapes, w) && Enabled(w, m)
    requires m.Advance? ==> w.queue == [] || InFlight(w) >= CEILING
    ensures Calm(tapes, Apply(tapes, w, m))
  {
    hide Sum;
    if InFlight(w) >= CEILING {
      forall t | 0 <= t < |w.tasks| ensures w.tasks[t].Running? {
        AllRunning(w.tasks, t);
      }
    }
  }

  lemma StartIsCalm(tapes: Tapes)
    ensures Calm(tapes, Start(|tapes|))
  {
    var w := Start(|tapes|);
    forall t | 0 <= t < |tapes| ensures t in w.queue {
      assert w.queue[t] == t;
    }
  }

  /** With no more tasks than the ceiling, floor and oracle complete every task
      on its first attempt after exactly its own latency. */
  lemma {:induction false} UncontendedRunsAreCalm(arm: Arm, tapes: Tapes, moves: seq<Move>)
    requires !arm.HeuristicArm? && |tapes| <= CEILING && Legal(tapes, moves) && Obeys(arm, tapes, moves)
    ensures Calm(tapes, After(tapes, moves))
  {
    hide Enabled, Apply, Steered, Sum;
    if moves == [] {
      StartIsCalm(tapes);
    } else {
      var before := moves[..|moves| - 1];
      UncontendedRunsAreCalm(arm, tapes, before);
      CapStaysInBounds(arm, before);
      MoveKeepsCalm(tapes, After(tapes, before), moves[|moves| - 1]);
    }
  }

  lemma UncontendedArmsAgree(tapes: Tapes, floor: seq<Move>, oracle: seq<Move>)
    requires |tapes| <= CEILING && Finished(FloorArm, tapes, floor) && Finished(OracleArm, tapes, oracle)
    ensures After(tapes, oracle).tasks == After(tapes, floor).tasks
  {
    hide Legal, Obeys, After;
    UncontendedRunsAreCalm(FloorArm, tapes, floor);
    UncontendedRunsAreCalm(OracleArm, tapes, oracle);
  }

  // ------------------------------------------------------------------
  // Above the ceiling: the oracle works in rounds of a full latency.
  // ------------------------------------------------------------------

  ghost predicate Uniform(tapes: Tapes, latency: nat) {
    forall t, k :: 0 <= t < |tapes| && 0 <= k < TAPE_LEN ==> tapes[t][k] == latency
  }

  function OneIfInRound(latency: nat, j: nat): Phase -> nat {
    (p: Phase) =>
      if (p.Running? && j * latency <= p.until < (j + 1) * latency)
        || (p.Completed? && j * latency <= p.at < (j + 1) * latency) then 1 else 0
  }

  lemma {:induction false} EarlyByRounds(tasks: seq<Phase>, latency: nat, j: nat)
    requires j > 0
    ensures Early(tasks, latency, j) == Early(tasks, latency, j - 1) + Sum(tasks, OneIfInRound(latency, j))
  {
    assert j * latency <= (j + 1) * latency by { OneMore(j, latency); }
    if tasks != [] {
      EarlyByRounds(tasks[..|tasks| - 1], latency, j);
    }
  }

  /** Nothing ends before the first round is over. */
  ghost predicate NothingIsFree(w: World, latency: nat) {
    && (forall t :: 0 <= t < |w.tasks| && w.tasks[t].Running? ==> latency <= w.tasks[t].until)
    && (forall t :: 0 <= t < |w.tasks| && w.tasks[t].Completed? ==> latency <= w.tasks[t].at)
  }

  /** While round `j` has not begun, whatever ends in it is still running. */
  lemma InRoundIsRunning(w: World, latency: nat, j: nat)
    requires Safe(w) && w.now < j * latency
    ensures Sum(w.tasks, OneIfInRound(latency, j)) <= CEILING
  {
    SumShrinks(w.tasks, 0, OneIfInRound(latency, j), OneIfRunning);
  }

  lemma MoveKeepsPace(tapes: Tapes, w: World, m: Move, latency: nat, j: nat)
    requires |tapes| == |w.tasks| && Uniform(tapes, latency) && Safe(w) && Enabled(w, m)
    requires j * latency <= w.now && Early(w.tasks, latency, j) <= CEILING * j
    ensures Early(Apply(tapes, w, m).tasks, latency, j) <= CEILING * j
  {
    hide Sum, BackoffDelay, InFlight;
    OneMore(j, latency);
    if !m.Advance? {
      SumOfUpdate(w.tasks, m.task, Moved(tapes, w, m), OneIfEarly((j + 1) * latency));
    }
  }

  lemma MoveKeepsNothingFree(tapes: Tapes, w: World, m: Move, latency: nat)
    requires |tapes| == |w.tasks| && Uniform(tapes, latency) && Safe(w) && Enabled(w, m) && NothingIsFree(w, latency)
    ensures NothingIsFree(Apply(tapes, w, m), latency)
  {
    hide Sum, BackoffDelay, InFlight;
  }

  lemma {:induction false} NothingRunsForFree(tapes: Tapes, moves: seq<Move>, latency: nat)
    requires Uniform(tapes, latency) && Legal(tapes, moves)
    ensures NothingIsFree(After(tapes, moves), latency)
  {
    hide Enabled, Apply, Sum, Uniform;
    if moves != [] {
      var before := moves[..|moves| - 1];
      NothingRunsForFree(tapes, before, latency);
      LegalRunsAreSafe(tapes, before);
      MoveKeepsNothingFree(tapes, After(tapes, before), moves[|moves| - 1], latency);
    }
  }

  lemma {:induction false} NoneEarly(tasks: seq<Phase>, latency: nat)
    requires forall t :: 0 <= t < |tasks| && tasks[t].Running? ==> latency <= tasks[t].until
    requires forall t :: 0 <= t < |tasks| && tasks[t].Completed? ==> latency <= tasks[t].at
    ensures Early(tasks, latency, 0) == 0
  {
    SumOfConstant(tasks, 0, OneIfEarly((0 + 1) * latency));
  }

  /** Whatever the policy, each round ends at most a ceiling of tasks. */
  lemma {:induction false} RunsArePaced(tapes: Tapes, moves: seq<Move>, latency: nat, j: nat)
    requires Uniform(tapes, latency) && Legal(tapes, moves)
    ensures Early(After(tapes, moves).tasks, latency, j) <= CEILING * j
    decreases |moves|, j
  {
    hide Enabled, Apply, Sum, Uniform, Early, NothingIsFree;
    var w := After(tapes, moves);
    LegalRunsAreSafe(tapes, moves);
    if j == 0 {
      NothingRunsForFree(tapes, moves, latency);
      assert Early(w.tasks, latency, 0) == 0 by { FreeMeansNone(w, latency); }
    } else if w.now < j * latency {
      RunsArePaced(tapes, moves, latency, j - 1);
      EarlyByRounds(w.tasks, latency, j);
      InRoundIsRunning(w, latency, j);
    } else if moves == [] {
      assert Early(w.tasks, latency, j) == 0 by { NothingStarted(|tapes|, latency, j); }
    } else {
      var before := moves[..|moves| - 1];
      RunsArePaced(tapes, before, latency, j);
      LegalRunsAreSafe(tapes, before);
      MoveKeepsPaceOrAdvances(tapes, before, moves[|moves| - 1], latency, j);
    }
  }

  lemma FreeMeansNone(w: World, latency: nat)
    requires NothingIsFree(w, latency)
    ensures Early(w.tasks, latency, 0) == 0
  {
    NoneEarly(w.tasks, latency);
  }

  lemma NothingStarted(n: nat, latency: nat, j: nat)
    ensures Early(Start(n).tasks, latency, j) == 0
  {
    SumOfConstant(Start(n).tasks, 0, OneIfEarly((j + 1) * latency));
  }

  /** A move that leads past the round's beginning either passes time or is made
      past it. */
  lemma MoveKeepsPaceOrAdvances(tapes: Tapes, before: seq<Move>, m: Move, latency: nat, j: nat)
    requires Uniform(tapes, latency) && Legal(tapes, before) && Safe(After(tapes, before))
    requires Enabled(After(tapes, before), m)
    requires j * latency <= Apply(tapes, After(tapes, before), m).now
    requires Early(After(tapes, before).tasks, latency, j) <= CEILING * j
    ensures Early(Apply(tapes, After(tapes, before), m).tasks, latency, j) <= CEILING * j
  {
    hide Legal, After, Early, Uniform, Enabled, Safe;
    if !m.Advance? {
      MoveKeepsPace(tapes, After(tapes, before), m, latency, j);
    }
  }

  /** Round after round, the oracle's tasks wait: a bound for each number of
      rounds one cares to count. */
  lemma OracleEndsLate(tapes: Tapes, oracle: seq<Move>, latency: nat, rounds: nat)
    requires Uniform(tapes, latency) && Finished(OracleArm, tapes, oracle)
    ensures Sum(After(tapes, oracle).tasks, EndAt) >= latency * (rounds * |tapes| - Triangle(rounds, CEILING))
  {
    hide Legal, Obeys, After, Sum, Uniform, Early, Triangle;
    var tasks := After(tapes, oracle).tasks;
    forall j: nat | j < rounds ensures Early(tasks, latency, j) <= CEILING * j {
      RunsArePaced(tapes, oracle, latency, j);
    }
    OracleWastesNothing(tapes, oracle);
    forall t | 0 <= t < |tasks| ensures tasks[t].Completed? {
      SumAtLeast(tasks, t, OneIfDead);
    }
    TotalByRounds(tasks, latency, rounds, CEILING);
  }

  // ------------------------------------------------------------------
  // The floor does not wait: a task is settled after three tries.
  // ------------------------------------------------------------------

  /** When a task turned away `k` times is tried again, at the latest: the hint of
      a second covers the first back-off, and the second may be twice as long.
      Draws of at most one half never exceed the hint. */
  function Latest(k: nat, low: bool): nat {
    if k == 0 then 0
    else if k == 1 then REJECT_LATENCY_MS + RETRY_AFTER_MS
    else if low then 2 * (REJECT_LATENCY_MS + RETRY_AFTER_MS)
    else 2 * REJECT_LATENCY_MS + 3 * RETRY_AFTER_MS
  }

  ghost predicate LowDraw(m: Move) {
    m.Reject? ==> m.uniform <= 0.5
  }

  ghost predicate LowDraws(moves: seq<Move>) {
    forall i :: 0 <= i < |moves| ==> LowDraw(moves[i])
  }

  /** Rejected in time, a task is due in time. */
  lemma DueInTime(now: nat, k: nat, uniform: real, low: bool)
    requires 1 <= k < MAX_ATTEMPTS && now <= Latest(k - 1, low)
    requires low ==> uniform <= 0.5
    ensures now <= RejectedUntil(now, k, uniform) <= Latest(k, low)
  {
    EarlyWindows();
    HalfOfWindow(k, uniform);
  }

  lemma HalfOfWindow(k: nat, uniform: real)
    requires 1 <= k < MAX_ATTEMPTS
    ensures var delay := BackoffDelay(k, uniform, BASE_RETRY_DELAY_MS, MAX_RETRY_DELAY_MS);
      delay <= k * RETRY_AFTER_MS && (uniform <= 0.5 ==> delay <= RETRY_AFTER_MS)
  {
    EarlyWindows();
    var window := BackoffWindow(k, BASE_RETRY_DELAY_MS, MAX_RETRY_DELAY_MS);
    var delay := BackoffDelay(k, uniform, BASE_RETRY_DELAY_MS, MAX_RETRY_DELAY_MS);
    if uniform <= 0.5 {
      assert Clamp01(uniform) * window as real <= 0.5 * window as real;
    }
  }

  /** A task that has wasted no time between its tries. */
  ghost predicate Prompt(p: Phase, now: nat, most: nat, low: bool) {
    match p
    case Ready(k) => k < MAX_ATTEMPTS && now <= Latest(k, low)
    case Waiting(k, due) => 1 <= k < MAX_ATTEMPTS && now <= due <= Latest(k, low)
    case Running(_, until) => until <= Latest(2, low) + most
    case Completed(_, at) => at <= Latest(2, low) + most
    case DeadLettered(_, at) => at <= Latest(2, low) + REJECT_LATENCY_MS
  }

  ghost predicate AllPrompt(w: World, most: nat, low: bool) {
    && (forall t :: 0 <= t < |w.tasks| ==> Prompt(w.tasks[t], w.now, most, low))
    && (forall t :: 0 <= t < |w.tasks| && w.tasks[t].Ready? ==> t in w.queue)
  }

  ghost predicate AtMost(tapes: Tapes, most: nat) {
    forall t, k :: 0 <= t < |tapes| && 0 <= k < TAPE_LEN ==> tapes[t][k] <= most
  }

  lemma MovedIsPrompt(tapes: Tapes, w: World, m: Move, most: nat, low: bool)
    requires |tapes| == |w.tasks| && AtMost(tapes, most) && AllPrompt(w, most, low)
    requires !m.Advance? && Enabled(w, m) && (low ==> LowDraw(m))
    ensures m.task < |w.tasks| && Prompt(Moved(tapes, w, m), w.now, most, low)
  {
    hide Sum, BackoffDelay, InFlight, RejectedUntil;
    if m.Reject? {
      var k := w.tasks[m.task].attempts + 1;
      assert Prompt(w.tasks[m.task], w.now, most, low);
      if k < MAX_ATTEMPTS {
        DueInTime(w.now, k, m.uniform, low);
      }
    }
  }

  lemma MoveKeepsPrompt(tapes: Tapes, w: World, m: Move, most: nat, low: bool)
    requires |tapes| == |w.tasks| && AtMost(tapes, most) && AllPrompt(w, most, low)
    requires Enabled(w, m) && (low ==> LowDraw(m)) && (m.Advance? ==> w.queue == [])
    ensures AllPrompt(Apply(tapes, w, m), most, low)
  {
    hide Sum, BackoffDelay, InFlight, RejectedUntil, Moved;
    if !m.Advance? {
      MovedIsPrompt(tapes, w, m, most, low);
      MovedAndQueued(tapes, w, m);
    }
  }

  lemma MovedAndQueued(tapes: Tapes, w: World, m: Move)
    requires |tapes| == |w.tasks| && !m.Advance? && Enabled(w, m)
    requires forall t :: 0 <= t < |w.tasks| && w.tasks[t].Ready? ==> t in w.queue
    ensures var w' := Apply(tapes, w, m);
      forall t :: 0 <= t < |w'.tasks| && w'.tasks[t].Ready? ==> t in w'.queue
  {
    hide Sum, BackoffDelay, InFlight, RejectedUntil;
  }

  /** Uncapped, the floor leaves nothing ready while time passes. */
  lemma {:induction false} FloorIsPrompt(tapes: Tapes, moves: seq<Move>, most: nat, low: bool)
    requires Legal(tapes, moves) && Obeys(FloorArm, tapes, moves) && AtMost(tapes, most) && (low ==> LowDraws(moves))
    ensures AllPrompt(After(tapes, moves), most, low)
  {
    hide Enabled, Apply, Steered, Sum, AtMost, AllPrompt;
    if moves == [] {
      StartsPrompt(|tapes|, most, low);
    } else {
      var before := moves[..|moves| - 1];
      FloorIsPrompt(tapes, before, most, low);
      CapStaysInBounds(FloorArm, before);
      LegalRunsAreSafe(tapes, before);
      MoveKeepsPrompt(tapes, After(tapes, before), moves[|moves| - 1], most, low);
    }
  }

  lemma StartsPrompt(n: nat, most: nat, low: bool)
    ensures AllPrompt(Start(n), most, low)
  {
    var w := Start(n);
    forall t | 0 <= t < n ensures t in w.queue {
      assert w.queue[t] == t;
    }
  }

  /** Every task of the floor is settled one latency after its last try. */
  lemma FloorEndsSoon(tapes: Tapes, floor: seq<Move>, most: nat, low: bool)
    requires Finished(FloorArm, tapes, floor) && AtMost(tapes, most) && REJECT_LATENCY_MS <= most
    requires low ==> LowDraws(floor)
    ensures Sum(After(tapes, floor).tasks, EndAt) <= |tapes| * (Latest(2, low) + most)
  {
    hide Legal, Obeys, After, Sum, AtMost;
    FloorIsPrompt(tapes, floor, most, low);
    EndsAtMost(After(tapes, floor).tasks, |tapes|, Latest(2, low) + most, 0);
  }

  // ------------------------------------------------------------------
  // With latencies beyond the last try it gives most tasks up.
  // ------------------------------------------------------------------

  /** A task the callee keeps turning away. */
  ghost predicate Unlucky(p: Phase, now: nat) {
    match p
    case Ready(k) => k < MAX_ATTEMPTS && now <= Latest(k, false)
    case Waiting(k, due) => 1 <= k < MAX_ATTEMPTS && now <= due <= Latest(k, false)
    case DeadLettered(_, at) => at <= Latest(2, false) + REJECT_LATENCY_MS
    case _ => false
  }

  /** The first tasks are being admitted, at time zero. */
  ghost predicate Filling(w: World, latency: nat, k: nat) {
    && w.now == 0 && k < CEILING < |w.tasks| && w.queue == seq(|w.tasks| - k, i => k + i)
    && (forall t :: 0 <= t < k ==> w.tasks[t] == Running(1, latency))
    && (forall t :: k <= t < |w.tasks| ==> w.tasks[t] == Ready(0))
  }

  /** The first tasks hold every slot until their latency; the rest are turned
      away meanwhile. */
  ghost predicate Full(w: World, latency: nat) {
    && CEILING < |w.tasks|
    && (forall t :: 0 <= t < CEILING ==>
          w.tasks[t] == Running(1, latency) || (w.tasks[t] == Completed(1, latency) && latency <= w.now))
    && (forall t :: CEILING <= t < |w.tasks| ==> Unlucky(w.tasks[t], w.now))
    && (forall t :: CEILING <= t < |w.tasks| && w.tasks[t].Ready? ==> t in w.queue)
    && (forall i :: 0 <= i < |w.queue| ==> CEILING <= w.queue[i] < |w.tasks|)
  }

  lemma {:induction false} RunningPrefix(tasks: seq<Phase>, k: nat)
    requires k <= |tasks|
    requires forall t :: 0 <= t < k ==> tasks[t].Running?
    requires forall t :: k <= t < |tasks| ==> !tasks[t].Running?
    ensures Sum(tasks, OneIfRunning) == k
  {
    if tasks != [] {
      var n := |tasks| - 1;
      RunningPrefix(tasks[..n], if k <= n then k else n);
    }
  }

  lemma FillingGoesOn(tapes: Tapes, w: World, m: Move, latency: nat, k: nat)
    requires |tapes| == |w.tasks| && Uniform(tapes, latency) && Filling(w, latency, k) && Enabled(w, m)
    requires m.Advance? ==> w.queue == [] || InFlight(w) >= UNCAPPED
    requires 0 < latency
    ensures var w' := Apply(tapes, w, m); if k + 1 < CEILING then Filling(w', latency, k + 1) else Full(w', latency)
  {
    hide Sum;
    RunningPrefix(w.tasks, k);
    assert w.queue[0] == k;
    assert m == Admit(k);
    var w' := Apply(tapes, w, m);
    assert w'.queue == seq(|w.tasks| - k - 1, i => k + 1 + i);
    forall t | k < t < |w.tasks| ensures t in w'.queue {
      assert w'.queue[t - k - 1] == t;
    }
  }

  lemma FullGoesOn(tapes: Tapes, w: World, m: Move, latency: nat)
    requires |tapes| == |w.tasks| && Full(w, latency) && Enabled(w, m)
    requires m.Advance? ==> w.queue == [] || InFlight(w) >= UNCAPPED
    requires Safe(w) && Latest(2, false) < latency
    ensures Full(Apply(tapes, w, m), latency)
  {
    hide Sum, BackoffDelay, RejectedUntil;
    if w.queue != [] && w.tasks[w.queue[0]].Ready? {
      RunningPrefix(w.tasks, CEILING);
      var k := w.tasks[w.queue[0]].attempts + 1;
      if m.Reject? && k < MAX_ATTEMPTS {
        DueInTime(w.now, k, m.uniform, false);
      }
    }
  }

  lemma {:induction false} FloorGivesUp(tapes: Tapes, moves: seq<Move>, latency: nat) returns (k: nat)
    requires CEILING < |tapes| && Uniform(tapes, latency) && Latest(2, false) < latency
    requires Legal(tapes, moves) && Obeys(FloorArm, tapes, moves)
    ensures Filling(After(tapes, moves), latency, k) || Full(After(tapes, moves), latency)
  {
    hide Enabled, Apply, Steered, Sum, Uniform, Filling, Full;
    if moves == [] {
      k := 0;
      StartsFilling(|tapes|, latency);
    } else {
      var before, m := moves[..|moves| - 1], moves[|moves| - 1];
      var w := After(tapes, before);
      k := FloorGivesUp(tapes, before, latency);
      CapStaysInBounds(FloorArm, before);
      LegalRunsAreSafe(tapes, before);
      if Full(w, latency) {
        FullGoesOn(tapes, w, m, latency);
      } else {
        FillingGoesOn(tapes, w, m, latency, k);
        k := k + 1;
      }
    }
  }

  lemma StartsFilling(n: nat, latency: nat)
    requires CEILING < n
    ensures Filling(Start(n), latency, 0)
  {
  }

  lemma FloorEndsEarly(tapes: Tapes, floor: seq<Move>, latency: nat)
    requires CEILING < |tapes| && Uniform(tapes, latency) && Latest(2, false) < latency
    requires Finished(FloorArm, tapes, floor)
    ensures Sum(After(tapes, floor).tasks, EndAt)
         <= CEILING * latency + (|tapes| - CEILING) * (Latest(2, false) + REJECT_LATENCY_MS)
  {
    hide Legal, Obeys, After, Sum, Uniform;
    var tasks := After(tapes, floor).tasks;
    var k := FloorGivesUp(tapes, floor, latency);
    assert tasks[CEILING].DeadLettered?;
    EndsAtMost(tasks, CEILING, latency, Latest(2, false) + REJECT_LATENCY_MS);
  }

  // ------------------------------------------------------------------
  // Who is slower.
  // ------------------------------------------------------------------

  /** With more tasks than the ceiling and latencies beyond the last try, every run
      of the oracle takes longer in total than every run of the floor. */
  lemma ContendedOracleIsSlower(tapes: Tapes, floor: seq<Move>, oracle: seq<Move>, latency: nat)
    requires CEILING < |tapes| && Uniform(tapes, latency) && Latest(2, false) < latency
    requires Finished(FloorArm, tapes, floor) && Finished(OracleArm, tapes, oracle)
    ensures Slower(Sum(After(tapes, oracle).tasks, EndAt), Sum(After(tapes, floor).tasks, EndAt))
  {
    hide Legal, Obeys, After, Sum, Uniform;
    FloorEndsEarly(tapes, floor, latency);
    OracleEndsLate(tapes, oracle, latency, 2);
    TwoRounds(|tapes|, latency);
    SlowerStill(latency * (2 * |tapes| - Triangle(2, CEILING)), Sum(After(tapes, oracle).tasks, EndAt),
                CEILING * latency + (|tapes| - CEILING) * (Latest(2, false) + REJECT_LATENCY_MS),
                Sum(After(tapes, floor).tasks, EndAt));
  }

  lemma SlowerStill(low: nat, oracle: nat, high: nat, floor: nat)
    requires Slower(low, high) && low <= oracle && floor <= high
    ensures Slower(oracle, floor)
  {
  }

  lemma TwoRounds(n: nat, latency: nat)
    requires CEILING < n && Latest(2, false) < latency
    ensures latency * (2 * n - Triangle(2, CEILING)) >= 0
    ensures Slower(latency * (2 * n - Triangle(2, CEILING)),
                   CEILING * latency + (n - CEILING) * (Latest(2, false) + REJECT_LATENCY_MS))
  {
    assert Triangle(2, CEILING) == Triangle(1, CEILING) + CEILING && Triangle(1, CEILING) == Triangle(0, CEILING);
    var more := n - CEILING;
    assert latency * (2 * n - CEILING) == latency * CEILING + 2 * (more * latency);
    assert more * latency >= more * (Latest(2, false) + 1);
    assert more * latency >= latency;
  }

  const CONCURRENCY_TASKS: nat := 120

  /** Equal latencies from which the oracle is slower on that many tasks. */
  function SlowFrom(low: bool): nat {
    if low then 289 else 432
  }

  /** At the experiment's own size the oracle is slower already at latencies its
      generator draws: whatever the jitter from 432 milliseconds, and from 289 when
      no draw exceeds one half. */
  lemma OracleIsSlowerAtScale(tapes: Tapes, floor: seq<Move>, oracle: seq<Move>, latency: nat, low: bool)
    requires |tapes| == CONCURRENCY_TASKS && Uniform(tapes, latency) && SlowFrom(low) <= latency
    requires Finished(FloorArm, tapes, floor) && Finished(OracleArm, tapes, oracle) && (low ==> LowDraws(floor))
    ensures Slower(Sum(After(tapes, oracle).tasks, EndAt), Sum(After(tapes, floor).tasks, EndAt))
  {
    hide Legal, Obeys, After, Sum, Triangle;
    FloorEndsSoon(tapes, floor, latency, low);
    OracleEndsLate(tapes, oracle, latency, CONCURRENCY_TASKS / CEILING);
    TriangleIs(CONCURRENCY_TASKS / CEILING, CEILING);
  }

  /** The oracle's total is at most the floor's on all tapes of that many tasks. */
  ghost predicate NeverSlower(n: nat) {
    forall tapes: Tapes, floor, oracle ::
      |tapes| == n && Finished(FloorArm, tapes, floor) && Finished(OracleArm, tapes, oracle) ==>
        !Slower(Sum(After(tapes, oracle).tasks, EndAt), Sum(After(tapes, floor).tasks, EndAt))
  }

  /** The promise holds up to the callee's ceiling and no further. */
  lemma NeverSlowerExactly(n: nat)
    ensures NeverSlower(n) <==> n <= CEILING
  {
    hide Legal, Obeys, After, Sum, Uniform, AllDone;
    if n <= CEILING {
      forall tapes: Tapes, floor, oracle
        | |tapes| == n && Finished(FloorArm, tapes, floor) && Finished(OracleArm, tapes, oracle)
        ensures !Slower(Sum(After(tapes, oracle).tasks, EndAt), Sum(After(tapes, floor).tasks, EndAt))
      {
        UncontendedArmsAgree(tapes, floor, oracle);
      }
    } else {
      var tapes := UniformTapesExist(n, Latest(2, false) + 1);
      var floor := EveryArmFinishes(FloorArm, tapes);
      var oracle := EveryArmFinishes(OracleArm, tapes);
      ContendedOracleIsSlower(tapes, floor, oracle, Latest(2, false) + 1);
    }
  }

  /** Tapes of one latency exist for every number of tasks. */
  lemma UniformTapesExist(n: nat, latency: nat) returns (tapes: Tapes)
    ensures |tapes| == n && Uniform(tapes, latency)
  {
    tapes := seq(n, t => seq(TAPE_LEN, k => latency));
  }

  /** Where equal latencies make the oracle slower, whatever the jitter or, at the
      experiment's size, with low draws. */
  ghost predicate SlowerOn(n: nat, latency: nat, low: bool) {
    || (CEILING < n && Latest(2, false) < latency)
    || (n == CONCURRENCY_TASKS && SlowFrom(low) <= latency)
  }

  lemma LowJitter(moves: seq<Move>, jitter: nat -> real)
    requires DrawnInOrder(moves, jitter) && forall k: nat :: jitter(k) <= 0.5
    ensures LowDraws(moves)
  {
  }

  /** Both arms on one set of tapes, each with its own jitter: equal totals up to
      the ceiling, and a slower oracle on the tapes above. */
  method CompareArms(tapes: Tapes, jitter: nat -> real, floorJitter: nat -> real)
    returns (oracle: ArmStats, floor: ArmStats)
    ensures oracle.completed == |tapes| >= floor.completed
    ensures |tapes| <= CEILING ==> Total(oracle.latencies) == Total(floor.latencies)
    ensures forall latency: nat :: Uniform(tapes, latency) && SlowerOn(|tapes|, latency, false) ==>
              Slower(Total(oracle.latencies), Total(floor.latencies))
    ensures (forall k: nat :: floorJitter(k) <= 0.5) ==>
              forall latency: nat :: Uniform(tapes, latency) && SlowerOn(|tapes|, latency, true) ==>
                Slower(Total(oracle.latencies), Total(floor.latencies))
  {
    hide Legal, Obeys, After, Sum, Uniform, AllDone, EndTimes, Total, DrawnInOrder, LowDraws;
    ghost var oracleMoves, floorMoves;
    oracle, oracleMoves := RunConcurrencyArm(OracleArm, tapes, jitter);
    floor, floorMoves := RunConcurrencyArm(FloorArm, tapes, floorJitter);
    TotalIsSumOfEnds(oracle.latencies, After(tapes, oracleMoves).tasks);
    TotalIsSumOfEnds(floor.latencies, After(tapes, floorMoves).tasks);
    if |tapes| <= CEILING {
      UncontendedArmsAgree(tapes, floorMoves, oracleMoves);
    }
    forall latency: nat, low: bool
      | Uniform(tapes, latency) && SlowerOn(|tapes|, latency, low) && (low ==> forall k: nat :: floorJitter(k) <= 0.5)
      ensures Slower(Total(oracle.latencies), Total(floor.latencies))
    {
      SlowerReported(tapes, floorMoves, oracleMoves, latency, low, floorJitter);
    }
  }

  lemma SlowerReported(tapes: Tapes, floor: seq<Move>, oracle: seq<Move>, latency: nat, low: bool, jitter: nat -> real)
    requires Uniform(tapes, latency) && SlowerOn(|tapes|, latency, low)
    requires Finished(FloorArm, tapes, floor) && Finished(OracleArm, tapes, oracle)
    requires DrawnInOrder(floor, jitter) && (low ==> forall k: nat :: jitter(k) <= 0.5)
    ensures Slower(Sum(After(tapes, oracle).tasks, EndAt), Sum(After(tapes, floor).tasks, EndAt))
  {
    hide Finished, After, Sum, Uniform, DrawnInOrder, LowDraws;
    if CEILING < |tapes| && Latest(2, false) < latency {
      ContendedOracleIsSlower(tapes, floor, oracle, latency);
    } else {
      if low {
        LowJitter(floor, jitter);
      }
      OracleIsSlowerAtScale(tapes, floor, oracle, latency, low);
    }
  }
}
