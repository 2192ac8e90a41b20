/**
 The placement experiment at its own size, on tapes its generator draws. A first
 attempt that fails on a degraded worker costs 25 milliseconds and is drawn anew;
 where the first draws are long and the later ones short, the floor gains by
 failing, and the oracle is slower by far.
 */
module Redraws {
  import opened Numbers
  import opened Retry
  import opened Statistics
  import opened Tallies
  import opened Tasks
  import opened Rounds
  import opened Fleet
  import opened Workloads
  import opened Placement
  import opened Outage
  import opened FirstPass

  const SHORT_MS: nat := 45

  /** First attempts take long, the next two are short. */
  ghost predicate Redrawn(tapes: Tapes) {
    forall t :: 0 <= t < |tapes| ==> tapes[t][0] == LONG_MS && tapes[t][1] <= SHORT_MS && tapes[t][2] <= SHORT_MS
  }

  // ------------------------------------------------------------------
  // The oracle: one task to a worker and round.
  // ------------------------------------------------------------------

  function RoundsOf(latency: nat, j: nat): nat -> nat {
    (busy: nat) => RoundsBefore(busy, latency, j)
  }

  /** The rounds, up to `j`, that the workers have filled. */
  function Filled(busy: seq<nat>, latency: nat, j: nat): nat {
    Sum(busy, RoundsOf(latency, j))
  }

  lemma {:induction false} LaterIsMoreRounds(a: nat, b: nat, latency: nat, j: nat)
    requires a <= b
    ensures RoundsBefore(a, latency, j) <= RoundsBefore(b, latency, j)
  {
    if j > 0 {
      LaterIsMoreRounds(a, b, latency, j - 1);
    }
  }

  lemma {:induction false} OneRoundLater(now: nat, latency: nat, j: nat)
    ensures RoundsBefore(now + latency, latency, j + 1) == RoundsBefore(now, latency, j) + 1
  {
    OneMore(j, latency);
    if j > 0 {
      OneRoundLater(now, latency, j - 1);
    }
  }

  /** A task that ends within the round fills one more. */
  lemma NextRound(busy: nat, now: nat, latency: nat, j: nat)
    requires busy <= now
    ensures RoundsBefore(now + latency, latency, j)
         >= RoundsBefore(busy, latency, j) + if now + latency < (j + 1) * latency then 1 else 0
  {
    LaterIsMoreRounds(busy, now, latency, j);
    LaterIsMoreRounds(now, now + latency, latency, j);
    OneMore(j, latency);
    OneRoundLater(now, latency, j);
  }

  ghost predicate Paced(w: World, latency: nat, j: nat) {
    Early(w.tasks, latency, j) <= Filled(w.busy, latency, j)
  }

  ghost predicate AllFirst(tasks: seq<Phase>) {
    forall t :: 0 <= t < |tasks| && tasks[t].Ready? ==> tasks[t].attempts == 0
  }

  lemma MoveKeepsPace(windows: seq<Window>, tapes: Tapes, w: World, m: Move, latency: nat, j: nat)
    requires |tapes| == |w.tasks| && |w.busy| == |w.quarantine| && AllFirst(w.tasks)
    requires forall t :: 0 <= t < |tapes| ==> tapes[t][0] == latency
    requires InRange(w, m) && Enabled(OracleArm, windows, w, m) && Paced(w, latency, j)
    ensures Paced(Apply(OracleArm, windows, tapes, w, m), latency, j)
  {
    hide Sum, Degraded, WindowEnd, BackoffDelay, IsCandidate, RoundsBefore;
    var w' := Apply(OracleArm, windows, tapes, w, m);
    var cut := (j + 1) * latency;
    if m.Release? || m.Land? {
      SumOfUpdate(w.tasks, m.task, w'.tasks[m.task], OneIfEarly(cut));
    }
    if m.Land? {
      SumOfUpdate(w.busy, m.worker, w'.busy[m.worker], RoundsOf(latency, j));
      NextRound(w.busy[m.worker], w.now, latency, j);
    } else if m.Veto? {
      SumOfUpdate(w.busy, m.worker, w'.busy[m.worker], RoundsOf(latency, j));
      LaterIsMoreRounds(w.busy[m.worker], w'.busy[m.worker], latency, j);
    }
  }

  lemma OracleRetriesNothing(windows: seq<Window>, workers: nat, tapes: Tapes, moves: seq<Move>)
    requires Legal(OracleArm, windows, workers, tapes, moves)
    ensures AllFirst(After(OracleArm, windows, workers, tapes, moves).tasks)
  {
    hide Legal, After, Sum;
    var tasks := After(OracleArm, windows, workers, tapes, moves).tasks;
    Fleet.OracleWastesNothing(windows, workers, tapes, moves);
    forall t | 0 <= t < |tasks| && tasks[t].Ready? ensures tasks[t].attempts == 0 {
      SumAtLeast(tasks, t, Wasted);
    }
  }

  lemma {:induction false} OracleIsPaced(windows: seq<Window>, workers: nat, tapes: Tapes, moves: seq<Move>, latency: nat, j: nat)
    requires forall t :: 0 <= t < |tapes| ==> tapes[t][0] == latency
    requires Legal(OracleArm, windows, workers, tapes, moves)
    ensures Paced(After(OracleArm, windows, workers, tapes, moves), latency, j)
  {
    hide Enabled, Apply, InRange, Sum, AllFirst, RoundsBefore;
    if moves == [] {
      SumOfConstant(Start(|tapes|, workers).tasks, 0, OneIfEarly((j + 1) * latency));
    } else {
      var before := moves[..|moves| - 1];
      OracleIsPaced(windows, workers, tapes, before, latency, j);
      OracleRetriesNothing(windows, workers, tapes, before);
      MoveKeepsPace(windows, tapes, After(OracleArm, windows, workers, tapes, before), moves[|moves| - 1], latency, j);
    }
  }

  lemma {:induction false} FilledAtMost(busy: seq<nat>, latency: nat, j: nat)
    ensures Filled(busy, latency, j) <= |busy| * j
  {
    if busy != [] {
      FilledAtMost(busy[..|busy| - 1], latency, j);
      OneMore(|busy| - 1, j);
    }
  }

  /** The oracle's tasks of one latency wait round after round, whatever the script. */
  lemma OracleEndsLate(windows: seq<Window>, workers: nat, tapes: Tapes, oracle: seq<Move>, latency: nat, rounds: nat)
    requires forall t :: 0 <= t < |tapes| ==> tapes[t][0] == latency
    requires Finished(OracleArm, windows, workers, tapes, oracle)
    ensures Sum(After(OracleArm, windows, workers, tapes, oracle).tasks, EndAt)
         >= latency * (rounds * |tapes| - Triangle(rounds, workers))
  {
    hide Legal, After, Sum, Early, Filled, Triangle;
    var w := After(OracleArm, windows, workers, tapes, oracle);
    forall j: nat | j < rounds ensures Early(w.tasks, latency, j) <= workers * j {
      OracleIsPaced(windows, workers, tapes, oracle, latency, j);
      FilledAtMost(w.busy, latency, j);
    }
    Fleet.OracleWastesNothing(windows, workers, tapes, oracle);
    forall t | 0 <= t < |w.tasks| ensures w.tasks[t].Completed? {
      SumAtLeast(w.tasks, t, OneIfDead);
    }
    TotalByRounds(w.tasks, latency, rounds, workers);
  }

  // ------------------------------------------------------------------
  // The floor, while fresh tasks last.
  // ------------------------------------------------------------------

  function FirstEnd(p: Phase): nat { if p.Completed? && p.attempts == 1 then p.at else 0 }
  function OneIfFirst(p: Phase): nat { if p.Completed? && p.attempts == 1 then 1 else 0 }
  function OneIfOpen(p: Phase): nat { if Settled(p) then 0 else 1 }

  /** No retry of a failed attempt is due later than this. */
  const LAST_DUE: nat := 8_499 + LONGEST_WAIT

  /** A task after its first attempt and before its second. */
  ghost predicate TriedOnce(p: Phase) {
    && p.attempts == 1 && !p.Running? && !p.DeadLettered?
    && (p.Waiting? ==> p.due <= LAST_DUE)
  }

  ghost predicate Books(tasks: seq<Phase>, done: nat, ends: nat) {
    Sum(tasks, OneIfFirst) == done && Sum(tasks, FirstEnd) == ends
  }

  /** The first `k` tasks have been tried once, as the pass has it. */
  ghost predicate Passing(w: World, k: nat) {
    && |w.tasks| == PLACEMENT_TASKS && k <= PLACEMENT_TASKS && |w.busy| == |w.quarantine| == PLACEMENT_WORKERS
    && PLACEMENT_TASKS - k <= |w.queue| && (forall i :: 0 <= i < PLACEMENT_TASKS - k ==> w.queue[i] == k + i)
    && (forall t :: 0 <= t < k ==> TriedOnce(w.tasks[t]))
    && (forall t :: k <= t < PLACEMENT_TASKS ==> w.tasks[t] == Ready(0))
    && (forall v :: 0 <= v < PLACEMENT_WORKERS ==> w.now <= w.busy[v])
    && var c := Run(START, k); w.busy == c.busy && Books(w.tasks, c.done, c.ends)
  }

  lemma DegradedIsEarly(v: nat, at: nat)
    requires Degraded(PLACEMENT_WINDOWS, v, at)
    ensures at <= 8_499
  {
    OutIsDegraded(v, at);
  }

  lemma BooksAfter(tasks: seq<Phase>, t: nat, p: Phase, done: nat, ends: nat)
    requires t < |tasks| && Books(tasks, done, ends) && OneIfFirst(tasks[t]) == 0
    ensures Books(tasks[t := p], done + OneIfFirst(p), ends + FirstEnd(p))
  {
    hide Sum;
    SumOfUpdate(tasks, t, p, OneIfFirst);
    SumOfUpdate(tasks, t, p, FirstEnd);
  }

  /** What the next fresh task's first attempt comes to. */
  lemma FreshLands(tapes: Tapes, w: World, m: Move, k: nat)
    requires |tapes| == |w.tasks| && Redrawn(tapes) && Passing(w, k) && k < PLACEMENT_TASKS
    requires m.Land? && InRange(w, m) && Enabled(FloorArm, PLACEMENT_WINDOWS, w, m)
    ensures m.task == k && w.now == w.busy[m.worker] && m.worker == Earliest(w.busy)
    ensures HoldMs(PLACEMENT_WINDOWS, tapes, w, k, m.worker)
         == if Degraded(PLACEMENT_WINDOWS, m.worker, w.now) then FAIL_LATENCY_MS else LONG_MS
    ensures var p := Landed(PLACEMENT_WINDOWS, tapes, w, k, m.worker, m.uniform);
      && TriedOnce(p)
      && (if Degraded(PLACEMENT_WINDOWS, m.worker, w.now) then p.Waiting? else p == Completed(1, w.now + LONG_MS))
  {
    hide Run, Books, Earliest, Degraded, RetryDue;
    OneCandidate(w.busy, m.worker, Earliest(w.busy));
    assert w.queue[0] == k;
    if Degraded(PLACEMENT_WINDOWS, m.worker, w.now) {
      DegradedIsEarly(m.worker, w.now);
      RetryIsSoon(w.now, 1, m.uniform);
    }
  }

  lemma PassGoesOn(tapes: Tapes, w: World, m: Move, k: nat)
    requires |tapes| == |w.tasks| && Redrawn(tapes) && Passing(w, k) && k < PLACEMENT_TASKS
    requires m.Land? && InRange(w, m) && Enabled(FloorArm, PLACEMENT_WINDOWS, w, m)
    ensures Passing(Apply(FloorArm, PLACEMENT_WINDOWS, tapes, w, m), k + 1)
  {
    hide Run, Books, Earliest, Degraded, RetryDue, Landed, Sum, TriedOnce, Redrawn;
    FreshLands(tapes, w, m, k);
    var c := Run(START, k);
    assert Run(START, k + 1) == Tick(c) by { NextTick(k); }
    BooksAfter(w.tasks, k, Landed(PLACEMENT_WINDOWS, tapes, w, k, m.worker, m.uniform), c.done, c.ends);
    CandidateIsLeast(w.busy, m.worker);
  }

  lemma CandidateIsLeast(busy: seq<nat>, v: nat)
    requires busy != [] && v == Earliest(busy)
    ensures v < |busy| && forall u :: 0 <= u < |busy| ==> busy[v] <= busy[u]
  {
  }

  lemma NextTick(k: nat)
    ensures Run(START, k + 1) == Tick(Run(START, k))
  {
  }

  lemma PassWaits(tapes: Tapes, w: World, m: Move, k: nat)
    requires |tapes| == |w.tasks| && Passing(w, k) && k < PLACEMENT_TASKS
    requires !m.Land? && InRange(w, m) && Enabled(FloorArm, PLACEMENT_WINDOWS, w, m)
    ensures Passing(Apply(FloorArm, PLACEMENT_WINDOWS, tapes, w, m), k)
  {
    hide Run, Books, Earliest, Degraded, Sum;
    if m.Release? {
      var c := Run(START, k);
      BooksAfter(w.tasks, m.task, Ready(w.tasks[m.task].attempts), c.done, c.ends);
    }
  }

  // ------------------------------------------------------------------
  // The floor, once they are gone.
  // ------------------------------------------------------------------

  function FromLastDue(busy: nat): nat { Max(busy, LAST_DUE) }

  /** The workers' time past the last due, and a short attempt for each open task. */
  function Load(w: World): nat {
    Sum(w.busy, FromLastDue) + SHORT_MS * Sum(w.tasks, OneIfOpen)
  }

  const FULL_LOAD: nat := PLACEMENT_WORKERS * LAST_DUE + SHORT_MS * 149
  const LATEST_END: nat := (FULL_LOAD - SHORT_MS) / PLACEMENT_WORKERS + SHORT_MS

  /** A task after its first attempt: what is due is due in time, and what has ended
      since has ended in time. */
  ghost predicate InTime(p: Phase) {
    && 1 <= p.attempts && !p.Running?
    && (p.Waiting? ==> p.due <= LAST_DUE)
    && (Settled(p) && (p.DeadLettered? || p.attempts > 1) ==> p.at <= LATEST_END)
  }

  ghost predicate Retrying(w: World) {
    && |w.tasks| == PLACEMENT_TASKS && |w.busy| == |w.quarantine| == PLACEMENT_WORKERS
    && (forall t :: 0 <= t < |w.tasks| ==> InTime(w.tasks[t]))
    && (forall v :: 0 <= v < |w.busy| ==> w.now <= FromLastDue(w.busy[v]))
    && Load(w) <= FULL_LOAD
    && Books(w.tasks, 91, 387_350)
  }

  lemma {:induction false} OpenOrFirst(tasks: seq<Phase>)
    requires forall t :: 0 <= t < |tasks| ==> TriedOnce(tasks[t])
    ensures Sum(tasks, OneIfOpen) + Sum(tasks, OneIfFirst) == |tasks|
  {
    if tasks != [] {
      OpenOrFirst(tasks[..|tasks| - 1]);
    }
  }

  lemma PassEndsInTime(w: World)
    requires Passing(w, PLACEMENT_TASKS)
    ensures Retrying(w)
  {
    hide Run, Sum;
    PassIsOver();
    OpenOrFirst(w.tasks);
    SumOfFour(w.busy, FromLastDue);
  }

  lemma SumOfFour(s: seq<nat>, f: nat -> nat)
    requires |s| == 4
    ensures Sum(s, f) == f(s[0]) + f(s[1]) + f(s[2]) + f(s[3])
  {
    assert Sum(s, f) == Sum(s[..3], f) + f(s[3]);
    assert s[..3][..2] == s[..2] && s[..2][..1] == s[..1] && s[..1][..0] == [];
    assert Sum(s[..3], f) == Sum(s[..2], f) + f(s[2]) && Sum(s[..2], f) == Sum(s[..1], f) + f(s[1]);
  }

  /** The worker that is free first has at most its share of the load. */
  lemma ShareOfLoad(w: World, v: nat)
    requires |w.busy| == PLACEMENT_WORKERS && v < |w.busy| && Load(w) <= FULL_LOAD
    requires forall u :: 0 <= u < |w.busy| ==> w.busy[v] <= w.busy[u]
    requires Sum(w.tasks, OneIfOpen) >= 1
    ensures FromLastDue(w.busy[v]) + SHORT_MS <= LATEST_END
  {
    hide Sum;
    SumOfFour(w.busy, FromLastDue);
  }

  lemma LandsInTime(tapes: Tapes, w: World, m: Move)
    requires |tapes| == |w.tasks| && Redrawn(tapes) && Retrying(w) && Safe(w)
    requires m.Land? && InRange(w, m) && Enabled(FloorArm, PLACEMENT_WINDOWS, w, m)
    ensures var p := Landed(PLACEMENT_WINDOWS, tapes, w, m.task, m.worker, m.uniform);
      && InTime(p) && OneIfFirst(p) == 0 && FirstEnd(p) == 0
      && var busy := w.now + HoldMs(PLACEMENT_WINDOWS, tapes, w, m.task, m.worker);
        && w.busy[m.worker] <= busy
        && FromLastDue(busy) + SHORT_MS * OneIfOpen(p) <= FromLastDue(w.busy[m.worker]) + SHORT_MS
  {
    hide Sum, Degraded, RetryDue, Books;
    SumAtLeast(w.tasks, m.task, OneIfOpen);
    ShareOfLoad(w, m.worker);
    var k := w.tasks[m.task].attempts + 1;
    if Degraded(PLACEMENT_WINDOWS, m.worker, w.now) {
      DegradedIsEarly(m.worker, w.now);
      if k < MAX_ATTEMPTS {
        RetryIsSoon(w.now, k, m.uniform);
      }
    } else {
      assert tapes[m.task][k - 1] <= SHORT_MS;
    }
  }

  lemma RetryingLands(tapes: Tapes, w: World, m: Move)
    requires |tapes| == |w.tasks| && Redrawn(tapes) && Retrying(w) && Safe(w)
    requires m.Land? && InRange(w, m) && Enabled(FloorArm, PLACEMENT_WINDOWS, w, m)
    ensures Retrying(Apply(FloorArm, PLACEMENT_WINDOWS, tapes, w, m))
  {
    hide Sum, Degraded, RetryDue, Landed, HoldMs, Books, Redrawn, InTime, FirstEnd;
    LandsInTime(tapes, w, m);
    var w' := Apply(FloorArm, PLACEMENT_WINDOWS, tapes, w, m);
    BooksAfter(w.tasks, m.task, w'.tasks[m.task], 91, 387_350);
    SumOfUpdate(w.tasks, m.task, w'.tasks[m.task], OneIfOpen);
    SumOfUpdate(w.busy, m.worker, w'.busy[m.worker], FromLastDue);
  }

  lemma RetryingWaits(tapes: Tapes, w: World, m: Move)
    requires |tapes| == |w.tasks| && Retrying(w)
    requires !m.Land? && InRange(w, m) && Enabled(FloorArm, PLACEMENT_WINDOWS, w, m)
    ensures Retrying(Apply(FloorArm, PLACEMENT_WINDOWS, tapes, w, m))
  {
    hide Sum, Degraded, Books;
    if m.Release? {
      BooksAfter(w.tasks, m.task, Ready(w.tasks[m.task].attempts), 91, 387_350);
      SumOfUpdate(w.tasks, m.task, Ready(w.tasks[m.task].attempts), OneIfOpen);
    }
  }

  ghost predicate OnCourse(w: World, k: nat) {
    (k < PLACEMENT_TASKS && Passing(w, k)) || Retrying(w)
  }

  lemma CourseGoesOn(tapes: Tapes, w: World, m: Move, k: nat) returns (k': nat)
    requires |tapes| == |w.tasks| && Redrawn(tapes) && OnCourse(w, k) && Safe(w)
    requires InRange(w, m) && Enabled(FloorArm, PLACEMENT_WINDOWS, w, m)
    ensures OnCourse(Apply(FloorArm, PLACEMENT_WINDOWS, tapes, w, m), k')
  {
    hide Passing, Retrying, Redrawn, Enabled, Apply, InRange, Safe;
    k' := k;
    if Retrying(w) {
      if m.Land? {
        RetryingLands(tapes, w, m);
      } else {
        RetryingWaits(tapes, w, m);
      }
    } else if m.Land? {
      PassGoesOn(tapes, w, m, k);
      k' := k + 1;
      if k' == PLACEMENT_TASKS {
        PassEndsInTime(Apply(FloorArm, PLACEMENT_WINDOWS, tapes, w, m));
      }
    } else {
      PassWaits(tapes, w, m, k);
    }
  }

  lemma StartsOnCourse()
    ensures OnCourse(Start(PLACEMENT_TASKS, PLACEMENT_WORKERS), 0)
  {
    hide Sum;
    var w := Start(PLACEMENT_TASKS, PLACEMENT_WORKERS);
    SumOfConstant(w.tasks, 0, OneIfFirst);
    SumOfConstant(w.tasks, 0, FirstEnd);
    assert Run(START, 0) == START by { NoTicks(START); }
    assert w.busy == [0, 0, 0, 0];
    assert Passing(w, 0);
  }

  lemma {:induction false} FloorIsOnCourse(tapes: Tapes, moves: seq<Move>) returns (k: nat)
    requires |tapes| == PLACEMENT_TASKS && Redrawn(tapes)
    requires Legal(FloorArm, PLACEMENT_WINDOWS, PLACEMENT_WORKERS, tapes, moves)
    ensures OnCourse(After(FloorArm, PLACEMENT_WINDOWS, PLACEMENT_WORKERS, tapes, moves), k)
  {
    hide Enabled, Apply, InRange, OnCourse, Redrawn, Safe;
    if moves == [] {
      k := 0;
      StartsOnCourse();
    } else {
      var before := moves[..|moves| - 1];
      k := FloorIsOnCourse(tapes, before);
      LegalRunsAreSafe(FloorArm, PLACEMENT_WINDOWS, PLACEMENT_WORKERS, tapes, before);
      k := CourseGoesOn(tapes, After(FloorArm, PLACEMENT_WINDOWS, PLACEMENT_WORKERS, tapes, before), moves[|moves| - 1], k);
    }
  }

  lemma {:induction false} EndsAddUp(tasks: seq<Phase>)
    requires forall t :: 0 <= t < |tasks| ==> InTime(tasks[t]) && Settled(tasks[t])
    ensures Sum(tasks, OneIfFirst) <= |tasks|
    ensures Sum(tasks, EndAt) <= Sum(tasks, FirstEnd) + LATEST_END * (|tasks| - Sum(tasks, OneIfFirst))
  {
    if tasks != [] {
      EndsAddUp(tasks[..|tasks| - 1]);
    }
  }

  /** Whatever the jitter, 91 tasks end at known times and the others in time. */
  lemma FloorEndsSoon(tapes: Tapes, floor: seq<Move>)
    requires |tapes| == PLACEMENT_TASKS && Redrawn(tapes)
    requires Finished(FloorArm, PLACEMENT_WINDOWS, PLACEMENT_WORKERS, tapes, floor)
    ensures Sum(After(FloorArm, PLACEMENT_WINDOWS, PLACEMENT_WORKERS, tapes, floor).tasks, EndAt)
         <= 387_350 + 149 * LATEST_END
  {
    hide Legal, After, Sum, Run;
    var k := FloorIsOnCourse(tapes, floor);
    var w := After(FloorArm, PLACEMENT_WINDOWS, PLACEMENT_WORKERS, tapes, floor);
    assert k < PLACEMENT_TASKS && Passing(w, k) ==> !Settled(w.tasks[k]);
    EndsAddUp(w.tasks);
  }

  // ------------------------------------------------------------------
  // Who is slower.
  // ------------------------------------------------------------------

  /** On such tapes the experiment's oracle takes longer than its floor, whatever the
      jitter. */
  lemma RedrawingFloorIsFaster(tapes: Tapes, floor: seq<Move>, oracle: seq<Move>)
    requires |tapes| == PLACEMENT_TASKS && Redrawn(tapes)
    requires Finished(FloorArm, PLACEMENT_WINDOWS, PLACEMENT_WORKERS, tapes, floor)
    requires Finished(OracleArm, PLACEMENT_WINDOWS, PLACEMENT_WORKERS, tapes, oracle)
    ensures Slower(Sum(After(OracleArm, PLACEMENT_WINDOWS, PLACEMENT_WORKERS, tapes, oracle).tasks, EndAt),
                   Sum(After(FloorArm, PLACEMENT_WINDOWS, PLACEMENT_WORKERS, tapes, floor).tasks, EndAt))
  {
    hide Finished, After, Sum, Triangle;
    FloorEndsSoon(tapes, floor);
    TriangleIs(60, PLACEMENT_WORKERS);
    OracleEndsLate(PLACEMENT_WINDOWS, PLACEMENT_WORKERS, tapes, oracle, LONG_MS, 60);
  }

  /** What the experiment's generator draws: a median of 120 and a spread of 0.3. */
  ghost predicate Drawable(tapes: Tapes) {
    forall t, k :: 0 <= t < |tapes| && 0 <= k < TAPE_LEN ==> 42 <= tapes[t][k] <= 339
  }

  /** The experiment's own fleet, script and size break the promise on tapes it
      draws. */
  lemma OracleIsSlowerAtScale() returns (tapes: Tapes)
    ensures |tapes| == PLACEMENT_TASKS && Drawable(tapes) && Redrawn(tapes)
    ensures forall floor, oracle ::
              Finished(FloorArm, PLACEMENT_WINDOWS, PLACEMENT_WORKERS, tapes, floor)
                && Finished(OracleArm, PLACEMENT_WINDOWS, PLACEMENT_WORKERS, tapes, oracle) ==>
                Slower(Sum(After(OracleArm, PLACEMENT_WINDOWS, PLACEMENT_WORKERS, tapes, oracle).tasks, EndAt),
                       Sum(After(FloorArm, PLACEMENT_WINDOWS, PLACEMENT_WORKERS, tapes, floor).tasks, EndAt))
    ensures !NeverSlower(PLACEMENT_WINDOWS, PLACEMENT_WORKERS, PLACEMENT_TASKS)
  {
    hide Legal, After, Sum, AllDone;
    tapes := seq(PLACEMENT_TASKS, t => [LONG_MS, SHORT_MS, SHORT_MS, SHORT_MS, SHORT_MS, SHORT_MS]);
    forall floor, oracle
      | Finished(FloorArm, PLACEMENT_WINDOWS, PLACEMENT_WORKERS, tapes, floor)
          && Finished(OracleArm, PLACEMENT_WINDOWS, PLACEMENT_WORKERS, tapes, oracle)
      ensures Slower(Sum(After(OracleArm, PLACEMENT_WINDOWS, PLACEMENT_WORKERS, tapes, oracle).tasks, EndAt),
                     Sum(After(FloorArm, PLACEMENT_WINDOWS, PLACEMENT_WORKERS, tapes, floor).tasks, EndAt))
    {
      RedrawingFloorIsFaster(tapes, floor, oracle);
    }
    var floor := EveryArmFinishes(FloorArm, PLACEMENT_WINDOWS, PLACEMENT_WORKERS, tapes);
    var oracle := EveryArmFinishes(OracleArm, PLACEMENT_WINDOWS, PLACEMENT_WORKERS, tapes);
  }

  /** Both arms of the experiment, each with its own jitter: the reported totals on
      such tapes. */
  method CompareAtScale(tapes: Tapes, jitter: nat -> real, floorJitter: nat -> real)
    returns (oracle: ArmStats, floor: ArmStats)
    requires |tapes| == PLACEMENT_TASKS
    ensures Redrawn(tapes) ==> Slower(Total(oracle.latencies), Total(floor.latencies))
    ensures oracle.completed == |tapes| >= floor.completed
  {
    hide Legal, After, Sum, EndTimes, Total, AllDone, Redrawn;
    ghost var oracleMoves, floorMoves;
    oracle, oracleMoves := RunPlacementArm(OracleArm, PLACEMENT_WINDOWS, PLACEMENT_WORKERS, tapes, jitter);
    floor, floorMoves := RunPlacementArm(FloorArm, PLACEMENT_WINDOWS, PLACEMENT_WORKERS, tapes, floorJitter);
    TotalIsSumOfEnds(oracle.latencies, After(OracleArm, PLACEMENT_WINDOWS, PLACEMENT_WORKERS, tapes, oracleMoves).tasks);
    TotalIsSumOfEnds(floor.latencies, After(FloorArm, PLACEMENT_WINDOWS, PLACEMENT_WORKERS, tapes, floorMoves).tasks);
    if Redrawn(tapes) {
      RedrawingFloorIsFaster(tapes, floorMoves, oracleMoves);
    }
  }
}
