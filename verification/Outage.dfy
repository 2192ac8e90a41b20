/**
 The placement arms compared. The experiment takes it for granted that the
 oracle is never slower than the floor. That holds exactly where no attempt can
 meet a degraded worker: an attempt that fails is drawn anew, and the oracle,
 which avoids the failure, also forgoes the draw.
 */
module Outage {
  import opened Numbers
  import opened Retry
  import opened Statistics
  import opened Tallies
  import opened Tasks
  import opened Fleet
  import opened Workloads
  import opened Placement

  /** No worker is ever degraded. */
  ghost predicate Healthy(windows: seq<Window>, workers: nat) {
    forall v: nat, at: nat :: v < workers ==> !Degraded(windows, v, at)
  }

  /** Where no worker degrades, floor and oracle can do exactly the same. */
  lemma {:induction false} HealthyArmsShareRuns(windows: seq<Window>, workers: nat, tapes: Tapes, moves: seq<Move>)
    requires Healthy(windows, workers)
    ensures Legal(OracleArm, windows, workers, tapes, moves) <==> Legal(FloorArm, windows, workers, tapes, moves)
    ensures Legal(FloorArm, windows, workers, tapes, moves) ==>
              After(OracleArm, windows, workers, tapes, moves) == After(FloorArm, windows, workers, tapes, moves)
  {
    hide Degraded;
    if moves != [] {
      var before, m := moves[..|moves| - 1], moves[|moves| - 1];
      HealthyArmsShareRuns(windows, workers, tapes, before);
      if Legal(FloorArm, windows, workers, tapes, before) {
        SameMoves(windows, workers, tapes, After(FloorArm, windows, workers, tapes, before), m);
      }
    }
  }

  lemma SameMoves(windows: seq<Window>, workers: nat, tapes: Tapes, w: World, m: Move)
    requires Healthy(windows, workers) && |w.busy| == |w.quarantine| == workers && |tapes| == |w.tasks|
    ensures Enabled(OracleArm, windows, w, m) <==> Enabled(FloorArm, windows, w, m)
    ensures InRange(w, m) ==> Apply(OracleArm, windows, tapes, w, m) == Apply(FloorArm, windows, tapes, w, m)
  {
    hide Degraded, WindowEnd;
  }

  // ------------------------------------------------------------------
  // Where no attempt can meet a degraded worker.
  // ------------------------------------------------------------------

  /** With a worker for each of the `n` tasks they all start at once, on the first
      `n` workers at the latest; with fewer, any worker may be used at any time. */
  ghost predicate Undisturbed(windows: seq<Window>, workers: nat, n: nat) {
    && (forall v: nat :: v < workers && v < n ==> !Degraded(windows, v, 0))
    && (workers < n ==> Healthy(windows, workers))
  }

  /** List scheduling: each task in turn goes to the worker that is free first. */
  ghost function Greedy(tapes: Tapes, workers: nat, k: nat): (w: World)
    requires k <= |tapes| && workers > 0
    ensures |w.tasks| == |tapes| && |w.busy| == |w.quarantine| == workers && |w.queue| == |tapes| - k
  {
    if k == 0 then Start(|tapes|, workers)
    else
      var w := Greedy(tapes, workers, k - 1);
      var at := TurnOf(w);
      World(at, w.tasks[k - 1 := Completed(1, at + tapes[k - 1][0])], w.queue[1..],
            w.busy[Earliest(w.busy) := at + tapes[k - 1][0]], w.quarantine)
  }

  /** When the next task can start. */
  ghost function TurnOf(w: World): nat
    requires w.busy != []
  {
    Max(w.now, w.busy[Earliest(w.busy)])
  }

  lemma {:induction false} GreedyShape(tapes: Tapes, workers: nat, k: nat)
    requires k <= |tapes| && workers > 0
    ensures var w := Greedy(tapes, workers, k);
      && w.queue == seq(|tapes| - k, i => k + i)
      && (forall t :: 0 <= t < k ==> w.tasks[t].Completed?)
      && (forall t :: k <= t < |tapes| ==> w.tasks[t] == Ready(0))
      && (forall v :: 0 <= v < workers ==> w.quarantine[v] == 0)
  {
    hide Earliest;
    if k > 0 {
      GreedyShape(tapes, workers, k - 1);
    }
  }

  /** While there are idle workers, tasks start at once. */
  lemma {:induction false} GreedyStart(tapes: Tapes, workers: nat, k: nat)
    requires k <= |tapes| && k <= workers && workers > 0
    ensures var w := Greedy(tapes, workers, k);
      w.now == 0 && forall v :: k <= v < workers ==> w.busy[v] == 0
  {
    hide Earliest;
    if k > 0 {
      GreedyStart(tapes, workers, k - 1);
      assert Greedy(tapes, workers, k - 1).busy[k - 1] == 0;
    }
  }

  /** The schedule never uses a degraded worker. */
  lemma TurnIsUndisturbed(windows: seq<Window>, workers: nat, tapes: Tapes, k: nat)
    requires workers > 0 && k < |tapes| && Undisturbed(windows, workers, |tapes|)
    ensures var w := Greedy(tapes, workers, k); !Degraded(windows, Earliest(w.busy), TurnOf(w))
  {
    hide Earliest, Degraded, Greedy;
    if |tapes| <= workers {
      GreedyStart(tapes, workers, k);
      assert Greedy(tapes, workers, k).busy[k] == 0;
    }
  }

  /** A world on schedule, up to the time it waits for the next turn. */
  ghost predicate OnSchedule(tapes: Tapes, workers: nat, w: World, k: nat) {
    && workers > 0 && k <= |tapes|
    && var g := Greedy(tapes, workers, k);
      w == g.(now := w.now) && (w.now == g.now || (k < |tapes| && w.now == TurnOf(g)))
  }

  lemma MoveKeepsSchedule(arm: Arm, windows: seq<Window>, workers: nat, tapes: Tapes, w: World, m: Move, k: nat)
      returns (k': nat)
    requires OnSchedule(tapes, workers, w, k) && Undisturbed(windows, workers, |tapes|)
    requires InRange(w, m) && Enabled(arm, windows, w, m)
    ensures OnSchedule(tapes, workers, Apply(arm, windows, tapes, w, m), k')
  {
    hide Earliest, Degraded, WindowEnd, Greedy, Healthy, BackoffDelay;
    GreedyShape(tapes, workers, k);
    k' := k;
    if k < |tapes| {
      TurnIsUndisturbed(windows, workers, tapes, k);
      var v := Earliest(w.busy);
      if m.Advance? {
        var u: nat :| IsCandidate(w.busy, u) && m.to == Max(w.now, w.busy[u]);
        OneCandidate(w.busy, u, v);
      } else if m.Veto? || m.Land? {
        OneCandidate(w.busy, m.worker, v);
        if m.Land? {
          k' := k + 1;
          LandsOnSchedule(arm, windows, workers, tapes, w, m, k);
        }
      }
    }
  }

  lemma LandsOnSchedule(arm: Arm, windows: seq<Window>, workers: nat, tapes: Tapes, w: World, m: Move, k: nat)
    requires OnSchedule(tapes, workers, w, k) && k < |tapes| && w.queue != [] && w.queue[0] == k && w.tasks[k] == Ready(0)
    requires m.Land? && m.task == k && m.worker == Earliest(w.busy) && w.busy[m.worker] <= w.now
    requires !Degraded(windows, m.worker, TurnOf(Greedy(tapes, workers, k)))
    ensures Apply(arm, windows, tapes, w, m) == Greedy(tapes, workers, k + 1)
  {
    hide Earliest, Degraded;
  }

  lemma {:induction false} UndisturbedRunsAreOnSchedule(arm: Arm, windows: seq<Window>, workers: nat, tapes: Tapes,
                                                        moves: seq<Move>) returns (k: nat)
    requires workers > 0 && Undisturbed(windows, workers, |tapes|) && Legal(arm, windows, workers, tapes, moves)
    ensures OnSchedule(tapes, workers, After(arm, windows, workers, tapes, moves), k)
  {
    hide Enabled, Apply, InRange, Undisturbed;
    if moves == [] {
      k := 0;
    } else {
      var before := moves[..|moves| - 1];
      k := UndisturbedRunsAreOnSchedule(arm, windows, workers, tapes, before);
      k := MoveKeepsSchedule(arm, windows, workers, tapes, After(arm, windows, workers, tapes, before),
                             moves[|moves| - 1], k);
    }
  }

  /** Whatever the arm, an undisturbed run ends every task as list scheduling does. */
  lemma UndisturbedRunsAgree(arm: Arm, windows: seq<Window>, workers: nat, tapes: Tapes, run: seq<Move>)
    requires workers > 0 && Undisturbed(windows, workers, |tapes|) && Finished(arm, windows, workers, tapes, run)
    ensures After(arm, windows, workers, tapes, run).tasks == Greedy(tapes, workers, |tapes|).tasks
  {
    hide Legal, After, Greedy, Undisturbed;
    var k := UndisturbedRunsAreOnSchedule(arm, windows, workers, tapes, run);
    GreedyShape(tapes, workers, k);
    assert k < |tapes| ==> !Settled(After(arm, windows, workers, tapes, run).tasks[k]);
  }

  // ------------------------------------------------------------------
  // How long the floor can take.
  // ------------------------------------------------------------------

  /** No failed attempt delays a task by more than this. */
  const LONGEST_WAIT: nat := FAIL_LATENCY_MS + 2 * BASE_RETRY_DELAY_MS

  /** Nothing has happened or is scheduled after `b`. */
  ghost predicate Within(w: World, b: nat) {
    && w.now <= b
    && (forall v :: 0 <= v < |w.busy| ==> w.busy[v] <= b)
    && (forall t :: 0 <= t < |w.tasks| && w.tasks[t].Waiting? ==> w.tasks[t].due <= b)
    && (forall t :: 0 <= t < |w.tasks| && Settled(w.tasks[t]) ==> w.tasks[t].at <= b)
  }

  /** Each attempt made so far accounts for at most `c` of the time passed. */
  ghost predicate Bounded(w: World, c: nat) {
    Within(w, Sum(w.tasks, Attempts) * c)
  }

  ghost predicate Cheap(windows: seq<Window>, tapes: Tapes, w: World, m: Move, c: nat)
    requires |tapes| == |w.tasks| && InRange(w, m)
  {
    m.Land? ==> HoldMs(windows, tapes, w, m.task, m.worker) <= c
  }

  lemma RetryIsSoon(now: nat, k: nat, uniform: real)
    requires 1 <= k < MAX_ATTEMPTS
    ensures RetryDue(now, k, uniform) <= now + LONGEST_WAIT
  {
    EarlyWindows();
  }

  lemma MoveKeepsWithin(windows: seq<Window>, tapes: Tapes, w: World, m: Move, b: nat, c: nat)
    requires |tapes| == |w.tasks| && InRange(w, m) && Enabled(FloorArm, windows, w, m)
    requires Safe(w) && Within(w, b) && Cheap(windows, tapes, w, m, c) && LONGEST_WAIT <= c
    ensures Within(Apply(FloorArm, windows, tapes, w, m), if m.Land? then b + c else b)
  {
    hide Degraded, HoldMs, RetryDue;
    if m.Land? && w.tasks[m.task].attempts + 1 < MAX_ATTEMPTS {
      RetryIsSoon(w.now, w.tasks[m.task].attempts + 1, m.uniform);
    }
  }

  lemma MoveAttempts(windows: seq<Window>, tapes: Tapes, w: World, m: Move)
    requires |tapes| == |w.tasks| && InRange(w, m) && Enabled(FloorArm, windows, w, m)
    ensures Sum(Apply(FloorArm, windows, tapes, w, m).tasks, Attempts)
         == Sum(w.tasks, Attempts) + if m.Land? then 1 else 0
  {
    hide Sum, Degraded, HoldMs, RetryDue;
    if m.Release? || m.Land? {
      SumOfUpdate(w.tasks, m.task, Apply(FloorArm, windows, tapes, w, m).tasks[m.task], Attempts);
    }
  }

  lemma MoveKeepsBounded(windows: seq<Window>, tapes: Tapes, w: World, m: Move, c: nat)
    requires |tapes| == |w.tasks| && InRange(w, m) && Enabled(FloorArm, windows, w, m)
    requires Safe(w) && Bounded(w, c) && Cheap(windows, tapes, w, m, c) && LONGEST_WAIT <= c
    ensures Bounded(Apply(FloorArm, windows, tapes, w, m), c)
  {
    hide Sum, Within, Apply, Enabled, Cheap, Safe, InRange;
    MoveKeepsWithin(windows, tapes, w, m, Sum(w.tasks, Attempts) * c, c);
    MoveAttempts(windows, tapes, w, m);
    OneMore(Sum(w.tasks, Attempts), c);
  }

  lemma {:induction false} AttemptsAtMost(tasks: seq<Phase>)
    requires forall t :: 0 <= t < |tasks| ==> PhaseOk(tasks[t])
    ensures Sum(tasks, Attempts) <= MAX_ATTEMPTS * |tasks|
  {
    if tasks != [] {
      AttemptsAtMost(tasks[..|tasks| - 1]);
    }
  }

  lemma BoundedMeansWithin(w: World, c: nat)
    requires Safe(w) && Bounded(w, c)
    ensures Within(w, MAX_ATTEMPTS * |w.tasks| * c)
  {
    hide Sum;
    AttemptsAtMost(w.tasks);
    Scaled(Sum(w.tasks, Attempts), MAX_ATTEMPTS * |w.tasks|, c);
  }

  lemma Scaled(x: nat, y: nat, c: nat)
    requires x <= y
    ensures x * c <= y * c
  {
  }

  /** What a bounded run adds up to. */
  lemma BoundedTotal(w: World, c: nat)
    requires Safe(w) && Bounded(w, c)
    ensures Sum(w.tasks, EndAt) <= |w.tasks| * (MAX_ATTEMPTS * |w.tasks| * c)
  {
    hide Sum, Bounded, Safe;
    BoundedMeansWithin(w, c);
    EndsAtMost(w.tasks, |w.tasks|, MAX_ATTEMPTS * |w.tasks| * c, 0);
  }

  lemma StartIsBounded(n: nat, workers: nat, c: nat)
    ensures Bounded(Start(n, workers), c)
  {
    SumOfConstant(Start(n, workers).tasks, 0, Attempts);
  }

  // ------------------------------------------------------------------
  // A task whose first attempt is long, sent to a degraded worker.
  // ------------------------------------------------------------------

  /** The first time any worker is degraded, and the first worker that then is. */
  ghost predicate FirstTrouble(windows: seq<Window>, workers: nat, at: nat, v: nat) {
    && v < workers && Degraded(windows, v, at)
    && (forall u: nat, a: nat :: u < workers && a < at ==> !Degraded(windows, u, a))
    && (forall u: nat :: u < v ==> !Degraded(windows, u, at))
  }

  lemma {:induction false} TroubleStartsSomewhere(windows: seq<Window>, workers: nat, at: nat, v: nat)
      returns (at': nat, v': nat)
    requires v < workers && Degraded(windows, v, at)
    ensures FirstTrouble(windows, workers, at', v') && (at' < at || (at' == at && v' <= v))
    decreases at, v
  {
    hide Degraded;
    if u: nat, a: nat :| u < workers && a < at && Degraded(windows, u, a) {
      at', v' := TroubleStartsSomewhere(windows, workers, a, u);
    } else if u: nat :| u < v && Degraded(windows, u, at) {
      at', v' := TroubleStartsSomewhere(windows, workers, at, u);
    } else {
      at', v' := at, v;
    }
  }

  /** The task that meets the trouble: those before it keep the other workers busy. */
  function Head(workers: nat, at: nat, v: nat): nat {
    if at == 0 then v else workers
  }

  function FillMs(t: nat, at: nat, v: nat): nat {
    if t == v then at else at + 1
  }

  /** Every attempt but the head's first takes at most `c`, and that one longer
      than twice what all the others together could. */
  ghost predicate Trips(windows: seq<Window>, workers: nat, tapes: Tapes, at: nat, v: nat, c: nat) {
    var x := Head(workers, at, v);
    && FirstTrouble(windows, workers, at, v) && x < |tapes| && LONGEST_WAIT <= c
    && (forall t: nat :: t < x ==> tapes[t][0] == FillMs(t, at, v))
    && (forall t: nat, k: nat :: t < |tapes| && k < TAPE_LEN && (t != x || k != 0) ==> tapes[t][k] <= c)
    && tapes[x][0] > 2 * (|tapes| * (MAX_ATTEMPTS * |tapes| * c))
  }

  /** The tasks before the head are being placed, one on each worker. */
  ghost predicate Filling(w: World, at: nat, v: nat, k: nat) {
    && k <= Head(|w.busy|, at, v) < |w.tasks| && v < |w.busy| && w.queue == seq(|w.tasks| - k, i => k + i)
    && (w.now == 0 || (k == Head(|w.busy|, at, v) && w.now == at))
    && (forall t :: 0 <= t < k ==> w.tasks[t].Completed?)
    && (forall t :: k <= t < |w.tasks| ==> w.tasks[t] == Ready(0))
    && (forall u :: 0 <= u < |w.busy| ==> w.busy[u] == if u < k then FillMs(u, at, v) else 0)
  }

  /** Worker `k` is next, and after all of them the one that will be in trouble. */
  lemma NextToFill(w: World, at: nat, v: nat, k: nat, u: nat)
    requires Filling(w, at, v, k) && IsCandidate(w.busy, u)
    ensures k < Head(|w.busy|, at, v) ==> u == k && w.busy[u] == 0
    ensures k == Head(|w.busy|, at, v) ==> u == v && w.busy[u] == at
  {
    assert w.busy[u] <= w.busy[v];
    assert k < |w.busy| ==> w.busy[u] <= w.busy[k];
  }

  lemma FillingLands(windows: seq<Window>, workers: nat, tapes: Tapes, w: World, m: Move, at: nat, v: nat, k: nat, c: nat)
    requires |tapes| == |w.tasks| && |w.busy| == |w.quarantine| == workers
    requires Trips(windows, workers, tapes, at, v, c) && Filling(w, at, v, k)
    requires m.Land? && InRange(w, m) && Enabled(FloorArm, windows, w, m)
    ensures Cheap(windows, tapes, w, m, c)
    ensures var w' := Apply(FloorArm, windows, tapes, w, m);
      if k < Head(workers, at, v) then Filling(w', at, v, k + 1) else w'.tasks[Head(workers, at, v)].attempts >= 1
  {
    hide Degraded, RetryDue, BackoffDelay;
    NextToFill(w, at, v, k, m.worker);
    assert w.queue[0] == k;
    if k < Head(workers, at, v) {
      assert !Degraded(windows, k, 0);
      assert w.queue[1..] == seq(|w.tasks| - k - 1, i => k + 1 + i);
    }
  }

  lemma FillingGoesOn(windows: seq<Window>, workers: nat, tapes: Tapes, w: World, m: Move, at: nat, v: nat, k: nat, c: nat)
      returns (k': nat)
    requires |tapes| == |w.tasks| && |w.busy| == |w.quarantine| == workers
    requires Trips(windows, workers, tapes, at, v, c) && Filling(w, at, v, k)
    requires InRange(w, m) && Enabled(FloorArm, windows, w, m)
    ensures Cheap(windows, tapes, w, m, c)
    ensures var w' := Apply(FloorArm, windows, tapes, w, m);
      Filling(w', at, v, k') || w'.tasks[Head(workers, at, v)].attempts >= 1
  {
    hide Degraded, Trips, RetryDue, BackoffDelay, HoldMs, Landed;
    k' := k;
    if m.Land? {
      FillingLands(windows, workers, tapes, w, m, at, v, k, c);
      k' := k + 1;
    } else if m.Advance? {
      var u: nat :| IsCandidate(w.busy, u) && m.to == Max(w.now, w.busy[u]);
      NextToFill(w, at, v, k, u);
    }
  }

  /** Once the head has failed, no attempt is long. */
  lemma TrippedGoesOn(windows: seq<Window>, workers: nat, tapes: Tapes, w: World, m: Move, at: nat, v: nat, c: nat)
    requires |tapes| == |w.tasks| && Safe(w) && Trips(windows, workers, tapes, at, v, c)
    requires InRange(w, m) && Enabled(FloorArm, windows, w, m) && w.tasks[Head(workers, at, v)].attempts >= 1
    ensures Cheap(windows, tapes, w, m, c)
    ensures Apply(FloorArm, windows, tapes, w, m).tasks[Head(workers, at, v)].attempts >= 1
  {
    hide Degraded, FirstTrouble, RetryDue, BackoffDelay;
  }

  lemma {:induction false} FloorTrips(windows: seq<Window>, workers: nat, tapes: Tapes, moves: seq<Move>,
                                      at: nat, v: nat, c: nat) returns (k: nat)
    requires Trips(windows, workers, tapes, at, v, c) && Legal(FloorArm, windows, workers, tapes, moves)
    ensures var w := After(FloorArm, windows, workers, tapes, moves);
      Bounded(w, c) && (Filling(w, at, v, k) || w.tasks[Head(workers, at, v)].attempts >= 1)
  {
    hide Enabled, Apply, InRange, Filling, Bounded, FirstTrouble, Head, Safe, Cheap;
    if moves == [] {
      k := 0;
      StartIsBounded(|tapes|, workers, c);
      StartsFilling(windows, workers, tapes, at, v, c);
    } else {
      var before, m := moves[..|moves| - 1], moves[|moves| - 1];
      k := FloorTrips(windows, workers, tapes, before, at, v, c);
      var w := After(FloorArm, windows, workers, tapes, before);
      LegalRunsAreSafe(FloorArm, windows, workers, tapes, before);
      if Filling(w, at, v, k) {
        k := FillingGoesOn(windows, workers, tapes, w, m, at, v, k, c);
      } else {
        TrippedGoesOn(windows, workers, tapes, w, m, at, v, c);
      }
      MoveKeepsBounded(windows, tapes, w, m, c);
    }
  }

  lemma StartsFilling(windows: seq<Window>, workers: nat, tapes: Tapes, at: nat, v: nat, c: nat)
    requires Trips(windows, workers, tapes, at, v, c)
    ensures Filling(Start(|tapes|, workers), at, v, 0)
  {
  }

  /** A completed task took at least what its tape says. */
  ghost predicate Heeds(tapes: Tapes, tasks: seq<Phase>) {
    && |tapes| == |tasks|
    && forall t :: 0 <= t < |tasks| && tasks[t].Completed? ==>
         1 <= tasks[t].attempts <= TAPE_LEN && tapes[t][tasks[t].attempts - 1] <= tasks[t].at
  }

  lemma MoveKeepsHeeding(arm: Arm, windows: seq<Window>, tapes: Tapes, w: World, m: Move)
    requires Heeds(tapes, w.tasks) && Safe(w) && InRange(w, m) && Enabled(arm, windows, w, m)
    ensures Heeds(tapes, Apply(arm, windows, tapes, w, m).tasks)
  {
    hide Degraded, BackoffDelay, RetryDue, VetoUntil;
  }

  lemma {:induction false} TapesAreHeeded(arm: Arm, windows: seq<Window>, workers: nat, tapes: Tapes, moves: seq<Move>)
    requires Legal(arm, windows, workers, tapes, moves)
    ensures Heeds(tapes, After(arm, windows, workers, tapes, moves).tasks)
  {
    hide Enabled, Apply, InRange, Safe;
    if moves != [] {
      var before := moves[..|moves| - 1];
      TapesAreHeeded(arm, windows, workers, tapes, before);
      LegalRunsAreSafe(arm, windows, workers, tapes, before);
      MoveKeepsHeeding(arm, windows, tapes, After(arm, windows, workers, tapes, before), moves[|moves| - 1]);
    }
  }

  /** The oracle never fails an attempt, so every task takes its first latency. */
  lemma OracleTakesFirstLatencies(windows: seq<Window>, workers: nat, tapes: Tapes, oracle: seq<Move>, t: nat)
    requires Finished(OracleArm, windows, workers, tapes, oracle) && t < |tapes|
    ensures tapes[t][0] <= Sum(After(OracleArm, windows, workers, tapes, oracle).tasks, EndAt)
  {
    hide Legal, After, Sum;
    var tasks := After(OracleArm, windows, workers, tapes, oracle).tasks;
    TapesAreHeeded(OracleArm, windows, workers, tapes, oracle);
    Fleet.OracleWastesNothing(windows, workers, tapes, oracle);
    SumAtLeast(tasks, t, OneIfDead);
    SumAtLeast(tasks, t, Wasted);
    SumAtLeast(tasks, t, EndAt);
  }

  /** On tapes that trip the floor, every run of the oracle takes longer in total
      than every run of the floor. */
  lemma TrippedFloorIsFaster(windows: seq<Window>, workers: nat, tapes: Tapes, floor: seq<Move>, oracle: seq<Move>,
                             at: nat, v: nat, c: nat)
    requires Trips(windows, workers, tapes, at, v, c)
    requires Finished(FloorArm, windows, workers, tapes, floor) && Finished(OracleArm, windows, workers, tapes, oracle)
    ensures Slower(Sum(After(OracleArm, windows, workers, tapes, oracle).tasks, EndAt),
                   Sum(After(FloorArm, windows, workers, tapes, floor).tasks, EndAt))
  {
    hide Legal, After, Sum, Bounded, Safe, FirstTrouble, Filling;
    var k := FloorTrips(windows, workers, tapes, floor, at, v, c);
    LegalRunsAreSafe(FloorArm, windows, workers, tapes, floor);
    BoundedTotal(After(FloorArm, windows, workers, tapes, floor), c);
    OracleTakesFirstLatencies(windows, workers, tapes, oracle, Head(workers, at, v));
  }

  lemma TapesWith(n: nat, x: nat, at: nat, v: nat, long: nat) returns (tapes: Tapes)
    requires x < n
    ensures |tapes| == n && tapes[x][0] == long
    ensures forall t: nat :: t < x ==> tapes[t][0] == FillMs(t, at, v)
    ensures forall t: nat, k: nat :: t < n && k < TAPE_LEN && (t != x || k != 0) ==> tapes[t][k] <= at + 1
  {
    tapes := seq(n, t requires 0 <= t < n => seq(TAPE_LEN, k =>
      if k != 0 then 0 else if t < x then FillMs(t, at, v) else if t == x then long else 0));
  }

  lemma TrippingTapesExist(windows: seq<Window>, workers: nat, n: nat, at: nat, v: nat) returns (tapes: Tapes, c: nat)
    requires FirstTrouble(windows, workers, at, v) && Head(workers, at, v) < n
    ensures |tapes| == n && Trips(windows, workers, tapes, at, v, c)
  {
    hide FirstTrouble, Head, FillMs;
    c := LONGEST_WAIT + at + 1;
    tapes := TapesWith(n, Head(workers, at, v), at, v, 2 * (n * (MAX_ATTEMPTS * n * c)) + 1);
  }

  // ------------------------------------------------------------------
  // Who is slower.
  // ------------------------------------------------------------------

  /** The oracle's total is at most the floor's on all tapes of that many tasks. */
  ghost predicate NeverSlower(windows: seq<Window>, workers: nat, n: nat) {
    forall tapes: Tapes, floor, oracle ::
      |tapes| == n && Finished(FloorArm, windows, workers, tapes, floor)
        && Finished(OracleArm, windows, workers, tapes, oracle) ==>
        !Slower(Sum(After(OracleArm, windows, workers, tapes, oracle).tasks, EndAt),
                Sum(After(FloorArm, windows, workers, tapes, floor).tasks, EndAt))
  }

  /** What disturbs the tasks can be made to meet a task of theirs. */
  lemma DisturbanceMeetsATask(windows: seq<Window>, workers: nat, n: nat) returns (at: nat, v: nat)
    requires !Undisturbed(windows, workers, n)
    ensures FirstTrouble(windows, workers, at, v) && Head(workers, at, v) < n
  {
    hide Degraded;
    if u: nat :| u < workers && u < n && Degraded(windows, u, 0) {
      at, v := TroubleStartsSomewhere(windows, workers, 0, u);
    } else {
      var u: nat, a: nat :| u < workers && Degraded(windows, u, a);
      at, v := TroubleStartsSomewhere(windows, workers, a, u);
    }
  }

  /** The promise holds for exactly the fault scripts that cannot disturb the
      tasks. */
  lemma NeverSlowerExactly(windows: seq<Window>, workers: nat, n: nat)
    requires workers > 0
    ensures NeverSlower(windows, workers, n) <==> Undisturbed(windows, workers, n)
  {
    hide Legal, After, Sum, Undisturbed, Trips, FirstTrouble, AllDone;
    if Undisturbed(windows, workers, n) {
      forall tapes: Tapes, floor, oracle
        | |tapes| == n && Finished(FloorArm, windows, workers, tapes, floor)
            && Finished(OracleArm, windows, workers, tapes, oracle)
        ensures !Slower(Sum(After(OracleArm, windows, workers, tapes, oracle).tasks, EndAt),
                        Sum(After(FloorArm, windows, workers, tapes, floor).tasks, EndAt))
      {
        UndisturbedRunsAgree(FloorArm, windows, workers, tapes, floor);
        UndisturbedRunsAgree(OracleArm, windows, workers, tapes, oracle);
      }
    } else {
      var at, v := DisturbanceMeetsATask(windows, workers, n);
      var tapes, c := TrippingTapesExist(windows, workers, n, at, v);
      var floor := EveryArmFinishes(FloorArm, windows, workers, tapes);
      var oracle := EveryArmFinishes(OracleArm, windows, workers, tapes);
      TrippedFloorIsFaster(windows, workers, tapes, floor, oracle, at, v, c);
    }
  }

  // The experiment's own fleet, script and size.
  const PLACEMENT_WORKERS: nat := 4
  const PLACEMENT_TASKS: nat := 240
  const PLACEMENT_WINDOWS: seq<Window> := [Window(1, 2_000, 5_000), Window(3, 7_000, 8_500)]

  // ------------------------------------------------------------------
  // A fleet that is down to begin with.
  // ------------------------------------------------------------------

  /** Every worker is degraded until `end`. */
  ghost predicate Down(windows: seq<Window>, workers: nat, end: nat) {
    forall v: nat, at: nat :: v < workers && at < end ==> Degraded(windows, v, at)
  }

  ghost predicate NothingBefore(tasks: seq<Phase>, end: nat) {
    forall t :: 0 <= t < |tasks| && tasks[t].Completed? ==> end <= tasks[t].at
  }

  /** The oracle completes nothing before the outage ends. */
  lemma {:induction false} OracleWaits(windows: seq<Window>, workers: nat, tapes: Tapes, moves: seq<Move>, end: nat)
    requires Down(windows, workers, end) && Legal(OracleArm, windows, workers, tapes, moves)
    ensures NothingBefore(After(OracleArm, windows, workers, tapes, moves).tasks, end)
  {
    hide Degraded, WindowEnd;
    if moves != [] {
      OracleWaits(windows, workers, tapes, moves[..|moves| - 1], end);
    }
  }

  /** Longer than twice what all attempts on that many tasks can take to fail. */
  ghost predicate LongOutage(n: nat, end: nat) {
    2 * (MAX_ATTEMPTS * n * LONGEST_WAIT) < end
  }

  lemma FailingGoesOn(windows: seq<Window>, workers: nat, tapes: Tapes, w: World, m: Move, end: nat)
    requires Down(windows, workers, end) && |w.busy| == |w.quarantine| == workers && |tapes| == |w.tasks| && w.now < end
    requires InRange(w, m) && Enabled(FloorArm, windows, w, m) && NoneCompleted(w.tasks)
    ensures Cheap(windows, tapes, w, m, LONGEST_WAIT) && NoneCompleted(Apply(FloorArm, windows, tapes, w, m).tasks)
  {
    hide Degraded, BackoffDelay, RetryDue;
  }

  ghost predicate NoneCompleted(tasks: seq<Phase>) {
    forall t :: 0 <= t < |tasks| ==> !tasks[t].Completed?
  }

  /** The floor spends every attempt inside the outage. */
  lemma {:induction false} FloorFails(windows: seq<Window>, workers: nat, tapes: Tapes, moves: seq<Move>, end: nat)
    requires Down(windows, workers, end) && LongOutage(|tapes|, end)
    requires Legal(FloorArm, windows, workers, tapes, moves)
    ensures var w := After(FloorArm, windows, workers, tapes, moves);
      NoneCompleted(w.tasks) && Bounded(w, LONGEST_WAIT)
  {
    hide Enabled, Apply, InRange, Bounded, Down, Safe, Cheap, NoneCompleted;
    if moves == [] {
      StartIsBounded(|tapes|, workers, LONGEST_WAIT);
      assert NoneCompleted(Start(|tapes|, workers).tasks) by { NoneToStart(|tapes|, workers); }
    } else {
      var before, m := moves[..|moves| - 1], moves[|moves| - 1];
      FloorFails(windows, workers, tapes, before, end);
      var w := After(FloorArm, windows, workers, tapes, before);
      LegalRunsAreSafe(FloorArm, windows, workers, tapes, before);
      BoundedMeansWithin(w, LONGEST_WAIT);
      FailingGoesOn(windows, workers, tapes, w, m, end);
      MoveKeepsBounded(windows, tapes, w, m, LONGEST_WAIT);
    }
  }

  lemma NoneToStart(n: nat, workers: nat)
    ensures NoneCompleted(Start(n, workers).tasks)
  {
  }

  lemma {:induction false} LateEndsAddUp(tasks: seq<Phase>, end: nat)
    requires forall t :: 0 <= t < |tasks| ==> end <= EndAt(tasks[t])
    ensures |tasks| * end <= Sum(tasks, EndAt)
  {
    if tasks != [] {
      LateEndsAddUp(tasks[..|tasks| - 1], end);
      OneMore(|tasks| - 1, end);
    }
  }

  lemma AfterTheOutage(windows: seq<Window>, workers: nat, tapes: Tapes, oracle: seq<Move>, end: nat)
    requires Down(windows, workers, end) && Finished(OracleArm, windows, workers, tapes, oracle)
    ensures |tapes| * end <= Sum(After(OracleArm, windows, workers, tapes, oracle).tasks, EndAt)
  {
    hide Legal, After, Sum, Down;
    var tasks := After(OracleArm, windows, workers, tapes, oracle).tasks;
    OracleWaits(windows, workers, tapes, oracle, end);
    Fleet.OracleWastesNothing(windows, workers, tapes, oracle);
    forall t | 0 <= t < |tasks| ensures end <= EndAt(tasks[t]) {
      SumAtLeast(tasks, t, OneIfDead);
    }
    LateEndsAddUp(tasks, end);
  }

  /** Through a long enough outage the floor completes nothing, and for that takes
      less time than the oracle, which completes everything. */
  lemma OutageFavoursTheFloor(windows: seq<Window>, workers: nat, tapes: Tapes, floor: seq<Move>, oracle: seq<Move>, end: nat)
    requires Down(windows, workers, end) && LongOutage(|tapes|, end) && tapes != []
    requires Finished(FloorArm, windows, workers, tapes, floor) && Finished(OracleArm, windows, workers, tapes, oracle)
    ensures NoneCompleted(After(FloorArm, windows, workers, tapes, floor).tasks)
    ensures Slower(Sum(After(OracleArm, windows, workers, tapes, oracle).tasks, EndAt),
                   Sum(After(FloorArm, windows, workers, tapes, floor).tasks, EndAt))
  {
    hide Legal, After, Sum, Down, Bounded, Safe, NoneCompleted;
    FloorFails(windows, workers, tapes, floor, end);
    LegalRunsAreSafe(FloorArm, windows, workers, tapes, floor);
    BoundedTotal(After(FloorArm, windows, workers, tapes, floor), LONGEST_WAIT);
    AfterTheOutage(windows, workers, tapes, oracle, end);
    StrictlyScaled(|tapes|, MAX_ATTEMPTS * |tapes| * LONGEST_WAIT, end);
  }

  lemma StrictlyScaled(n: nat, x: nat, y: nat)
    requires n > 0 && 2 * x < y
    ensures 2 * (n * x) < n * y
  {
    assert n * (2 * x) < n * y;
  }

  // ------------------------------------------------------------------
  // The reported figures.
  // ------------------------------------------------------------------

  /** Both arms on one fleet, script and set of tapes, each with its own jitter:
      equal totals where nothing disturbs the tasks, a slower oracle on the tapes
      that trip the floor and through a long outage. */
  method CompareArms(windows: seq<Window>, workers: nat, tapes: Tapes, jitter: nat -> real, floorJitter: nat -> real)
    returns (oracle: ArmStats, floor: ArmStats)
    requires workers > 0
    ensures oracle.completed == |tapes| >= floor.completed
    ensures Undisturbed(windows, workers, |tapes|) ==> Total(oracle.latencies) == Total(floor.latencies)
    ensures forall at: nat, v: nat, c: nat :: Trips(windows, workers, tapes, at, v, c) ==>
              Slower(Total(oracle.latencies), Total(floor.latencies))
    ensures forall end: nat :: Down(windows, workers, end) && LongOutage(|tapes|, end) && tapes != [] ==>
              Slower(Total(oracle.latencies), Total(floor.latencies)) && floor.completed == 0
  {
    hide Legal, After, Sum, EndTimes, Total, Down, AllDone, Undisturbed, Trips, NoneCompleted;
    ghost var oracleMoves, floorMoves;
    oracle, oracleMoves := RunPlacementArm(OracleArm, windows, workers, tapes, jitter);
    floor, floorMoves := RunPlacementArm(FloorArm, windows, workers, tapes, floorJitter);
    ghost var late := After(OracleArm, windows, workers, tapes, oracleMoves).tasks;
    ghost var early := After(FloorArm, windows, workers, tapes, floorMoves).tasks;
    TotalIsSumOfEnds(oracle.latencies, late);
    TotalIsSumOfEnds(floor.latencies, early);
    if Undisturbed(windows, workers, |tapes|) {
      UndisturbedRunsAgree(FloorArm, windows, workers, tapes, floorMoves);
      UndisturbedRunsAgree(OracleArm, windows, workers, tapes, oracleMoves);
    }
    forall at: nat, v: nat, c: nat | Trips(windows, workers, tapes, at, v, c)
      ensures Slower(Total(oracle.latencies), Total(floor.latencies))
    {
      TrippedFloorIsFaster(windows, workers, tapes, floorMoves, oracleMoves, at, v, c);
    }
    forall end: nat | Down(windows, workers, end) && LongOutage(|tapes|, end) && tapes != []
      ensures Slower(Total(oracle.latencies), Total(floor.latencies)) && floor.completed == 0
    {
      OutageFavoursTheFloor(windows, workers, tapes, floorMoves, oracleMoves, end);
      assert Sum(early, OneIfCompleted) == 0 by { NoCompletions(early); }
    }
  }

  lemma NoCompletions(tasks: seq<Phase>)
    requires NoneCompleted(tasks)
    ensures Sum(tasks, OneIfCompleted) == 0
  {
    SumOfConstant(tasks, 0, OneIfCompleted);
  }
}
