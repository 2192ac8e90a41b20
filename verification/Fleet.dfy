/**
 A fleet of serial workers, some degraded at scripted times, draining one
 queue: the moves a placement policy can make, and what every run keeps.
 */
module Fleet {
  import opened Numbers
  import opened Retry
  import opened Tallies
  import opened Tasks
  import opened EventQueue
  import opened Wrappers

  const FAIL_LATENCY_MS: nat := 25
  const QUARANTINE_MS: nat := 30_000

  datatype Window = Window(worker: nat, start: nat, end: nat)

  /** `busy` and `quarantine` are per worker: when it is free, and until when
      the heuristic arm distrusts it. */
  datatype World = World(now: nat, tasks: seq<Phase>, queue: seq<nat>, busy: seq<nat>, quarantine: seq<nat>)

  datatype Move =
    | Release(task: nat)
    | Advance(to: nat)
    | Veto(worker: nat, until: nat)
    | Land(task: nat, worker: nat, uniform: real)

  // ------------------------------------------------------------------
  // Windows, vetoes and the candidate worker.
  // ------------------------------------------------------------------

  predicate InWindow(win: Window, worker: nat, at: nat) {
    win.worker == worker && win.start <= at < win.end
  }

  predicate Degraded(windows: seq<Window>, worker: nat, at: nat) {
    exists i :: 0 <= i < |windows| && InWindow(windows[i], worker, at)
  }

  /** Window `i` covers the instant and no earlier one in the script does. */
  ghost predicate FirstWindow(windows: seq<Window>, worker: nat, at: nat, i: int) {
    && 0 <= i < |windows| && InWindow(windows[i], worker, at)
    && forall j :: 0 <= j < i ==> !InWindow(windows[j], worker, at)
  }

  function WindowEnd(windows: seq<Window>, worker: nat, at: nat): (r: Option<nat>)
    ensures r.Some? <==> Degraded(windows, worker, at)
    ensures r.Some? ==> exists i :: FirstWindow(windows, worker, at, i) && windows[i].end == r.value
  {
    if windows == [] then None
    else if InWindow(windows[0], worker, at) then
      assert FirstWindow(windows, worker, at, 0);
      Some(windows[0].end)
    else
      assert forall i :: 0 <= i < |windows| - 1 ==> windows[1..][i] == windows[i + 1];
      var r := WindowEnd(windows[1..], worker, at);
      assert Degraded(windows[1..], worker, at) <==> Degraded(windows, worker, at);
      assert forall i: nat :: FirstWindow(windows[1..], worker, at, i) ==> FirstWindow(windows, worker, at, i + 1);
      r
  }

  function VetoUntil(arm: Arm, windows: seq<Window>, quarantine: seq<nat>, now: nat, worker: nat): Option<nat>
    requires worker < |quarantine|
  {
    match arm
    case FloorArm => None
    case OracleArm => WindowEnd(windows, worker, now)
    case HeuristicArm => if quarantine[worker] > now then Some(quarantine[worker]) else None
  }

  /** The earliest-free worker; of several, the lowest-numbered. */
  ghost predicate IsCandidate(busy: seq<nat>, worker: nat) {
    && worker < |busy|
    && forall v :: 0 <= v < |busy| ==> busy[worker] <= busy[v] && (v < worker ==> busy[worker] < busy[v])
  }

  lemma OneCandidate(busy: seq<nat>, u: nat, v: nat)
    requires IsCandidate(busy, u) && IsCandidate(busy, v)
    ensures u == v
  {
    assert busy[u] == busy[v];
  }

  ghost function Earliest(busy: seq<nat>): (worker: nat)
    requires busy != []
    ensures IsCandidate(busy, worker)
  {
    var n := |busy| - 1;
    if n == 0 then 0
    else
      var worker := Earliest(busy[..n]);
      if busy[n] < busy[worker] then n else worker
  }

  // ------------------------------------------------------------------
  // The moves.
  // ------------------------------------------------------------------

  ghost predicate NoneDue(w: World) {
    forall t :: 0 <= t < |w.tasks| && w.tasks[t].Waiting? ==> w.tasks[t].due > w.now
  }

  /** Of the waiting tasks, `t` is due first; ties go to the lower number. */
  ghost predicate DueFirst(w: World, t: nat) {
    && t < |w.tasks| && w.tasks[t].Waiting?
    && forall u :: 0 <= u < |w.tasks| && w.tasks[u].Waiting? ==>
         NoLater(Event(w.tasks[t].due, t), Event(w.tasks[u].due, u))
  }

  /** The candidate is free and there is a task for it. */
  ghost predicate CanClaim(w: World, worker: nat) {
    NoneDue(w) && w.queue != [] && IsCandidate(w.busy, worker) && w.busy[worker] <= w.now && worker < |w.quarantine|
  }

  ghost predicate Enabled(arm: Arm, windows: seq<Window>, w: World, m: Move) {
    match m
    case Release(t) => DueFirst(w, t) && w.tasks[t].due <= w.now
    case Advance(to) =>
      // To the first retry when nothing is ready, else to the candidate's freedom.
      && NoneDue(w) && w.now <= to
      && (w.queue == [] ==> exists t: nat :: DueFirst(w, t) && w.tasks[t].due == to)
      && (w.queue != [] ==> exists v: nat :: IsCandidate(w.busy, v) && to == Max(w.now, w.busy[v]))
    case Veto(worker, until) => CanClaim(w, worker) && VetoUntil(arm, windows, w.quarantine, w.now, worker) == Some(until)
    case Land(t, worker, _) =>
      CanClaim(w, worker) && w.queue[0] == t && t < |w.tasks| && w.tasks[t].Ready?
      && VetoUntil(arm, windows, w.quarantine, w.now, worker) == None
  }

  function RetryDue(now: nat, attempt: nat, uniform: real): nat {
    now + FAIL_LATENCY_MS + BackoffDelay(attempt, uniform, BASE_RETRY_DELAY_MS, MAX_RETRY_DELAY_MS)
  }

  /** How long the attempt holds the worker. */
  function HoldMs(windows: seq<Window>, tapes: Tapes, w: World, t: nat, worker: nat): nat
    requires t < |w.tasks| == |tapes|
  {
    if Degraded(windows, worker, w.now) then FAIL_LATENCY_MS
    else if w.tasks[t].attempts < TAPE_LEN then tapes[t][w.tasks[t].attempts] else 0
  }

  function Landed(windows: seq<Window>, tapes: Tapes, w: World, t: nat, worker: nat, uniform: real): Phase
    requires t < |w.tasks| == |tapes|
  {
    var k := w.tasks[t].attempts + 1;
    var end := w.now + HoldMs(windows, tapes, w, t, worker);
    if !Degraded(windows, worker, w.now) then Completed(k, end)
    else if k < MAX_ATTEMPTS then Waiting(k, RetryDue(w.now, k, uniform))
    else DeadLettered(k, end)
  }

  ghost predicate InRange(w: World, m: Move) {
    match m
    case Release(t) => t < |w.tasks|
    case Advance(_) => true
    case Veto(worker, _) => worker < |w.busy|
    case Land(t, worker, _) => t < |w.tasks| && worker < |w.busy| && worker < |w.quarantine| && w.queue != []
  }

  ghost function Apply(arm: Arm, windows: seq<Window>, tapes: Tapes, w: World, m: Move): (w': World)
    requires |tapes| == |w.tasks| && InRange(w, m)
    ensures |w'.tasks| == |w.tasks| && |w'.busy| == |w.busy| && |w'.quarantine| == |w.quarantine|
  {
    match m
    case Release(t) => w.(tasks := w.tasks[t := Ready(w.tasks[t].attempts)], queue := w.queue + [t])
    case Advance(to) => w.(now := to)
    case Veto(worker, until) => w.(busy := w.busy[worker := Max(until, w.busy[worker])])
    case Land(t, worker, uniform) =>
      World(w.now,
            w.tasks[t := Landed(windows, tapes, w, t, worker, uniform)],
            w.queue[1..],
            w.busy[worker := w.now + HoldMs(windows, tapes, w, t, worker)],
            if arm.HeuristicArm? && Degraded(windows, worker, w.now)
            then w.quarantine[worker := w.now + FAIL_LATENCY_MS + QUARANTINE_MS] else w.quarantine)
  }

  function Start(n: nat, workers: nat): World {
    World(0, seq(n, t => Ready(0)), seq(n, t => t), seq(workers, v => 0), seq(workers, v => 0))
  }

  ghost predicate Legal(arm: Arm, windows: seq<Window>, workers: nat, tapes: Tapes, moves: seq<Move>)
    decreases |moves|, 0
  {
    moves == [] ||
    var before, m := moves[..|moves| - 1], moves[|moves| - 1];
    && Legal(arm, windows, workers, tapes, before)
    && var w := After(arm, windows, workers, tapes, before);
      InRange(w, m) && Enabled(arm, windows, w, m)
  }

  ghost function After(arm: Arm, windows: seq<Window>, workers: nat, tapes: Tapes, moves: seq<Move>): (w: World)
    requires Legal(arm, windows, workers, tapes, moves)
    ensures |w.tasks| == |tapes| && |w.busy| == |w.quarantine| == workers
    decreases |moves|, 1
  {
    if moves == [] then Start(|tapes|, workers)
    else Apply(arm, windows, tapes, After(arm, windows, workers, tapes, moves[..|moves| - 1]), moves[|moves| - 1])
  }

  // ------------------------------------------------------------------
  // What every legal run keeps.
  // ------------------------------------------------------------------

  ghost predicate PhaseOk(p: Phase) {
    match p
    case Ready(k) => k < MAX_ATTEMPTS
    case Waiting(k, _) => 1 <= k < MAX_ATTEMPTS
    case Running(_, _) => false
    case Completed(k, _) => 1 <= k <= MAX_ATTEMPTS
    case DeadLettered(k, _) => k == MAX_ATTEMPTS
  }

  /** No task outruns its budget, hence its tape. */
  ghost predicate Safe(w: World) {
    forall t :: 0 <= t < |w.tasks| ==> PhaseOk(w.tasks[t])
  }

  lemma MoveKeepsSafe(arm: Arm, windows: seq<Window>, tapes: Tapes, w: World, m: Move)
    requires |tapes| == |w.tasks| && Safe(w) && InRange(w, m) && Enabled(arm, windows, w, m)
    ensures Safe(Apply(arm, windows, tapes, w, m)) && w.now <= Apply(arm, windows, tapes, w, m).now
  {
  }

  lemma {:induction false} LegalRunsAreSafe(arm: Arm, windows: seq<Window>, workers: nat, tapes: Tapes, moves: seq<Move>)
    requires Legal(arm, windows, workers, tapes, moves)
    ensures Safe(After(arm, windows, workers, tapes, moves))
  {
    if moves != [] {
      var before := moves[..|moves| - 1];
      LegalRunsAreSafe(arm, windows, workers, tapes, before);
      MoveKeepsSafe(arm, windows, tapes, After(arm, windows, workers, tapes, before), moves[|moves| - 1]);
    }
  }

  /** The oracle idles a worker through its window, so no attempt of its lands
      on a degraded worker. */
  lemma {:induction false} OracleWastesNothing(windows: seq<Window>, workers: nat, tapes: Tapes, moves: seq<Move>)
    requires Legal(OracleArm, windows, workers, tapes, moves)
    ensures var tasks := After(OracleArm, windows, workers, tapes, moves).tasks;
      Sum(tasks, Wasted) == 0 && Sum(tasks, OneIfDead) == 0
  {
    if moves == [] {
      SumOfConstant(Start(|tapes|, workers).tasks, 0, Wasted);
      SumOfConstant(Start(|tapes|, workers).tasks, 0, OneIfDead);
    } else {
      var before, m := moves[..|moves| - 1], moves[|moves| - 1];
      OracleWastesNothing(windows, workers, tapes, before);
      var w := After(OracleArm, windows, workers, tapes, before);
      var w' := Apply(OracleArm, windows, tapes, w, m);
      if m.Release? || m.Land? {
        SumAtLeast(w.tasks, m.task, Wasted);
        SumOfUpdate(w.tasks, m.task, w'.tasks[m.task], Wasted);
        SumOfUpdate(w.tasks, m.task, w'.tasks[m.task], OneIfDead);
      }
    }
  }

  lemma {:induction false} LegalPrefix(arm: Arm, windows: seq<Window>, workers: nat, tapes: Tapes, moves: seq<Move>, i: nat)
    requires Legal(arm, windows, workers, tapes, moves) && i <= |moves|
    ensures Legal(arm, windows, workers, tapes, moves[..i])
    decreases |moves|
  {
    if i < |moves| {
      LegalPrefix(arm, windows, workers, tapes, moves[..|moves| - 1], i);
      assert moves[..|moves| - 1][..i] == moves[..i];
    } else {
      assert moves[..i] == moves;
    }
  }

  /** The world in which move `i` of the run is made. */
  ghost function At(arm: Arm, windows: seq<Window>, workers: nat, tapes: Tapes, moves: seq<Move>, i: nat): (w: World)
    requires Legal(arm, windows, workers, tapes, moves) && i <= |moves|
    ensures |w.tasks| == |tapes| && |w.busy| == |w.quarantine| == workers
  {
    LegalPrefix(arm, windows, workers, tapes, moves, i);
    After(arm, windows, workers, tapes, moves[..i])
  }

  lemma NextWorld(arm: Arm, windows: seq<Window>, workers: nat, tapes: Tapes, moves: seq<Move>, i: nat)
    requires Legal(arm, windows, workers, tapes, moves) && i < |moves|
    ensures var w := At(arm, windows, workers, tapes, moves, i);
      && |w.tasks| == |tapes| && InRange(w, moves[i]) && Enabled(arm, windows, w, moves[i])
      && At(arm, windows, workers, tapes, moves, i + 1) == Apply(arm, windows, tapes, w, moves[i])
  {
    hide Enabled, Apply, InRange;
    LegalPrefix(arm, windows, workers, tapes, moves, i + 1);
    assert moves[..i + 1][..i] == moves[..i];
  }

  lemma MoveKeepsClocks(arm: Arm, windows: seq<Window>, tapes: Tapes, w: World, m: Move, v: nat)
    requires |tapes| == |w.tasks| && |w.busy| == |w.quarantine| && v < |w.busy|
    requires InRange(w, m) && Enabled(arm, windows, w, m)
    ensures var w' := Apply(arm, windows, tapes, w, m);
      && w.now <= w'.now && w.busy[v] <= w'.busy[v]
      && (arm.HeuristicArm? ==> w.quarantine[v] <= w'.quarantine[v])
  {
  }

  /** Along a run no worker is freed earlier than it was already due to be, and
      no quarantine is cut short. */
  lemma {:induction false} ClocksNeverGoBack(arm: Arm, windows: seq<Window>, workers: nat, tapes: Tapes, moves: seq<Move>,
                                             i: nat, j: nat, v: nat)
    requires Legal(arm, windows, workers, tapes, moves) && i <= j <= |moves| && v < workers
    ensures var w := At(arm, windows, workers, tapes, moves, i);
      var w' := At(arm, windows, workers, tapes, moves, j);
      && w.now <= w'.now && w.busy[v] <= w'.busy[v]
      && (arm.HeuristicArm? ==> w.quarantine[v] <= w'.quarantine[v])
    decreases j
  {
    if i < j {
      hide At, Enabled, Apply, InRange, Legal;
      ClocksNeverGoBack(arm, windows, workers, tapes, moves, i, j - 1, v);
      NextWorld(arm, windows, workers, tapes, moves, j - 1);
      MoveKeepsClocks(arm, windows, tapes, At(arm, windows, workers, tapes, moves, j - 1), moves[j - 1], v);
    }
  }

  /** Two attempts on one worker never overlap, and under the heuristic arm the
      second never falls inside the quarantine a degraded first one earned. */
  lemma ClaimsAreSpaced(arm: Arm, windows: seq<Window>, workers: nat, tapes: Tapes, moves: seq<Move>, i: nat, j: nat)
    requires Legal(arm, windows, workers, tapes, moves) && i < j < |moves|
    requires moves[i].Land? && moves[j].Land? && moves[i].worker == moves[j].worker
    ensures var w := At(arm, windows, workers, tapes, moves, i);
      var later := At(arm, windows, workers, tapes, moves, j).now;
      && moves[i].task < |w.tasks| == |tapes|
      && later >= w.now + HoldMs(windows, tapes, w, moves[i].task, moves[i].worker)
      && (arm.HeuristicArm? && Degraded(windows, moves[i].worker, w.now) ==>
            later >= w.now + FAIL_LATENCY_MS + QUARANTINE_MS)
  {
    hide At, Legal, HoldMs, Landed;
    NextWorld(arm, windows, workers, tapes, moves, i);
    NextWorld(arm, windows, workers, tapes, moves, j);
    ClocksNeverGoBack(arm, windows, workers, tapes, moves, i + 1, j, moves[i].worker);
  }

  // ------------------------------------------------------------------
  // The accounts and the termination measures.
  // ------------------------------------------------------------------

  /** Moves a task can still make: two per attempt left, and the rest of the
      current one. */
  ghost function MovesLeft(p: Phase): nat {
    match p
    case Ready(k) => if k < MAX_ATTEMPTS then 2 * (MAX_ATTEMPTS - k) + 1 else 1
    case Waiting(k, _) => if k < MAX_ATTEMPTS then 2 * (MAX_ATTEMPTS - k) + 2 else 2
    case Running(_, _) => 0
    case Completed(_, _) => 0
    case DeadLettered(_, _) => 0
  }

  lemma MovesRunOut(arm: Arm, windows: seq<Window>, tapes: Tapes, w: World, m: Move)
    requires |tapes| == |w.tasks| && Safe(w) && InRange(w, m) && Enabled(arm, windows, w, m)
    ensures var w' := Apply(arm, windows, tapes, w, m);
      && (m.Release? || m.Land? ==> Sum(w'.tasks, MovesLeft) < Sum(w.tasks, MovesLeft))
      && (m.Advance? || m.Veto? ==> w'.tasks == w.tasks)
  {
    if m.Release? || m.Land? {
      SumOfUpdate(w.tasks, m.task, Apply(arm, windows, tapes, w, m).tasks[m.task], MovesLeft);
    }
  }

  /** Vetoes a policy can still make without anything landing: one per window
      not yet passed, or one per worker still in quarantine. */
  ghost function VetoesLeft(arm: Arm, windows: seq<Window>, w: World): nat
    requires |w.busy| == |w.quarantine|
  {
    match arm
    case FloorArm => 0
    case OracleArm =>
      Sum(windows, (win: Window) => if win.worker < |w.busy| && win.end > w.busy[win.worker] then 1 else 0)
    case HeuristicArm =>
      Sum(seq(|w.busy|, v => v), v => if 0 <= v < |w.busy| && w.quarantine[v] > w.busy[v] then 1 else 0)
  }

  lemma VetoesRunOut(arm: Arm, windows: seq<Window>, tapes: Tapes, w: World, m: Move)
    requires |tapes| == |w.tasks| && |w.busy| == |w.quarantine|
    requires m.Veto? && InRange(w, m) && Enabled(arm, windows, w, m)
    ensures VetoesLeft(arm, windows, Apply(arm, windows, tapes, w, m)) < VetoesLeft(arm, windows, w)
  {
    var w' := Apply(arm, windows, tapes, w, m);
    if arm.OracleArm? {
      var i :| 0 <= i < |windows| && InWindow(windows[i], m.worker, w.now) && windows[i].end == m.until;
      SumShrinks(windows, i,
        (win: Window) => if win.worker < |w'.busy| && win.end > w'.busy[win.worker] then 1 else 0,
        (win: Window) => if win.worker < |w.busy| && win.end > w.busy[win.worker] then 1 else 0);
    } else {
      assert seq(|w.busy|, v => v)[m.worker] == m.worker;
      SumShrinks(seq(|w.busy|, v => v), m.worker,
        v => if 0 <= v < |w'.busy| && w'.quarantine[v] > w'.busy[v] then 1 else 0,
        v => if 0 <= v < |w.busy| && w.quarantine[v] > w.busy[v] then 1 else 0);
    }
  }

  // ------------------------------------------------------------------
  // Where each task stands, read off the moves alone.
  // ------------------------------------------------------------------

  ghost predicate IsLanding(m: Move, t: nat) {
    m.Land? && m.task == t
  }

  /** How often the task has landed on a worker. */
  ghost function Landings(moves: seq<Move>, t: nat): nat {
    if moves == [] then 0
    else Landings(moves[..|moves| - 1], t) + if IsLanding(moves[|moves| - 1], t) then 1 else 0
  }

  ghost predicate LastLanding(moves: seq<Move>, t: nat, i: nat) {
    i < |moves| && IsLanding(moves[i], t) && forall j :: i < j < |moves| ==> !IsLanding(moves[j], t)
  }

  /** Move `i` lands a task on a worker that is degraded then. */
  ghost predicate FailsAt(arm: Arm, windows: seq<Window>, workers: nat, tapes: Tapes, moves: seq<Move>, i: nat)
    requires Legal(arm, windows, workers, tapes, moves) && i < |moves|
  {
    moves[i].Land? && Degraded(windows, moves[i].worker, At(arm, windows, workers, tapes, moves, i).now)
  }

  /** How many of the first `i` moves do. */
  ghost function Failures(arm: Arm, windows: seq<Window>, workers: nat, tapes: Tapes, moves: seq<Move>, i: nat): nat
    requires Legal(arm, windows, workers, tapes, moves) && i <= |moves|
  {
    if i == 0 then 0
    else Failures(arm, windows, workers, tapes, moves, i - 1) + if FailsAt(arm, windows, workers, tapes, moves, i - 1) then 1 else 0
  }

  lemma {:induction false} AttemptsAreLandings(arm: Arm, windows: seq<Window>, workers: nat, tapes: Tapes, moves: seq<Move>, t: nat)
    requires Legal(arm, windows, workers, tapes, moves) && t < |tapes|
    ensures After(arm, windows, workers, tapes, moves).tasks[t].attempts == Landings(moves, t)
  {
    hide Degraded, BackoffDelay, VetoUntil;
    if moves != [] {
      AttemptsAreLandings(arm, windows, workers, tapes, moves[..|moves| - 1], t);
    }
  }

  /** Where a task stands whose last landing, its `k`-th, was at `now`: on a healthy
      worker it completes after the `k`-th latency of its tape; on a degraded one it
      fails after 25 milliseconds, to come back after the `k`-th back-off or never. */
  ghost predicate StandsAfter(tapes: Tapes, p: Phase, t: nat, k: nat, now: nat, fails: bool, uniform: real)
    requires t < |tapes|
  {
    && 1 <= k <= MAX_ATTEMPTS
    && (!fails ==> p == Completed(k, now + tapes[t][k - 1]))
    && (fails && k == MAX_ATTEMPTS ==> p == DeadLettered(k, now + FAIL_LATENCY_MS))
    && (fails && k < MAX_ATTEMPTS ==>
          var delay := BackoffDelay(k, uniform, BASE_RETRY_DELAY_MS, MAX_RETRY_DELAY_MS);
          p == Waiting(k, now + FAIL_LATENCY_MS + delay) || p == Ready(k))
  }

  lemma LandingStands(arm: Arm, windows: seq<Window>, tapes: Tapes, w: World, m: Move, t: nat)
    requires |tapes| == |w.tasks| && t < |tapes| && Safe(w) && InRange(w, m) && Enabled(arm, windows, w, m) && IsLanding(m, t)
    ensures StandsAfter(tapes, Apply(arm, windows, tapes, w, m).tasks[t], t, w.tasks[t].attempts + 1, w.now,
                        Degraded(windows, m.worker, w.now), m.uniform)
  {
    hide BackoffDelay, Degraded, VetoUntil;
  }

  lemma OtherMovesStand(arm: Arm, windows: seq<Window>, tapes: Tapes, w: World, m: Move, t: nat, k: nat, now: nat,
                        fails: bool, uniform: real)
    requires |tapes| == |w.tasks| && t < |tapes| && InRange(w, m) && Enabled(arm, windows, w, m) && !IsLanding(m, t)
    requires StandsAfter(tapes, w.tasks[t], t, k, now, fails, uniform)
    ensures StandsAfter(tapes, Apply(arm, windows, tapes, w, m).tasks[t], t, k, now, fails, uniform)
  {
    hide BackoffDelay, Degraded, VetoUntil;
  }

  /** In every legal run each task stands where its last landing has put it. */
  lemma {:induction false} TasksStandByTheirLandings(arm: Arm, windows: seq<Window>, workers: nat, tapes: Tapes,
                                                     moves: seq<Move>, t: nat, i: nat)
    requires Legal(arm, windows, workers, tapes, moves) && t < |tapes| && LastLanding(moves, t, i)
    ensures StandsAfter(tapes, After(arm, windows, workers, tapes, moves).tasks[t], t, Landings(moves[..i + 1], t),
                        At(arm, windows, workers, tapes, moves, i).now,
                        FailsAt(arm, windows, workers, tapes, moves, i), moves[i].uniform)
    decreases |moves|
  {
    hide Enabled, Apply, InRange, StandsAfter, Landings, Degraded;
    var n := |moves| - 1;
    var before, w := moves[..n], After(arm, windows, workers, tapes, moves[..n]);
    if i == n {
      LegalRunsAreSafe(arm, windows, workers, tapes, before);
      LandingStands(arm, windows, tapes, w, moves[n], t);
      AttemptsAreLandings(arm, windows, workers, tapes, before, t);
      assert moves[..i + 1] == moves;
      assert Landings(moves, t) == Landings(before, t) + 1 by { OneLandingMore(moves, t); }
    } else {
      TasksStandByTheirLandings(arm, windows, workers, tapes, before, t, i);
      assert before[..i + 1] == moves[..i + 1] && before[..i] == moves[..i];
      OtherMovesStand(arm, windows, tapes, w, moves[n], t, Landings(moves[..i + 1], t),
                      At(arm, windows, workers, tapes, moves, i).now,
                      FailsAt(arm, windows, workers, tapes, moves, i), moves[i].uniform);
    }
  }

  lemma OneLandingMore(moves: seq<Move>, t: nat)
    requires moves != [] && IsLanding(moves[|moves| - 1], t)
    ensures Landings(moves, t) == Landings(moves[..|moves| - 1], t) + 1
  {
  }

  /** And one that never landed is still waiting its first turn. */
  lemma {:induction false} UnlandedStaysReady(arm: Arm, windows: seq<Window>, workers: nat, tapes: Tapes, moves: seq<Move>, t: nat)
    requires Legal(arm, windows, workers, tapes, moves) && t < |tapes|
    requires forall i :: 0 <= i < |moves| ==> !IsLanding(moves[i], t)
    ensures After(arm, windows, workers, tapes, moves).tasks[t] == Ready(0)
  {
    hide Degraded, BackoffDelay, VetoUntil;
    if moves != [] {
      UnlandedStaysReady(arm, windows, workers, tapes, moves[..|moves| - 1], t);
    }
  }
}
