/**
 One shared callee with a hard concurrency ceiling: the moves a queue of tasks
 can make against it, and what every run of such moves keeps, whatever the
 admission policy.
 */
module Backpressure {
  import opened Numbers
  import opened Retry
  import opened Tallies
  import opened Tasks
  import opened EventQueue

  const CEILING: nat := 8
  const REJECT_LATENCY_MS: nat := 10
  const RETRY_AFTER_MS: nat := 1_000

  /** `queue` is the order in which the ready tasks will be tried. */
  datatype World = World(now: nat, tasks: seq<Phase>, queue: seq<nat>)

  datatype Move =
    | Release(task: nat)
    | Admit(task: nat)
    | Reject(task: nat, uniform: real)
    | Finish(task: nat)
    | Advance(to: nat)

  function InFlight(w: World): nat {
    Sum(w.tasks, OneIfRunning)
  }

  function RejectedUntil(now: nat, attempt: nat, uniform: real): nat {
    now + REJECT_LATENCY_MS
      + Max(BackoffDelay(attempt, uniform, BASE_RETRY_DELAY_MS, MAX_RETRY_DELAY_MS), RETRY_AFTER_MS)
  }

  // ------------------------------------------------------------------
  // The moves.
  // ------------------------------------------------------------------

  /** Time moves only to an event still to come and past none of them. */
  ghost predicate Upcoming(w: World, to: nat) {
    && w.now <= to
    && forall t :: 0 <= t < |w.tasks| ==>
         && (w.tasks[t].Running? ==> to <= w.tasks[t].until)
         && (w.tasks[t].Waiting? ==> to <= w.tasks[t].due)
  }

  /** Of the waiting tasks, `t` is due first; ties go to the lower number. */
  ghost predicate DueFirst(w: World, t: nat) {
    && t < |w.tasks| && w.tasks[t].Waiting? && w.tasks[t].due <= w.now
    && forall u :: 0 <= u < |w.tasks| && w.tasks[u].Waiting? ==>
         NoLater(Event(w.tasks[t].due, t), Event(w.tasks[u].due, u))
  }

  /** Of the running tasks, `t` ends first; ties go to the lower number. */
  ghost predicate EndsFirst(w: World, t: nat) {
    && t < |w.tasks| && w.tasks[t].Running? && w.tasks[t].until <= w.now
    && forall u :: 0 <= u < |w.tasks| && w.tasks[u].Running? ==>
         NoLater(Event(w.tasks[t].until, t), Event(w.tasks[u].until, u))
  }

  ghost predicate NextInQueue(w: World, t: nat) {
    w.queue != [] && w.queue[0] == t && t < |w.tasks| && w.tasks[t].Ready?
  }

  ghost predicate Enabled(w: World, m: Move) {
    match m
    case Release(t) => DueFirst(w, t)
    case Admit(t) => NextInQueue(w, t) && InFlight(w) < CEILING
    case Reject(t, _) => NextInQueue(w, t) && InFlight(w) >= CEILING
    case Finish(t) => EndsFirst(w, t)
    case Advance(to) => Upcoming(w, to)
  }

  function Moved(tapes: Tapes, w: World, m: Move): Phase
    requires !m.Advance? && m.task < |w.tasks| && |tapes| == |w.tasks|
  {
    var p := w.tasks[m.task];
    match m
    case Release(_) => Ready(p.attempts)
    case Admit(t) => Running(p.attempts + 1, w.now + (if p.attempts < TAPE_LEN then tapes[t][p.attempts] else 0))
    case Reject(_, uniform) =>
      if p.attempts + 1 < MAX_ATTEMPTS then Waiting(p.attempts + 1, RejectedUntil(w.now, p.attempts + 1, uniform))
      else DeadLettered(p.attempts + 1, w.now + REJECT_LATENCY_MS)
    case Finish(_) => Completed(p.attempts, if p.Running? then p.until else 0)
  }

  function Requeued(w: World, m: Move): seq<nat> {
    match m
    case Release(t) => w.queue + [t]
    case Admit(_) => if w.queue == [] then [] else w.queue[1..]
    case Reject(_, _) => if w.queue == [] then [] else w.queue[1..]
    case Finish(_) => w.queue
    case Advance(_) => w.queue
  }

  function Apply(tapes: Tapes, w: World, m: Move): (w': World)
    requires m.Advance? || m.task < |w.tasks|
    requires |tapes| == |w.tasks|
    ensures |w'.tasks| == |w.tasks|
  {
    if m.Advance? then w.(now := m.to)
    else World(w.now, w.tasks[m.task := Moved(tapes, w, m)], Requeued(w, m))
  }

  function Start(n: nat): World {
    World(0, seq(n, t => Ready(0)), seq(n, t => t))
  }

  ghost predicate Legal(tapes: Tapes, moves: seq<Move>)
    decreases |moves|, 0
  {
    moves == [] ||
    (Legal(tapes, moves[..|moves| - 1]) && Enabled(After(tapes, moves[..|moves| - 1]), moves[|moves| - 1]))
  }

  ghost function After(tapes: Tapes, moves: seq<Move>): (w: World)
    requires Legal(tapes, moves)
    ensures |w.tasks| == |tapes|
    decreases |moves|, 1
  {
    if moves == [] then Start(|tapes|)
    else Apply(tapes, After(tapes, moves[..|moves| - 1]), moves[|moves| - 1])
  }

  // ------------------------------------------------------------------
  // What every legal run keeps.
  // ------------------------------------------------------------------

  ghost predicate PhaseOk(p: Phase, now: nat) {
    match p
    case Ready(k) => k < MAX_ATTEMPTS
    case Waiting(k, _) => 1 <= k < MAX_ATTEMPTS
    case Running(k, until) => 1 <= k <= MAX_ATTEMPTS && now <= until
    case Completed(k, at) => 1 <= k <= MAX_ATTEMPTS && at <= now
    case DeadLettered(k, at) => k == MAX_ATTEMPTS && at <= now + REJECT_LATENCY_MS
  }

  /** The ceiling holds, no task outruns its budget (or its tape), nothing in
      flight is overdue, and nothing is settled in the future. */
  ghost predicate Safe(w: World) {
    && InFlight(w) <= CEILING
    && forall t :: 0 <= t < |w.tasks| ==> PhaseOk(w.tasks[t], w.now)
  }

  lemma MoveKeepsSafe(tapes: Tapes, w: World, m: Move)
    requires |tapes| == |w.tasks| && Safe(w) && Enabled(w, m)
    ensures Safe(Apply(tapes, w, m)) && w.now <= Apply(tapes, w, m).now
  {
    if !m.Advance? {
      SumOfUpdate(w.tasks, m.task, Moved(tapes, w, m), OneIfRunning);
    }
  }

  lemma {:induction false} LegalRunsAreSafe(tapes: Tapes, moves: seq<Move>)
    requires Legal(tapes, moves)
    ensures Safe(After(tapes, moves))
  {
    if moves == [] {
      SumOfConstant(Start(|tapes|).tasks, 0, OneIfRunning);
    } else {
      LegalRunsAreSafe(tapes, moves[..|moves| - 1]);
      MoveKeepsSafe(tapes, After(tapes, moves[..|moves| - 1]), moves[|moves| - 1]);
    }
  }

  // ------------------------------------------------------------------
  // Admission policies.
  // ------------------------------------------------------------------

  const AIMD_START_CAP: nat := 16
  const AIMD_SUCCESS_STREAK_PER_INC: nat := 32
  const AIMD_MAX_CAP: nat := 64
  const UNCAPPED: nat := 0xFFFF_FFFF

  datatype Controller = Controller(cap: nat, streak: nat)

  function FirstCap(arm: Arm): nat {
    match arm
    case FloorArm => UNCAPPED
    case OracleArm => CEILING
    case HeuristicArm => AIMD_START_CAP
  }

  /** Halve on a rejection, grow by one on a long enough streak of successes. */
  function Steer(arm: Arm, c: Controller, m: Move): Controller {
    if !arm.HeuristicArm? then c
    else if m.Reject? then Controller(Max(c.cap / 2, 1), 0)
    else if !m.Finish? then c
    else if c.streak + 1 < AIMD_SUCCESS_STREAK_PER_INC then c.(streak := c.streak + 1)
    else Controller(Min(c.cap + 1, AIMD_MAX_CAP), 0)
  }

  function Steered(arm: Arm, moves: seq<Move>): Controller {
    if moves == [] then Controller(FirstCap(arm), 0)
    else Steer(arm, Steered(arm, moves[..|moves| - 1]), moves[|moves| - 1])
  }

  /** Attempts are made only below the cap, and time passes only when the cap
      is reached or nothing is ready. */
  ghost predicate Obeys(arm: Arm, tapes: Tapes, moves: seq<Move>)
    requires Legal(tapes, moves)
  {
    moves == [] ||
    var before, m := moves[..|moves| - 1], moves[|moves| - 1];
    var w, cap := After(tapes, before), Steered(arm, before).cap;
    && Obeys(arm, tapes, before)
    && (m.Admit? || m.Reject? ==> InFlight(w) < cap)
    && (m.Advance? ==> w.queue == [] || InFlight(w) >= cap)
  }

  // ------------------------------------------------------------------
  // The order of what happens at one instant.
  // ------------------------------------------------------------------

  ghost predicate NoneEnding(w: World) {
    forall t :: 0 <= t < |w.tasks| && w.tasks[t].Running? ==> w.now < w.tasks[t].until
  }

  ghost predicate NoneDue(w: World) {
    forall t :: 0 <= t < |w.tasks| && w.tasks[t].Waiting? ==> w.now < w.tasks[t].due
  }

  /** Something happens at `at`. */
  ghost predicate Eventful(w: World, at: nat) {
    exists t :: 0 <= t < |w.tasks| &&
      ((w.tasks[t].Running? && w.tasks[t].until == at) || (w.tasks[t].Waiting? && w.tasks[t].due == at))
  }

  /** Time has just passed, and completions are being taken. */
  ghost predicate Landing(before: seq<Move>) {
    before != [] && (before[|before| - 1].Advance? || before[|before| - 1].Finish?)
  }

  /** When time has passed, completions come first and all of them, then due retries
      and all of them, then tries; and time passes to the next event only. */
  ghost predicate InTurn(w: World, before: seq<Move>, m: Move) {
    && (m.Finish? ==> Landing(before))
    && (!m.Finish? && Landing(before) ==> NoneEnding(w))
    && (m.Admit? || m.Reject? || m.Advance? ==> NoneDue(w))
    && (m.Advance? ==> Eventful(w, m.to))
  }

  ghost predicate Orderly(tapes: Tapes, moves: seq<Move>)
    requires Legal(tapes, moves)
  {
    moves == [] ||
    var before, m := moves[..|moves| - 1], moves[|moves| - 1];
    Orderly(tapes, before) && InTurn(After(tapes, before), before, m)
  }

  lemma OrderlyNext(tapes: Tapes, moves: seq<Move>, m: Move)
    requires Legal(tapes, moves) && Legal(tapes, moves + [m])
    requires Orderly(tapes, moves) && InTurn(After(tapes, moves), moves, m)
    ensures Orderly(tapes, moves + [m])
  {
    hide InTurn;
    assert (moves + [m])[..|moves|] == moves;
  }

  /** In an orderly run under the arm's policy the next move has no alternative, but
      for the draw of a rejection. */
  lemma NextMoveIsForced(arm: Arm, w: World, before: seq<Move>, a: Move, b: Move)
    requires Enabled(w, a) && Enabled(w, b) && InTurn(w, before, a) && InTurn(w, before, b)
    requires a.Admit? || a.Reject? ==> InFlight(w) < Steered(arm, before).cap
    requires b.Admit? || b.Reject? ==> InFlight(w) < Steered(arm, before).cap
    requires a.Advance? || b.Advance? ==> w.queue == [] || InFlight(w) >= Steered(arm, before).cap
    ensures a == b || (a.Reject? && b.Reject? && a.task == b.task)
  {
    hide InFlight, Steered;
  }

  lemma {:induction false} CapStaysInBounds(arm: Arm, moves: seq<Move>)
    ensures var c := Steered(arm, moves);
      && 1 <= c.cap
      && (arm.HeuristicArm? ==> c.cap <= AIMD_MAX_CAP && c.streak < AIMD_SUCCESS_STREAK_PER_INC)
      && (!arm.HeuristicArm? ==> c.cap == FirstCap(arm))
  {
    if moves != [] {
      CapStaysInBounds(arm, moves[..|moves| - 1]);
    }
  }

  ghost function Finishes(moves: seq<Move>): nat {
    if moves == [] then 0 else Finishes(moves[..|moves| - 1]) + if moves[|moves| - 1].Finish? then 1 else 0
  }

  /** A cap grown by `k` completions: one for every 32, up to 64. */
  ghost function Grown(cap: nat, k: nat): Controller {
    Controller(Min(cap + k / 32, 64), k % 32)
  }

  lemma GrownStep(cap: nat, k: nat, m: Move)
    requires !m.Reject?
    ensures Steer(HeuristicArm, Grown(cap, k), m) == Grown(cap, k + if m.Finish? then 1 else 0)
  {
  }

  lemma NothingGrown(c: Controller)
    requires c.cap <= 64 && c.streak < 32
    ensures Grown(c.cap, c.streak) == c
  {
  }

  /** While nothing is rejected the heuristic's cap grows with its completions,
      the streak it starts with included. */
  lemma {:induction false} CapGrowsByStreaks(before: seq<Move>, moves: seq<Move>)
    requires forall i :: 0 <= i < |moves| ==> !moves[i].Reject?
    ensures var c := Steered(HeuristicArm, before);
      var k := c.streak + Finishes(moves);
      Steered(HeuristicArm, before + moves) == Grown(c.cap, k)
  {
    hide Grown, Steered, Steer;
    var c := Steered(HeuristicArm, before);
    if moves == [] {
      CapStaysInBounds(HeuristicArm, before);
      NothingGrown(c);
      assert before + moves == before;
    } else {
      var n := |moves| - 1;
      CapGrowsByStreaks(before, moves[..n]);
      assert before + moves == (before + moves[..n]) + [moves[n]];
      SteeredPush(HeuristicArm, before + moves[..n], moves[n]);
      GrownStep(c.cap, c.streak + Finishes(moves[..n]), moves[n]);
    }
  }

  lemma SteeredPush(arm: Arm, moves: seq<Move>, m: Move)
    ensures Steered(arm, moves + [m]) == Steer(arm, Steered(arm, moves), m)
  {
    assert (moves + [m])[..|moves|] == moves;
  }

  /** A rejection halves the cap, rounding down but not to zero, and growth starts
      over from there. */
  lemma CapSinceRejection(before: seq<Move>, m: Move, moves: seq<Move>)
    requires m.Reject? && forall i :: 0 <= i < |moves| ==> !moves[i].Reject?
    ensures var cap, k := Steered(HeuristicArm, before).cap, Finishes(moves);
      Steered(HeuristicArm, before + [m] + moves) == Grown(if cap < 2 then 1 else cap / 2, k)
  {
    hide Steered, Finishes, Steer, Grown;
    RejectionHalves(Steered(HeuristicArm, before), m);
    SteeredPush(HeuristicArm, before, m);
    CapGrowsByStreaks(before + [m], moves);
  }

  lemma RejectionHalves(c: Controller, m: Move)
    requires m.Reject?
    ensures Steer(HeuristicArm, c, m) == Controller(if c.cap < 2 then 1 else c.cap / 2, 0)
  {
  }

  /** And before the first rejection it starts at 16. */
  lemma CapBeforeRejections(moves: seq<Move>)
    requires forall i :: 0 <= i < |moves| ==> !moves[i].Reject?
    ensures Steered(HeuristicArm, moves) == Grown(16, Finishes(moves))
  {
    hide Grown;
    CapGrowsByStreaks([], moves);
    assert [] + moves == moves;
  }

  /** A move that is no rejection wastes nothing more. */
  lemma MoveWastesNothing(tapes: Tapes, w: World, m: Move)
    requires |tapes| == |w.tasks| && Enabled(w, m) && !m.Reject?
    requires Sum(w.tasks, Wasted) == 0 && Sum(w.tasks, OneIfDead) == 0
    ensures Sum(Apply(tapes, w, m).tasks, Wasted) == 0 && Sum(Apply(tapes, w, m).tasks, OneIfDead) == 0
  {
    hide Sum;
    if !m.Advance? {
      SumAtLeast(w.tasks, m.task, Wasted);
      SumOfUpdate(w.tasks, m.task, Moved(tapes, w, m), Wasted);
      SumOfUpdate(w.tasks, m.task, Moved(tapes, w, m), OneIfDead);
    }
  }

  /** The oracle caps at the ceiling it knows, so the callee never turns an
      attempt of its away. */
  lemma {:induction false} OracleWastesNothing(tapes: Tapes, moves: seq<Move>)
    requires Legal(tapes, moves) && Obeys(OracleArm, tapes, moves)
    ensures Sum(After(tapes, moves).tasks, Wasted) == 0
    ensures Sum(After(tapes, moves).tasks, OneIfDead) == 0
  {
    hide Sum, Apply, Steered;
    if moves == [] {
      SumOfConstant(Start(|tapes|).tasks, 0, Wasted);
      SumOfConstant(Start(|tapes|).tasks, 0, OneIfDead);
    } else {
      var before := moves[..|moves| - 1];
      OracleWastesNothing(tapes, before);
      CapStaysInBounds(OracleArm, before);
      MoveWastesNothing(tapes, After(tapes, before), moves[|moves| - 1]);
    }
  }

  // ------------------------------------------------------------------
  // The accounts and the termination measure, move by move.
  // ------------------------------------------------------------------

  /** Moves a task can still make: three per attempt left, and the rest of the
      current one. */
  ghost function MovesLeft(p: Phase): nat {
    match p
    case Ready(k) => if k < MAX_ATTEMPTS then 3 * (MAX_ATTEMPTS - k) + 2 else 2
    case Waiting(k, _) => if k < MAX_ATTEMPTS then 3 * (MAX_ATTEMPTS - k) + 3 else 3
    case Running(_, _) => 1
    case Completed(_, _) => 0
    case DeadLettered(_, _) => 0
  }

  lemma TotalsOfUpdate(tasks: seq<Phase>, t: nat, p: Phase)
    requires t < |tasks|
    ensures Sum(tasks[t := p], Attempts) + Attempts(tasks[t]) == Sum(tasks, Attempts) + Attempts(p)
    ensures Sum(tasks[t := p], Wasted) + Wasted(tasks[t]) == Sum(tasks, Wasted) + Wasted(p)
    ensures Sum(tasks[t := p], OneIfRunning) + OneIfRunning(tasks[t]) == Sum(tasks, OneIfRunning) + OneIfRunning(p)
    ensures Sum(tasks[t := p], OneIfCompleted) + OneIfCompleted(tasks[t]) == Sum(tasks, OneIfCompleted) + OneIfCompleted(p)
    ensures Sum(tasks[t := p], OneIfDead) + OneIfDead(tasks[t]) == Sum(tasks, OneIfDead) + OneIfDead(p)
    ensures Sum(tasks[t := p], MovesLeft) + MovesLeft(tasks[t]) == Sum(tasks, MovesLeft) + MovesLeft(p)
  {
    SumOfUpdate(tasks, t, p, Attempts);
    SumOfUpdate(tasks, t, p, Wasted);
    SumOfUpdate(tasks, t, p, OneIfRunning);
    SumOfUpdate(tasks, t, p, OneIfCompleted);
    SumOfUpdate(tasks, t, p, OneIfDead);
    SumOfUpdate(tasks, t, p, MovesLeft);
  }

  /** Every move but the passing of time uses up a move, so every run makes
      finitely many of them. */
  lemma MovesRunOut(tapes: Tapes, w: World, m: Move)
    requires |tapes| == |w.tasks| && Safe(w) && Enabled(w, m) && !m.Advance?
    ensures Sum(Apply(tapes, w, m).tasks, MovesLeft) < Sum(w.tasks, MovesLeft)
  {
    SumOfUpdate(w.tasks, m.task, Moved(tapes, w, m), MovesLeft);
  }

  // ------------------------------------------------------------------
  // Where each task stands, read off the moves alone.
  // ------------------------------------------------------------------

  ghost predicate IsTry(m: Move, t: nat) {
    (m.Admit? || m.Reject?) && m.task == t
  }

  /** How often the task has been tried. */
  ghost function Tries(moves: seq<Move>, t: nat): nat {
    if moves == [] then 0
    else Tries(moves[..|moves| - 1], t) + if IsTry(moves[|moves| - 1], t) then 1 else 0
  }

  /** How many attempts the callee has turned away. */
  ghost function Rejections(moves: seq<Move>): nat {
    if moves == [] then 0
    else Rejections(moves[..|moves| - 1]) + if moves[|moves| - 1].Reject? then 1 else 0
  }

  ghost predicate LastTry(moves: seq<Move>, t: nat, i: nat) {
    i < |moves| && IsTry(moves[i], t) && forall j :: i < j < |moves| ==> !IsTry(moves[j], t)
  }

  lemma {:induction false} LegalPrefix(tapes: Tapes, moves: seq<Move>, i: nat)
    requires Legal(tapes, moves) && i <= |moves|
    ensures Legal(tapes, moves[..i])
    decreases |moves|
  {
    if i < |moves| {
      LegalPrefix(tapes, moves[..|moves| - 1], i);
      assert moves[..|moves| - 1][..i] == moves[..i];
    } else {
      assert moves[..i] == moves;
    }
  }

  /** The world in which move `i` of the run is made. */
  ghost function At(tapes: Tapes, moves: seq<Move>, i: nat): (w: World)
    requires Legal(tapes, moves) && i <= |moves|
    ensures |w.tasks| == |tapes|
  {
    LegalPrefix(tapes, moves, i);
    After(tapes, moves[..i])
  }

  lemma {:induction false} AttemptsAreTries(tapes: Tapes, moves: seq<Move>, t: nat)
    requires Legal(tapes, moves) && t < |tapes|
    ensures After(tapes, moves).tasks[t].attempts == Tries(moves, t)
  {
    hide Sum, BackoffDelay, RejectedUntil;
    if moves != [] {
      AttemptsAreTries(tapes, moves[..|moves| - 1], t);
    }
  }

  /** Where a task stands whose last try, the `k`-th, was move `m` at `now`: admitted,
      it runs for the `k`-th latency of its tape; turned away, it is due after the
      `k`-th back-off or the callee's hint, or is given up. */
  ghost predicate StandsAfter(tapes: Tapes, p: Phase, t: nat, m: Move, k: nat, now: nat)
    requires t < |tapes|
  {
    && 1 <= k <= MAX_ATTEMPTS
    && (m.Admit? ==> p == Running(k, now + tapes[t][k - 1]) || p == Completed(k, now + tapes[t][k - 1]))
    && (m.Reject? && k == MAX_ATTEMPTS ==> p == DeadLettered(k, now + REJECT_LATENCY_MS))
    && (m.Reject? && k < MAX_ATTEMPTS ==>
          var delay := Max(BackoffDelay(k, m.uniform, BASE_RETRY_DELAY_MS, MAX_RETRY_DELAY_MS), RETRY_AFTER_MS);
          p == Waiting(k, now + REJECT_LATENCY_MS + delay) || p == Ready(k))
  }

  lemma TryStands(tapes: Tapes, w: World, m: Move, t: nat)
    requires |tapes| == |w.tasks| && t < |tapes| && Safe(w) && Enabled(w, m) && IsTry(m, t)
    ensures StandsAfter(tapes, Apply(tapes, w, m).tasks[t], t, m, w.tasks[t].attempts + 1, w.now)
  {
    hide Sum, BackoffDelay, InFlight;
  }

  lemma OtherMovesStand(tapes: Tapes, w: World, m: Move, t: nat, last: Move, k: nat, now: nat)
    requires |tapes| == |w.tasks| && t < |tapes| && Enabled(w, m) && !IsTry(m, t) && (last.Admit? || last.Reject?)
    requires StandsAfter(tapes, w.tasks[t], t, last, k, now)
    ensures StandsAfter(tapes, Apply(tapes, w, m).tasks[t], t, last, k, now)
  {
    hide Sum, BackoffDelay, InFlight, RejectedUntil;
  }

  /** In every legal run each task stands where its last try has put it. */
  lemma {:induction false} TasksStandByTheirTries(tapes: Tapes, moves: seq<Move>, t: nat, i: nat)
    requires Legal(tapes, moves) && t < |tapes| && LastTry(moves, t, i)
    ensures StandsAfter(tapes, After(tapes, moves).tasks[t], t, moves[i], Tries(moves[..i + 1], t), At(tapes, moves, i).now)
    decreases |moves|
  {
    hide Enabled, Apply, StandsAfter, Tries, IsTry;
    var n := |moves| - 1;
    var before, w := moves[..n], After(tapes, moves[..n]);
    if i == n {
      LegalRunsAreSafe(tapes, before);
      TryStands(tapes, w, moves[n], t);
      AttemptsAreTries(tapes, before, t);
      AttemptsAreTries(tapes, moves, t);
      assert moves[..i + 1] == moves;
      assert Tries(moves, t) == Tries(before, t) + 1 by { OneTryMore(moves, t); }
    } else {
      TasksStandByTheirTries(tapes, before, t, i);
      assert before[..i + 1] == moves[..i + 1] && before[..i] == moves[..i];
      assert moves[i].Admit? || moves[i].Reject? by { TryIsOne(moves[i], t); }
      OtherMovesStand(tapes, w, moves[n], t, moves[i], Tries(moves[..i + 1], t), At(tapes, moves, i).now);
    }
  }

  lemma OneTryMore(moves: seq<Move>, t: nat)
    requires moves != [] && IsTry(moves[|moves| - 1], t)
    ensures Tries(moves, t) == Tries(moves[..|moves| - 1], t) + 1
  {
  }

  lemma TryIsOne(m: Move, t: nat)
    requires IsTry(m, t)
    ensures m.Admit? || m.Reject?
  {
  }

  /** And one never tried is still waiting its first turn. */
  lemma {:induction false} UntriedStaysReady(tapes: Tapes, moves: seq<Move>, t: nat)
    requires Legal(tapes, moves) && t < |tapes| && forall i :: 0 <= i < |moves| ==> !IsTry(moves[i], t)
    ensures After(tapes, moves).tasks[t] == Ready(0)
  {
    hide Sum, BackoffDelay, RejectedUntil;
    if moves != [] {
      UntriedStaysReady(tapes, moves[..|moves| - 1], t);
    }
  }
}
