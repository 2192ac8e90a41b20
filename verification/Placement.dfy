/**
 The placement experiment's event loop: a ready queue, a retry queue and the
 workers' clocks, proved to run the fleet protocol.
 */
module Placement {
  import opened Numbers
  import opened Retry
  import opened Tallies
  import opened Tasks
  import opened EventQueue
  import opened Fleet
  import opened Workloads
  import opened Wrappers
  import Effects

  datatype Sim = Sim(
    ready: seq<nat>,
    retries: set<Event>,
    attemptOf: seq<nat>,
    busy: seq<nat>,
    quarantine: seq<nat>,
    now: nat,
    draw: nat,
    stats: ArmStats)

  function Initial(n: nat, workers: nat): Sim {
    Sim(seq(n, t => t), {}, seq(n, t => 0), seq(workers, v => 0), seq(workers, v => 0), 0, 0, NO_STATS)
  }

  // ------------------------------------------------------------------
  // What the loop's variables say about the world.
  // ------------------------------------------------------------------

  ghost predicate Clocks(s: Sim, w: World) {
    s.now == w.now && s.busy == w.busy && s.quarantine == w.quarantine && |w.busy| == |w.quarantine|
  }

  /** Every unsettled task is in exactly the queue of its phase, once. */
  ghost predicate Queues(s: Sim, tasks: seq<Phase>, queue: seq<nat>) {
    && Counters(s.attemptOf, tasks)
    && s.ready == queue && Queued(s.ready, tasks, IsReady)
    && Scheduled(s.retries, tasks, DueOf)
  }

  /** The reported figures are those of the tasks' phases. */
  ghost predicate Reports(stats: ArmStats, tasks: seq<Phase>) {
    && stats.completed == Sum(tasks, OneIfCompleted)
    && stats.deadLettered == Sum(tasks, OneIfDead)
    && stats.attempts == Sum(tasks, Attempts)
    && stats.wastedAttempts == Sum(tasks, Wasted)
    && stats.decisions == stats.attempts + stats.wastedAttempts
    && multiset(stats.latencies) == EndTimes(tasks)
  }

  ghost predicate Tracks(s: Sim, w: World) {
    Clocks(s, w) && Queues(s, w.tasks, w.queue) && Reports(s.stats, w.tasks) && Safe(w)
  }

  /** The loop has made these moves, under this arm's policy, to get here. */
  ghost predicate Reached(arm: Arm, windows: seq<Window>, workers: nat, tapes: Tapes, s: Sim, moves: seq<Move>) {
    Legal(arm, windows, workers, tapes, moves) && Tracks(s, After(arm, windows, workers, tapes, moves))
  }

  // ------------------------------------------------------------------
  // One pass through each of the loop's bodies.
  // ------------------------------------------------------------------

  function ReleaseOne(s: Sim, e: Event): Sim {
    s.(retries := s.retries - {e}, ready := s.ready + [e.task])
  }

  function VetoWorker(s: Sim, worker: nat, until: nat): Sim
    requires worker < |s.busy|
  {
    s.(busy := s.busy[worker := Max(until, s.busy[worker])])
  }

  function LandNext(arm: Arm, windows: seq<Window>, tapes: Tapes, s: Sim, worker: nat, uniform: real): Sim
    requires worker < |s.busy| == |s.quarantine|
    requires s.ready != [] && s.ready[0] < |s.attemptOf| == |tapes| && s.attemptOf[s.ready[0]] < TAPE_LEN
  {
    var task := s.ready[0];
    var attempt := s.attemptOf[task] + 1;
    var claimed := s.(ready := s.ready[1..],
                      attemptOf := s.attemptOf[task := attempt],
                      stats := s.stats.(attempts := s.stats.attempts + 1, decisions := s.stats.decisions + 1));
    if Degraded(windows, worker, s.now) then
      var failedAt := s.now + FAIL_LATENCY_MS;
      var stats := claimed.stats.(decisions := s.stats.decisions + 2, wastedAttempts := s.stats.wastedAttempts + 1);
      var failed := claimed.(
        draw := s.draw + 1,
        busy := s.busy[worker := failedAt],
        quarantine := if arm.HeuristicArm? then s.quarantine[worker := failedAt + QUARANTINE_MS] else s.quarantine);
      match Classify(Effects.Idempotent, ResourceExhausted, attempt, MAX_ATTEMPTS, uniform)
      case Retry(afterMs) => failed.(stats := stats, retries := s.retries + {Event(failedAt + afterMs, task)})
      case _ =>
        failed.(stats := stats.(deadLettered := stats.deadLettered + 1, latencies := stats.latencies + [failedAt]))
    else
      var end := s.now + tapes[task][attempt - 1];
      claimed.(busy := s.busy[worker := end],
               stats := claimed.stats.(completed := s.stats.completed + 1, latencies := s.stats.latencies + [end]))
  }

  /** The figures of a task's old phase come off, those of its new one go on. */
  ghost predicate Rebooked(before: ArmStats, after: ArmStats, old': Phase, p: Phase) {
    && after.completed + OneIfCompleted(old') == before.completed + OneIfCompleted(p)
    && after.deadLettered + OneIfDead(old') == before.deadLettered + OneIfDead(p)
    && after.attempts + Attempts(old') == before.attempts + Attempts(p)
    && after.wastedAttempts + Wasted(old') == before.wastedAttempts + Wasted(p)
    && after.decisions + Attempts(old') + Wasted(old') == before.decisions + Attempts(p) + Wasted(p)
    && multiset(after.latencies) == multiset(before.latencies) + EndTime(p)
  }

  lemma ReportsAfter(before: ArmStats, after: ArmStats, tasks: seq<Phase>, t: nat, p: Phase)
    requires t < |tasks| && EndTime(tasks[t]) == multiset{}
    requires Reports(before, tasks) && Rebooked(before, after, tasks[t], p)
    ensures Reports(after, tasks[t := p])
  {
    hide Sum, EndTimes;
    SumOfUpdate(tasks, t, p, Attempts);
    SumOfUpdate(tasks, t, p, Wasted);
    SumOfUpdate(tasks, t, p, OneIfCompleted);
    SumOfUpdate(tasks, t, p, OneIfDead);
    EndTimesOfUpdate(tasks, t, p);
  }

  lemma FirstDue(s: Sim, w: World, e: Event)
    requires Tracks(s, w) && IsFirst(s.retries, e)
    ensures DueFirst(w, e.task) && w.tasks[e.task].due == e.at && s.now == w.now
  {
  }

  lemma FirstQueued(s: Sim, w: World)
    requires Tracks(s, w) && s.ready != []
    ensures var t := s.ready[0];
      && t < |s.attemptOf| == |w.tasks| && w.queue == s.ready
      && w.tasks[t] == Ready(s.attemptOf[t]) && s.attemptOf[t] < MAX_ATTEMPTS
  {
  }

  lemma ReleaseQueues(s: Sim, w: World, e: Event)
    requires Tracks(s, w) && IsFirst(s.retries, e)
    ensures e.task < |w.tasks|
    ensures var p := Ready(w.tasks[e.task].attempts);
      Queues(ReleaseOne(s, e), w.tasks[e.task := p], w.queue + [e.task])
  {
    hide Queued, Scheduled, Counters, Reports, Safe;
    FirstDue(s, w, e);
    var t := e.task;
    var p := Ready(w.tasks[t].attempts);
    CountersAfter(s.attemptOf, w.tasks, t, p);
    ScheduledAfterRemove(s.retries, w.tasks, DueOf, e, p);
    QueuedAfterPush(s.ready, w.tasks, IsReady, t, p);
  }

  lemma ReleaseTracks(arm: Arm, windows: seq<Window>, tapes: Tapes, s: Sim, w: World, e: Event)
    requires |tapes| == |w.tasks| && Tracks(s, w) && IsFirst(s.retries, e) && e.at <= s.now
    ensures InRange(w, Release(e.task)) && Enabled(arm, windows, w, Release(e.task))
    ensures Tracks(ReleaseOne(s, e), Apply(arm, windows, tapes, w, Release(e.task)))
  {
    hide Queues, Reports, Safe, DueFirst;
    FirstDue(s, w, e);
    ReleaseQueues(s, w, e);
    assert w.tasks[e.task].Waiting? by { DueIsWaiting(w, e.task); }
    ReportsAfter(s.stats, s.stats, w.tasks, e.task, Ready(w.tasks[e.task].attempts));
    MoveKeepsSafe(arm, windows, tapes, w, Release(e.task));
  }

  lemma DueIsWaiting(w: World, t: nat)
    requires DueFirst(w, t)
    ensures t < |w.tasks| && w.tasks[t].Waiting?
  {
  }

  lemma LandQueues(arm: Arm, windows: seq<Window>, tapes: Tapes, s: Sim, w: World, worker: nat, uniform: real)
    requires |tapes| == |w.tasks| && Tracks(s, w) && s.ready != [] && worker < |s.busy|
    ensures var t := s.ready[0];
      && t < |s.attemptOf| == |tapes| && s.attemptOf[t] < TAPE_LEN
      && Queues(LandNext(arm, windows, tapes, s, worker, uniform),
                w.tasks[t := Landed(windows, tapes, w, t, worker, uniform)], w.queue[1..])
  {
    hide Queued, Scheduled, Counters, Reports, Safe, BackoffDelay, Degraded;
    FirstQueued(s, w);
    var t := s.ready[0];
    var p := Landed(windows, tapes, w, t, worker, uniform);
    CountersAfter(s.attemptOf, w.tasks, t, p);
    QueuedAfterPop(s.ready, w.tasks, IsReady, p);
    if p.Waiting? {
      ScheduledAfterAdd(s.retries, w.tasks, DueOf, t, p);
    } else {
      ScheduledAfterOther(s.retries, w.tasks, DueOf, t, p);
    }
  }

  lemma LandBooks(arm: Arm, windows: seq<Window>, tapes: Tapes, s: Sim, w: World, worker: nat, uniform: real)
    requires |tapes| == |w.tasks| && s.ready != [] && s.ready[0] < |s.attemptOf| == |tapes|
    requires worker < |s.busy| == |s.quarantine| && s.attemptOf[s.ready[0]] < TAPE_LEN
    requires w.tasks[s.ready[0]] == Ready(s.attemptOf[s.ready[0]]) && s.now == w.now
    ensures Rebooked(s.stats, LandNext(arm, windows, tapes, s, worker, uniform).stats, w.tasks[s.ready[0]],
                     Landed(windows, tapes, w, s.ready[0], worker, uniform))
  {
    hide BackoffDelay, Degraded;
  }

  lemma LandTracks(arm: Arm, windows: seq<Window>, tapes: Tapes, s: Sim, w: World, worker: nat, uniform: real)
    requires |tapes| == |w.tasks| && Tracks(s, w) && s.ready != []
    requires CanClaim(w, worker) && VetoUntil(arm, windows, w.quarantine, w.now, worker) == None
    ensures var t := s.ready[0];
      && t < |s.attemptOf| == |tapes| && s.attemptOf[t] < TAPE_LEN
      && InRange(w, Land(t, worker, uniform)) && Enabled(arm, windows, w, Land(t, worker, uniform))
      && Tracks(LandNext(arm, windows, tapes, s, worker, uniform),
                Apply(arm, windows, tapes, w, Land(t, worker, uniform)))
  {
    hide Queues, Reports, Safe, Rebooked, BackoffDelay, Degraded, VetoUntil;
    FirstQueued(s, w);
    var t := s.ready[0];
    LandQueues(arm, windows, tapes, s, w, worker, uniform);
    LandBooks(arm, windows, tapes, s, w, worker, uniform);
    ReportsAfter(s.stats, LandNext(arm, windows, tapes, s, worker, uniform).stats, w.tasks, t,
                 Landed(windows, tapes, w, t, worker, uniform));
    MoveKeepsSafe(arm, windows, tapes, w, Land(t, worker, uniform));
  }

  // ------------------------------------------------------------------
  // The loops.
  // ------------------------------------------------------------------

  ghost function MovesToGo(arm: Arm, windows: seq<Window>, workers: nat, tapes: Tapes, moves: seq<Move>): nat
    requires Legal(arm, windows, workers, tapes, moves)
  {
    Sum(After(arm, windows, workers, tapes, moves).tasks, MovesLeft)
  }

  ghost function VetoesToGo(arm: Arm, windows: seq<Window>, workers: nat, tapes: Tapes, moves: seq<Move>): nat
    requires Legal(arm, windows, workers, tapes, moves)
  {
    VetoesLeft(arm, windows, After(arm, windows, workers, tapes, moves))
  }

  /** Appending an enabled move keeps the run going, and spends a task's move
      or a veto unless it only passes time. */
  lemma Extends(arm: Arm, windows: seq<Window>, workers: nat, tapes: Tapes, s: Sim, moves: seq<Move>, m: Move, s': Sim)
    requires Reached(arm, windows, workers, tapes, s, moves)
    requires var w := After(arm, windows, workers, tapes, moves);
      && InRange(w, m) && Enabled(arm, windows, w, m) && Tracks(s', Apply(arm, windows, tapes, w, m))
    ensures Reached(arm, windows, workers, tapes, s', moves + [m])
    ensures After(arm, windows, workers, tapes, moves + [m])
            == Apply(arm, windows, tapes, After(arm, windows, workers, tapes, moves), m)
    ensures var left, left' := MovesToGo(arm, windows, workers, tapes, moves), MovesToGo(arm, windows, workers, tapes, moves + [m]);
      var vetoes, vetoes' := VetoesToGo(arm, windows, workers, tapes, moves), VetoesToGo(arm, windows, workers, tapes, moves + [m]);
      && (m.Release? || m.Land? ==> left' < left)
      && (m.Advance? ==> left' == left && vetoes' == vetoes)
      && (m.Veto? ==> left' == left && vetoes' < vetoes)
  {
    hide Queues, Clocks, Reports, Safe, Enabled, InRange, Sum;
    assert (moves + [m])[..|moves|] == moves;
    var w := After(arm, windows, workers, tapes, moves);
    MovesRunOut(arm, windows, tapes, w, m);
    if m.Veto? {
      VetoesRunOut(arm, windows, tapes, w, m);
    }
  }

  /** The landings that fail take the jitter stream in order, one draw each. */
  ghost predicate DrawnInOrder(arm: Arm, windows: seq<Window>, workers: nat, tapes: Tapes, moves: seq<Move>,
                               jitter: nat -> real)
  {
    && Legal(arm, windows, workers, tapes, moves)
    && forall i :: 0 <= i < |moves| && FailsAt(arm, windows, workers, tapes, moves, i) ==>
         moves[i].uniform == jitter(Failures(arm, windows, workers, tapes, moves, i))
  }

  /** The draws made so far. */
  ghost function Drawn(arm: Arm, windows: seq<Window>, workers: nat, tapes: Tapes, moves: seq<Move>): nat
    requires Legal(arm, windows, workers, tapes, moves)
  {
    Failures(arm, windows, workers, tapes, moves, |moves|)
  }

  lemma {:induction false} SameFailures(arm: Arm, windows: seq<Window>, workers: nat, tapes: Tapes, moves: seq<Move>, m: Move, i: nat)
    requires Legal(arm, windows, workers, tapes, moves) && Legal(arm, windows, workers, tapes, moves + [m]) && i <= |moves|
    ensures Failures(arm, windows, workers, tapes, moves + [m], i) == Failures(arm, windows, workers, tapes, moves, i)
    ensures i < |moves| ==>
              (FailsAt(arm, windows, workers, tapes, moves + [m], i) <==> FailsAt(arm, windows, workers, tapes, moves, i))
  {
    hide Legal, Degraded, After;
    assert (moves + [m])[..i] == moves[..i];
    if i > 0 {
      SameFailures(arm, windows, workers, tapes, moves, m, i - 1);
    }
  }

  lemma DrawnNext(arm: Arm, windows: seq<Window>, workers: nat, tapes: Tapes, moves: seq<Move>, m: Move, jitter: nat -> real)
    requires DrawnInOrder(arm, windows, workers, tapes, moves, jitter) && Legal(arm, windows, workers, tapes, moves + [m])
    requires m.Land? ==> m.uniform == jitter(Drawn(arm, windows, workers, tapes, moves))
    ensures DrawnInOrder(arm, windows, workers, tapes, moves + [m], jitter)
    ensures Drawn(arm, windows, workers, tapes, moves + [m]) == Drawn(arm, windows, workers, tapes, moves)
            + if m.Land? && Degraded(windows, m.worker, After(arm, windows, workers, tapes, moves).now) then 1 else 0
  {
    hide Legal, Degraded, After, Failures;
    var more := moves + [m];
    forall i | 0 <= i < |moves|
      ensures FailsAt(arm, windows, workers, tapes, more, i) ==>
                more[i].uniform == jitter(Failures(arm, windows, workers, tapes, more, i))
    {
      SameFailures(arm, windows, workers, tapes, moves, m, i);
    }
    SameFailures(arm, windows, workers, tapes, moves, m, |moves|);
    assert more[..|moves|] == moves;
    assert Failures(arm, windows, workers, tapes, more, |more|)
        == Failures(arm, windows, workers, tapes, more, |moves|) + if FailsAt(arm, windows, workers, tapes, more, |moves|) then 1 else 0 by {
      LastFailure(arm, windows, workers, tapes, more);
    }
  }

  lemma LastFailure(arm: Arm, windows: seq<Window>, workers: nat, tapes: Tapes, moves: seq<Move>)
    requires Legal(arm, windows, workers, tapes, moves) && moves != []
    ensures var n := |moves| - 1;
      Failures(arm, windows, workers, tapes, moves, |moves|)
      == Failures(arm, windows, workers, tapes, moves, n) + if FailsAt(arm, windows, workers, tapes, moves, n) then 1 else 0
  {
    hide FailsAt, Legal;
  }

  ghost predicate InStream(arm: Arm, windows: seq<Window>, workers: nat, tapes: Tapes, s: Sim, moves: seq<Move>, jitter: nat -> real) {
    && DrawnInOrder(arm, windows, workers, tapes, moves, jitter)
    && s.draw == Drawn(arm, windows, workers, tapes, moves)
  }

  lemma StreamGoesOn(arm: Arm, windows: seq<Window>, workers: nat, tapes: Tapes, s: Sim, moves: seq<Move>, m: Move, s': Sim,
                     jitter: nat -> real)
    requires InStream(arm, windows, workers, tapes, s, moves, jitter) && Legal(arm, windows, workers, tapes, moves + [m])
    requires m.Land? ==> m.uniform == jitter(s.draw)
    requires s'.draw == s.draw
             + if m.Land? && Degraded(windows, m.worker, After(arm, windows, workers, tapes, moves).now) then 1 else 0
    ensures InStream(arm, windows, workers, tapes, s', moves + [m], jitter)
  {
    hide Legal, Degraded, After, DrawnInOrder, Drawn;
    DrawnNext(arm, windows, workers, tapes, moves, m, jitter);
  }

  lemma StreamIsDrawn(arm: Arm, windows: seq<Window>, workers: nat, tapes: Tapes, s: Sim, moves: seq<Move>, jitter: nat -> real)
    requires InStream(arm, windows, workers, tapes, s, moves, jitter)
    ensures DrawnInOrder(arm, windows, workers, tapes, moves, jitter)
  {
  }

  lemma StreamStarts(arm: Arm, windows: seq<Window>, workers: nat, tapes: Tapes, jitter: nat -> real)
    ensures InStream(arm, windows, workers, tapes, Initial(|tapes|, workers), [], jitter)
  {
  }

  /** Retries whose backoff has elapsed rejoin the queue, earliest first. */
  method ReleaseDue(arm: Arm, windows: seq<Window>, workers: nat, tapes: Tapes, s0: Sim, ghost moves0: seq<Move>,
                    ghost jitter: nat -> real)
      returns (s: Sim, ghost moves: seq<Move>)
    requires Reached(arm, windows, workers, tapes, s0, moves0) && InStream(arm, windows, workers, tapes, s0, moves0, jitter)
    ensures Reached(arm, windows, workers, tapes, s, moves) && NothingBy(s.retries, s.now)
    ensures InStream(arm, windows, workers, tapes, s, moves, jitter)
    ensures s.now == s0.now && s.busy == s0.busy && s.quarantine == s0.quarantine && s0.ready <= s.ready
    ensures s == s0 ==> moves == moves0
    ensures s != s0 ==>
              MovesToGo(arm, windows, workers, tapes, moves) < MovesToGo(arm, windows, workers, tapes, moves0)
  {
    hide Tracks, Enabled, Apply, Legal, After, MovesToGo, VetoesToGo, InStream;
    s, moves := s0, moves0;
    while s.retries != {}
      invariant Reached(arm, windows, workers, tapes, s, moves) && InStream(arm, windows, workers, tapes, s, moves, jitter)
      invariant s.now == s0.now && s.busy == s0.busy && s.quarantine == s0.quarantine && s0.ready <= s.ready
      invariant s == s0 ==> moves == moves0
      invariant s != s0 ==>
                  MovesToGo(arm, windows, workers, tapes, moves) < MovesToGo(arm, windows, workers, tapes, moves0)
      decreases MovesToGo(arm, windows, workers, tapes, moves)
    {
      var e := First(s.retries);
      if e.at > s.now {
        return;
      }
      ReleaseTracks(arm, windows, tapes, s, After(arm, windows, workers, tapes, moves), e);
      Extends(arm, windows, workers, tapes, s, moves, Release(e.task), ReleaseOne(s, e));
      StreamGoesOn(arm, windows, workers, tapes, s, moves, Release(e.task), ReleaseOne(s, e), jitter);
      s, moves := ReleaseOne(s, e), moves + [Release(e.task)];
      assert |s.ready| > |s0.ready|;
    }
  }

  method Candidate(busy: seq<nat>) returns (worker: nat)
    requires busy != []
    ensures IsCandidate(busy, worker)
  {
    worker := 0;
    for v := 1 to |busy|
      invariant worker < v
      invariant forall u :: 0 <= u < v ==> busy[worker] <= busy[u] && (u < worker ==> busy[worker] < busy[u])
    {
      if busy[v] < busy[worker] {
        worker := v;
      }
    }
  }

  lemma NothingDueMeansNoneDue(s: Sim, w: World)
    requires Tracks(s, w) && NothingBy(s.retries, s.now)
    ensures NoneDue(w)
  {
  }

  lemma AdvanceTracks(arm: Arm, windows: seq<Window>, tapes: Tapes, s: Sim, w: World, to: nat)
    requires |tapes| == |w.tasks| && Tracks(s, w) && NothingBy(s.retries, s.now)
    requires s.ready == [] ==> exists e :: IsFirst(s.retries, e) && to == e.at
    requires s.ready != [] ==> exists v: nat :: IsCandidate(s.busy, v) && to == Max(s.now, s.busy[v])
    ensures Enabled(arm, windows, w, Advance(to))
    ensures Tracks(s.(now := to), Apply(arm, windows, tapes, w, Advance(to)))
  {
    hide Sum, EndTimes;
    NothingDueMeansNoneDue(s, w);
    if s.ready == [] {
      var e :| IsFirst(s.retries, e) && to == e.at;
      FirstDue(s, w, e);
    }
  }

  lemma ClaimFacts(s: Sim, w: World, worker: nat)
    requires Tracks(s, w) && NothingBy(s.retries, s.now) && s.ready != []
    requires IsCandidate(s.busy, worker) && s.busy[worker] <= s.now
    ensures CanClaim(w, worker) && s.quarantine == w.quarantine && s.now == w.now
  {
    NothingDueMeansNoneDue(s, w);
  }

  lemma VetoTracks(arm: Arm, windows: seq<Window>, tapes: Tapes, s: Sim, w: World, worker: nat, until: nat)
    requires |tapes| == |w.tasks| && Tracks(s, w)
    requires CanClaim(w, worker) && VetoUntil(arm, windows, w.quarantine, w.now, worker) == Some(until)
    ensures worker < |s.busy|
    ensures InRange(w, Veto(worker, until)) && Enabled(arm, windows, w, Veto(worker, until))
    ensures Tracks(VetoWorker(s, worker, until), Apply(arm, windows, tapes, w, Veto(worker, until)))
  {
    hide Sum, EndTimes, VetoUntil;
  }

  lemma InitialReached(arm: Arm, windows: seq<Window>, workers: nat, tapes: Tapes)
    ensures Reached(arm, windows, workers, tapes, Initial(|tapes|, workers), [])
  {
    hide Sum, EndTimes;
    var tasks := Start(|tapes|, workers).tasks;
    SumOfConstant(tasks, 0, Attempts);
    SumOfConstant(tasks, 0, Wasted);
    SumOfConstant(tasks, 0, OneIfCompleted);
    SumOfConstant(tasks, 0, OneIfDead);
    NoEndTimesYet(tasks);
    var ready := Initial(|tapes|, workers).ready;
    forall t | 0 <= t < |tapes| ensures t in ready {
      assert ready[t] == t;
    }
    assert Queued(ready, tasks, IsReady);
  }

  /** With nothing ready and nothing waiting each task has settled. */
  lemma EmptyQueuesMeanSettled(s: Sim, w: World)
    requires Tracks(s, w) && s.retries == {} && s.ready == []
    ensures s.stats.completed + s.stats.deadLettered == |w.tasks|
  {
    forall t | 0 <= t < |w.tasks|
      ensures (w.tasks[t].Completed? && w.tasks[t].attempts >= 1) || w.tasks[t].DeadLettered?
    {
      assert t !in s.ready && PhaseOk(w.tasks[t]);
    }
    AllSettled(w.tasks);
  }

  lemma CountsAtTheEnd(s: Sim, w: World)
    requires Tracks(s, w) && s.stats.completed + s.stats.deadLettered == |w.tasks|
    ensures AllDone(w.tasks) && Reports(s.stats, w.tasks)
    ensures s.stats.attempts == s.stats.completed + s.stats.wastedAttempts
  {
    CountedAllSettled(w.tasks);
    assert forall t :: 0 <= t < |w.tasks| ==> PhaseOk(w.tasks[t]);
    AllSettled(w.tasks);
  }

  /** The whole arm, over any fleet and any fault schedule. It ends, vetoes and
      all; the moves it made are a legal run of the fleet under the arm's
      policy; every task settles exactly once; and the figures it reports are
      those of that run. */
  method RunPlacementArm(arm: Arm, windows: seq<Window>, workers: nat, tapes: Tapes, jitter: nat -> real)
      returns (stats: ArmStats, ghost moves: seq<Move>)
    requires workers > 0
    ensures Legal(arm, windows, workers, tapes, moves) && DrawnInOrder(arm, windows, workers, tapes, moves, jitter)
    ensures var w := After(arm, windows, workers, tapes, moves);
      AllDone(w.tasks) && Reports(stats, w.tasks)
    ensures stats.items == stats.completed + stats.deadLettered == |tapes|
    ensures stats.attempts == stats.completed + stats.wastedAttempts
    ensures arm.OracleArm? ==> stats.wastedAttempts == 0 && stats.completed == |tapes|
  {
    hide Tracks, Enabled, Apply, Legal, Sum, EndTimes, MovesToGo, VetoesToGo, AllDone, BackoffDelay, VetoUntil, InStream, Degraded;
    InitialReached(arm, windows, workers, tapes);
    StreamStarts(arm, windows, workers, tapes, jitter);
    var s := Initial(|tapes|, workers);
    moves := [];
    while true
      invariant InStream(arm, windows, workers, tapes, s, moves, jitter)
      invariant Reached(arm, windows, workers, tapes, s, moves) && |s.busy| == |s.quarantine| == workers
      decreases MovesToGo(arm, windows, workers, tapes, moves), VetoesToGo(arm, windows, workers, tapes, moves),
                if NothingBy(s.retries, s.now) then 1 else 0
    {
      s, moves := ReleaseDue(arm, windows, workers, tapes, s, moves, jitter);
      ghost var w := After(arm, windows, workers, tapes, moves);
      if s.stats.completed + s.stats.deadLettered == |tapes| {
        break;
      }
      if s.ready == [] {
        if s.retries == {} {
          EmptyQueuesMeanSettled(s, w);
          assert false;
        }
        var e := First(s.retries);
        AdvanceTracks(arm, windows, tapes, s, w, e.at);
        Extends(arm, windows, workers, tapes, s, moves, Advance(e.at), s.(now := e.at));
        StreamGoesOn(arm, windows, workers, tapes, s, moves, Advance(e.at), s.(now := e.at), jitter);
        s, moves := s.(now := e.at), moves + [Advance(e.at)];
        continue;
      }
      var worker := Candidate(s.busy);
      var to := Max(s.now, s.busy[worker]);
      AdvanceTracks(arm, windows, tapes, s, w, to);
      Extends(arm, windows, workers, tapes, s, moves, Advance(to), s.(now := to));
      StreamGoesOn(arm, windows, workers, tapes, s, moves, Advance(to), s.(now := to), jitter);
      s, moves := s.(now := to), moves + [Advance(to)];
      s, moves := ReleaseDue(arm, windows, workers, tapes, s, moves, jitter);
      w := After(arm, windows, workers, tapes, moves);
      ClaimFacts(s, w, worker);
      var veto := VetoUntil(arm, windows, s.quarantine, s.now, worker);
      if veto.Some? {
        VetoTracks(arm, windows, tapes, s, w, worker, veto.value);
        Extends(arm, windows, workers, tapes, s, moves, Veto(worker, veto.value), VetoWorker(s, worker, veto.value));
        StreamGoesOn(arm, windows, workers, tapes, s, moves, Veto(worker, veto.value), VetoWorker(s, worker, veto.value), jitter);
        s, moves := VetoWorker(s, worker, veto.value), moves + [Veto(worker, veto.value)];
        continue;
      }
      var t, uniform := s.ready[0], jitter(s.draw);
      LandTracks(arm, windows, tapes, s, w, worker, uniform);
      Extends(arm, windows, workers, tapes, s, moves, Land(t, worker, uniform),
              LandNext(arm, windows, tapes, s, worker, uniform));
      StreamGoesOn(arm, windows, workers, tapes, s, moves, Land(t, worker, uniform),
                   LandNext(arm, windows, tapes, s, worker, uniform), jitter);
      s, moves := LandNext(arm, windows, tapes, s, worker, uniform), moves + [Land(t, worker, uniform)];
    }
    StreamIsDrawn(arm, windows, workers, tapes, s, moves, jitter);
    CountsAtTheEnd(s, After(arm, windows, workers, tapes, moves));
    if arm.OracleArm? {
      OracleWastesNothing(windows, workers, tapes, moves);
    }
    stats := s.stats.(items := |tapes|);
  }

  // ------------------------------------------------------------------
  // The loop has no choice.
  // ------------------------------------------------------------------

  lemma QueueMoves(arm: Arm, windows: seq<Window>, tapes: Tapes, w: World, m: Move)
    requires |tapes| == |w.tasks| && InRange(w, m) && Enabled(arm, windows, w, m) && Queued(w.queue, w.tasks, IsReady)
    ensures var w' := Apply(arm, windows, tapes, w, m); Queued(w'.queue, w'.tasks, IsReady)
  {
    hide Queued, Landed, HoldMs, Degraded, VetoUntil, IsCandidate, NoneDue;
    match m
    case Release(t) => QueuedAfterPush(w.queue, w.tasks, IsReady, t, Ready(w.tasks[t].attempts));
    case Land(t, worker, uniform) =>
      LandedIsNotReady(windows, tapes, w, t, worker, uniform);
      QueuedAfterPop(w.queue, w.tasks, IsReady, Landed(windows, tapes, w, t, worker, uniform));
    case _ =>
  }

  lemma LandedIsNotReady(windows: seq<Window>, tapes: Tapes, w: World, t: nat, worker: nat, uniform: real)
    requires t < |w.tasks| == |tapes|
    ensures !Landed(windows, tapes, w, t, worker, uniform).Ready?
  {
  }

  /** Over every legal run the queue holds the ready tasks, each once. */
  lemma {:induction false} QueueHoldsTheReady(arm: Arm, windows: seq<Window>, workers: nat, tapes: Tapes, moves: seq<Move>)
    requires Legal(arm, windows, workers, tapes, moves)
    ensures var w := After(arm, windows, workers, tapes, moves); Queued(w.queue, w.tasks, IsReady)
  {
    hide Enabled, InRange, Apply;
    if moves == [] {
      var w := Start(|tapes|, workers);
      forall t | 0 <= t < |tapes| ensures t in w.queue {
        assert w.queue[t] == t;
      }
    } else {
      var n := |moves| - 1;
      QueueHoldsTheReady(arm, windows, workers, tapes, moves[..n]);
      QueueMoves(arm, windows, tapes, After(arm, windows, workers, tapes, moves[..n]), moves[n]);
    }
  }

  /** Time that stands still. */
  ghost predicate Idle(w: World, m: Move) {
    m.Advance? && m.to == w.now
  }

  /** Any two moves that do something do the same, if a failure's draw is the same. */
  lemma NextMoveIsForced(arm: Arm, windows: seq<Window>, tapes: Tapes, w: World, a: Move, b: Move)
    requires |tapes| == |w.tasks| && InRange(w, a) && InRange(w, b)
    requires Enabled(arm, windows, w, a) && Enabled(arm, windows, w, b) && !Idle(w, a) && !Idle(w, b)
    requires a.Land? && b.Land? && a.worker == b.worker && Degraded(windows, a.worker, w.now) ==> a.uniform == b.uniform
    ensures Apply(arm, windows, tapes, w, a) == Apply(arm, windows, tapes, w, b)
    ensures (a.Land? <==> b.Land?) && (a.Land? ==> a.worker == b.worker)
  {
    hide VetoUntil, Degraded, BackoffDelay;
    forall u: nat, v: nat | IsCandidate(w.busy, u) && IsCandidate(w.busy, v) ensures u == v {
      OneCandidate(w.busy, u, v);
    }
  }

  /** Settled tasks move no more. */
  lemma NothingAfterTheEnd(arm: Arm, windows: seq<Window>, w: World, m: Move)
    requires AllDone(w.tasks) && Queued(w.queue, w.tasks, IsReady)
    ensures !Enabled(arm, windows, w, m)
  {
    hide VetoUntil;
    if w.queue != [] {
      FirstIsReady(w);
    }
  }

  lemma FirstIsReady(w: World)
    requires Queued(w.queue, w.tasks, IsReady) && w.queue != []
    ensures w.queue[0] < |w.tasks| && w.tasks[w.queue[0]].Ready?
  {
  }

  lemma {:induction false} SkipIdle(arm: Arm, windows: seq<Window>, workers: nat, tapes: Tapes, b: seq<Move>, j: nat)
      returns (k: nat)
    requires Legal(arm, windows, workers, tapes, b) && j <= |b|
    ensures j <= k <= |b|
    ensures At(arm, windows, workers, tapes, b, k) == At(arm, windows, workers, tapes, b, j)
    ensures Failures(arm, windows, workers, tapes, b, k) == Failures(arm, windows, workers, tapes, b, j)
    ensures k < |b| ==> !Idle(At(arm, windows, workers, tapes, b, k), b[k])
    decreases |b| - j
  {
    hide At, Legal, Degraded;
    if j == |b| || !Idle(At(arm, windows, workers, tapes, b, j), b[j]) {
      k := j;
    } else {
      NextWorld(arm, windows, workers, tapes, b, j);
      k := SkipIdle(arm, windows, workers, tapes, b, j + 1);
    }
  }

  /** A run as the loop makes it, to the end. */
  ghost predicate Played(arm: Arm, windows: seq<Window>, workers: nat, tapes: Tapes, jitter: nat -> real, moves: seq<Move>) {
    && Legal(arm, windows, workers, tapes, moves) && DrawnInOrder(arm, windows, workers, tapes, moves, jitter)
    && AllDone(After(arm, windows, workers, tapes, moves).tasks)
  }

  lemma EndIsQuiet(arm: Arm, windows: seq<Window>, workers: nat, tapes: Tapes, jitter: nat -> real, b: seq<Move>, w: World, m: Move)
    requires Played(arm, windows, workers, tapes, jitter, b)
    requires w == At(arm, windows, workers, tapes, b, |b|)
    ensures !Enabled(arm, windows, w, m)
  {
    hide Enabled, AllDone, Queued, DrawnInOrder;
    assert b[..|b|] == b;
    QueueHoldsTheReady(arm, windows, workers, tapes, b);
    NothingAfterTheEnd(arm, windows, w, m);
  }

  /** Wherever one run gets, the other has been, with as many draws. */
  lemma {:induction false} RunsMeet(arm: Arm, windows: seq<Window>, workers: nat, tapes: Tapes, jitter: nat -> real,
                                    a: seq<Move>, b: seq<Move>, i: nat)
      returns (j: nat)
    requires Played(arm, windows, workers, tapes, jitter, a) && Played(arm, windows, workers, tapes, jitter, b) && i <= |a|
    ensures j <= |b| && At(arm, windows, workers, tapes, a, i) == At(arm, windows, workers, tapes, b, j)
    ensures Failures(arm, windows, workers, tapes, a, i) == Failures(arm, windows, workers, tapes, b, j)
  {
    hide At, Legal, Enabled, InRange, Apply, AllDone, Degraded, After;
    if i == 0 {
      j := 0;
      StartsAlike(arm, windows, workers, tapes, a, b);
    } else {
      var k := RunsMeet(arm, windows, workers, tapes, jitter, a, b, i - 1);
      var w := At(arm, windows, workers, tapes, a, i - 1);
      NextWorld(arm, windows, workers, tapes, a, i - 1);
      if Idle(w, a[i - 1]) {
        j := k;
        StaysIdle(arm, windows, tapes, w, a[i - 1]);
      } else {
        var n := SkipIdle(arm, windows, workers, tapes, b, k);
        if n == |b| {
          EndIsQuiet(arm, windows, workers, tapes, jitter, b, w, a[i - 1]);
        } else {
          NextWorld(arm, windows, workers, tapes, b, n);
          NextMoveIsForced(arm, windows, tapes, w, a[i - 1], b[n]);
          j := n + 1;
        }
      }
    }
  }

  lemma StartsAlike(arm: Arm, windows: seq<Window>, workers: nat, tapes: Tapes, a: seq<Move>, b: seq<Move>)
    requires Legal(arm, windows, workers, tapes, a) && Legal(arm, windows, workers, tapes, b)
    ensures At(arm, windows, workers, tapes, a, 0) == At(arm, windows, workers, tapes, b, 0)
  {
    assert a[..0] == b[..0] == [];
  }

  lemma StaysIdle(arm: Arm, windows: seq<Window>, tapes: Tapes, w: World, m: Move)
    requires |tapes| == |w.tasks| && InRange(w, m) && Idle(w, m)
    ensures Apply(arm, windows, tapes, w, m) == w
  {
  }

  /** The script, the tapes and the jitter decide how and when every task ends, and so
      all that is reported but the order of the latencies. */
  lemma OneOutcome(arm: Arm, windows: seq<Window>, workers: nat, tapes: Tapes, jitter: nat -> real, a: seq<Move>, b: seq<Move>)
    requires Played(arm, windows, workers, tapes, jitter, a) && Played(arm, windows, workers, tapes, jitter, b)
    ensures After(arm, windows, workers, tapes, a) == After(arm, windows, workers, tapes, b)
  {
    hide Legal, Enabled, After, DrawnInOrder, AllDone;
    var j := RunsMeet(arm, windows, workers, tapes, jitter, a, b, |a|);
    var k := SkipIdle(arm, windows, workers, tapes, b, j);
    assert a[..|a|] == a && b[..|b|] == b;
    if k < |b| {
      NextWorld(arm, windows, workers, tapes, b, k);
      EndIsQuiet(arm, windows, workers, tapes, jitter, a, At(arm, windows, workers, tapes, b, k), b[k]);
    }
  }

  // ------------------------------------------------------------------
  // No run is ever stuck.
  // ------------------------------------------------------------------

  /** A worker is free for the head of the queue. */
  ghost predicate Claimable(s: Sim) {
    s.ready != [] && exists v :: 0 <= v < |s.busy| && s.busy[v] <= s.now
  }

  ghost predicate Stalled(s: Sim) {
    NothingBy(s.retries, s.now) && !Claimable(s)
  }

  /** Time passes to the first retry, or to the first worker's freedom. */
  lemma NextAdvance(arm: Arm, windows: seq<Window>, workers: nat, tapes: Tapes, s: Sim, moves: seq<Move>) returns (to: nat)
    requires Reached(arm, windows, workers, tapes, s, moves) && workers > 0 && Stalled(s)
    requires !AllDone(After(arm, windows, workers, tapes, moves).tasks)
    ensures var w := After(arm, windows, workers, tapes, moves);
      && Enabled(arm, windows, w, Advance(to))
      && Tracks(s.(now := to), Apply(arm, windows, tapes, w, Advance(to)))
    ensures !Stalled(s.(now := to))
  {
    hide Legal, Enabled, Apply, Queues, Reports, Safe, AllDone;
    var w := After(arm, windows, workers, tapes, moves);
    if s.ready == [] {
      if s.retries == {} {
        EmptyQueuesMeanSettled(s, w);
        CountsAtTheEnd(s, w);
        assert false;
      }
      var e := SomeIsFirst(s.retries);
      to := e.at;
    } else {
      var v := Earliest(s.busy);
      to := Max(s.now, s.busy[v]);
    }
    AdvanceTracks(arm, windows, tapes, s, w, to);
  }

  /** A run that is not over can go on, and gets nearer its end: a task moves, a
      policy spends a veto, or time passes to the next event. */
  lemma NextMove(arm: Arm, windows: seq<Window>, workers: nat, tapes: Tapes, s: Sim, moves: seq<Move>)
      returns (m: Move, s': Sim)
    requires Reached(arm, windows, workers, tapes, s, moves) && workers > 0
    requires !AllDone(After(arm, windows, workers, tapes, moves).tasks)
    ensures Reached(arm, windows, workers, tapes, s', moves + [m])
    ensures var left, left' := MovesToGo(arm, windows, workers, tapes, moves), MovesToGo(arm, windows, workers, tapes, moves + [m]);
      var vetoes, vetoes' := VetoesToGo(arm, windows, workers, tapes, moves), VetoesToGo(arm, windows, workers, tapes, moves + [m]);
      || left' < left
      || (left' == left && vetoes' < vetoes)
      || (left' == left && vetoes' == vetoes && Stalled(s) && !Stalled(s'))
  {
    hide Tracks, Enabled, Apply, Legal, After, MovesToGo, VetoesToGo, BackoffDelay, AllDone, VetoUntil;
    var w := After(arm, windows, workers, tapes, moves);
    assert Clocks(s, w) by { TracksClocks(s, w); }
    if !NothingBy(s.retries, s.now) {
      var e := SomeIsFirst(s.retries);
      ReleaseTracks(arm, windows, tapes, s, w, e);
      m, s' := Release(e.task), ReleaseOne(s, e);
    } else if !Claimable(s) {
      var to := NextAdvance(arm, windows, workers, tapes, s, moves);
      m, s' := Advance(to), s.(now := to);
    } else {
      var v := Earliest(s.busy);
      ClaimFacts(s, w, v);
      var veto := VetoUntil(arm, windows, s.quarantine, s.now, v);
      if veto.Some? {
        VetoTracks(arm, windows, tapes, s, w, v, veto.value);
        m, s' := Veto(v, veto.value), VetoWorker(s, v, veto.value);
      } else {
        LandTracks(arm, windows, tapes, s, w, v, 0.0);
        m, s' := Land(s.ready[0], v, 0.0), LandNext(arm, windows, tapes, s, v, 0.0);
      }
    }
    Extends(arm, windows, workers, tapes, s, moves, m, s');
  }

  lemma TracksClocks(s: Sim, w: World)
    requires Tracks(s, w)
    ensures Clocks(s, w)
  {
  }

  /** Whatever has been done, the run can be carried to the end. */
  lemma {:induction false} RunsOn(arm: Arm, windows: seq<Window>, workers: nat, tapes: Tapes, s: Sim, moves: seq<Move>)
      returns (run: seq<Move>)
    requires Reached(arm, windows, workers, tapes, s, moves) && workers > 0
    ensures moves <= run && Finished(arm, windows, workers, tapes, run)
    decreases MovesToGo(arm, windows, workers, tapes, moves), VetoesToGo(arm, windows, workers, tapes, moves),
              if Stalled(s) then 1 else 0
  {
    hide Tracks, Legal, After, MovesToGo, VetoesToGo, Stalled;
    if AllDone(After(arm, windows, workers, tapes, moves).tasks) {
      run := moves;
    } else {
      var m, s' := NextMove(arm, windows, workers, tapes, s, moves);
      run := RunsOn(arm, windows, workers, tapes, s', moves + [m]);
    }
  }

  ghost predicate Finished(arm: Arm, windows: seq<Window>, workers: nat, tapes: Tapes, run: seq<Move>) {
    Legal(arm, windows, workers, tapes, run) && AllDone(After(arm, windows, workers, tapes, run).tasks)
  }

  /** Every arm has a run to the end, whatever the script and the tapes. */
  lemma EveryArmFinishes(arm: Arm, windows: seq<Window>, workers: nat, tapes: Tapes) returns (run: seq<Move>)
    requires workers > 0
    ensures Finished(arm, windows, workers, tapes, run)
  {
    InitialReached(arm, windows, workers, tapes);
    run := RunsOn(arm, windows, workers, tapes, Initial(|tapes|, workers), []);
  }
}
