/**
 The concurrency experiment's event loop: a ready queue, a retry queue, an end
 queue and an admission cap, proved to run the backpressure protocol.
 */
module Concurrency {
  import opened Numbers
  import opened Retry
  import opened Tallies
  import opened Tasks
  import opened EventQueue
  import opened Backpressure
  import opened Workloads
  import Effects

  datatype Sim = Sim(
    control: Controller,
    ready: seq<nat>,
    retries: set<Event>,
    ends: set<Event>,
    attemptOf: seq<nat>,
    inFlight: nat,
    now: nat,
    draw: nat,
    stats: ArmStats)

  function Initial(arm: Arm, n: nat): Sim {
    Sim(Controller(FirstCap(arm), 0), seq(n, t => t), {}, {}, seq(n, t => 0), 0, 0, 0, NO_STATS)
  }

  // ------------------------------------------------------------------
  // What the loop's variables say about the world.
  // ------------------------------------------------------------------

  /** Every unsettled task is in exactly the queue of its phase, once. */
  ghost predicate Queues(s: Sim, w: World) {
    && s.now == w.now
    && Counters(s.attemptOf, w.tasks)
    && s.ready == w.queue && Queued(s.ready, w.tasks, IsReady)
    && Scheduled(s.retries, w.tasks, DueOf)
    && Scheduled(s.ends, w.tasks, UntilOf)
  }

  /** The reported figures are those of the tasks' phases. */
  ghost predicate Reports(stats: ArmStats, w: World) {
    && stats.completed == Sum(w.tasks, OneIfCompleted)
    && stats.deadLettered == Sum(w.tasks, OneIfDead)
    && stats.attempts == stats.decisions == Sum(w.tasks, Attempts)
    && stats.wastedAttempts == Sum(w.tasks, Wasted)
    && multiset(stats.latencies) == EndTimes(w.tasks)
  }

  ghost predicate Accounts(s: Sim, w: World) {
    s.inFlight == InFlight(w) == |s.ends| && Reports(s.stats, w)
  }

  ghost predicate Tracks(s: Sim, w: World) {
    Queues(s, w) && Accounts(s, w) && Safe(w)
  }

  /** The loop has made these moves, under this arm's policy, to get here. */
  ghost predicate Reached(arm: Arm, tapes: Tapes, s: Sim, moves: seq<Move>) {
    && Legal(tapes, moves)
    && Obeys(arm, tapes, moves)
    && s.control == Steered(arm, moves)
    && Tracks(s, After(tapes, moves))
  }

  // ------------------------------------------------------------------
  // One pass through each of the loop's inner bodies.
  // ------------------------------------------------------------------

  function ReleaseOne(s: Sim, e: Event): Sim {
    s.(retries := s.retries - {e}, ready := s.ready + [e.task])
  }

  function TryNext(s: Sim): Sim
    requires s.ready != [] && s.ready[0] < |s.attemptOf|
  {
    var task := s.ready[0];
    s.(ready := s.ready[1..],
       attemptOf := s.attemptOf[task := s.attemptOf[task] + 1],
       stats := s.stats.(attempts := s.stats.attempts + 1, decisions := s.stats.decisions + 1))
  }

  function AdmitNext(tapes: Tapes, s: Sim): Sim
    requires s.ready != [] && s.ready[0] < |s.attemptOf| == |tapes| && s.attemptOf[s.ready[0]] < TAPE_LEN
  {
    var task := s.ready[0];
    TryNext(s).(inFlight := s.inFlight + 1,
                ends := s.ends + {Event(s.now + tapes[task][s.attemptOf[task]], task)})
  }

  function RejectNext(arm: Arm, s: Sim, uniform: real): Sim
    requires s.ready != [] && s.ready[0] < |s.attemptOf|
  {
    var task := s.ready[0];
    var tried := TryNext(s);
    var stats := tried.stats.(wastedAttempts := s.stats.wastedAttempts + 1);
    var turnedAway := tried.(
      draw := s.draw + 1,
      control := if arm.HeuristicArm? then Controller(Max(s.control.cap / 2, 1), 0) else s.control);
    match Classify(Effects.Idempotent, RateLimited, s.attemptOf[task] + 1, MAX_ATTEMPTS, uniform)
    case Retry(afterMs) =>
      turnedAway.(stats := stats,
                  retries := s.retries + {Event(s.now + REJECT_LATENCY_MS + Max(afterMs, RETRY_AFTER_MS), task)})
    case _ =>
      turnedAway.(stats := stats.(deadLettered := stats.deadLettered + 1,
                                  latencies := stats.latencies + [s.now + REJECT_LATENCY_MS]))
  }

  function FinishOne(arm: Arm, s: Sim, e: Event): Sim
    requires s.inFlight > 0
  {
    var c := s.control;
    var done := s.(ends := s.ends - {e},
                   inFlight := s.inFlight - 1,
                   stats := s.stats.(completed := s.stats.completed + 1, latencies := s.stats.latencies + [e.at]));
    if !arm.HeuristicArm? then done
    else if c.streak + 1 >= AIMD_SUCCESS_STREAK_PER_INC then
      done.(control := Controller(Min(c.cap + 1, AIMD_MAX_CAP), 0))
    else done.(control := c.(streak := c.streak + 1))
  }

  /** The figures of a task's old phase come off, those of its new one go on. */
  ghost predicate Rebooked(before: ArmStats, after: ArmStats, old': Phase, p: Phase) {
    && after.completed + OneIfCompleted(old') == before.completed + OneIfCompleted(p)
    && after.deadLettered + OneIfDead(old') == before.deadLettered + OneIfDead(p)
    && after.attempts + Attempts(old') == before.attempts + Attempts(p)
    && after.decisions + Attempts(old') == before.decisions + Attempts(p)
    && after.wastedAttempts + Wasted(old') == before.wastedAttempts + Wasted(p)
    && multiset(after.latencies) == multiset(before.latencies) + EndTime(p)
  }

  lemma ReportsAfter(before: ArmStats, after: ArmStats, w: World, w': World, t: nat, p: Phase)
    requires t < |w.tasks| && EndTime(w.tasks[t]) == multiset{} && w'.tasks == w.tasks[t := p]
    requires Reports(before, w) && Rebooked(before, after, w.tasks[t], p)
    ensures Reports(after, w')
    ensures InFlight(w') + OneIfRunning(w.tasks[t]) == InFlight(w) + OneIfRunning(p)
  {
    hide Sum, EndTimes;
    TotalsOfUpdate(w.tasks, t, p);
    EndTimesOfUpdate(w.tasks, t, p);
  }

  lemma FirstDue(s: Sim, w: World, e: Event)
    requires Tracks(s, w) && IsFirst(s.retries, e) && e.at <= s.now
    ensures Enabled(w, Release(e.task)) && w.tasks[e.task].due == e.at
  {
  }

  lemma FirstEnding(s: Sim, w: World, e: Event)
    requires Tracks(s, w) && IsFirst(s.ends, e) && e.at <= s.now
    ensures Enabled(w, Finish(e.task)) && w.tasks[e.task].until == e.at
  {
  }

  lemma FirstQueued(s: Sim, w: World)
    requires Tracks(s, w) && s.ready != []
    ensures NextInQueue(w, s.ready[0]) && |s.attemptOf| == |w.tasks| && s.now == w.now
    ensures w.tasks[s.ready[0]].attempts == s.attemptOf[s.ready[0]] < MAX_ATTEMPTS
  {
  }

  lemma ReleaseQueues(tapes: Tapes, s: Sim, w: World, e: Event)
    requires |tapes| == |w.tasks| && Tracks(s, w) && IsFirst(s.retries, e) && e.at <= s.now
    ensures e.task < |w.tasks| && Queues(ReleaseOne(s, e), Apply(tapes, w, Release(e.task)))
  {
    hide Queued, Scheduled, Counters, Accounts, Safe;
    FirstDue(s, w, e);
    var t := e.task;
    var p := Moved(tapes, w, Release(t));
    CountersAfter(s.attemptOf, w.tasks, t, p);
    ScheduledAfterRemove(s.retries, w.tasks, DueOf, e, p);
    ScheduledAfterOther(s.ends, w.tasks, UntilOf, t, p);
    QueuedAfterPush(s.ready, w.tasks, IsReady, t, p);
  }

  lemma ReleaseTracks(tapes: Tapes, s: Sim, w: World, e: Event)
    requires |tapes| == |w.tasks| && Tracks(s, w) && IsFirst(s.retries, e) && e.at <= s.now
    ensures Enabled(w, Release(e.task)) && Tracks(ReleaseOne(s, e), Apply(tapes, w, Release(e.task)))
  {
    hide Queues, Reports, InFlight, Safe;
    FirstDue(s, w, e);
    var t, m := e.task, Release(e.task);
    ReleaseQueues(tapes, s, w, e);
    ReportsAfter(s.stats, ReleaseOne(s, e).stats, w, Apply(tapes, w, m), t, Moved(tapes, w, m));
    MoveKeepsSafe(tapes, w, m);
  }

  lemma FinishQueues(arm: Arm, tapes: Tapes, s: Sim, w: World, e: Event)
    requires |tapes| == |w.tasks| && Tracks(s, w) && IsFirst(s.ends, e) && e.at <= s.now
    ensures s.inFlight > 0 && |s.ends - {e}| == |s.ends| - 1
    ensures e.task < |w.tasks| && Queues(FinishOne(arm, s, e), Apply(tapes, w, Finish(e.task)))
  {
    hide Queued, Scheduled, Counters, Reports, Safe;
    FirstEnding(s, w, e);
    var t := e.task;
    var p := Moved(tapes, w, Finish(t));
    CountersAfter(s.attemptOf, w.tasks, t, p);
    ScheduledAfterOther(s.retries, w.tasks, DueOf, t, p);
    ScheduledAfterRemove(s.ends, w.tasks, UntilOf, e, p);
    QueuedAfterOther(s.ready, w.tasks, IsReady, t, p);
  }

  lemma FinishTracks(arm: Arm, tapes: Tapes, s: Sim, w: World, e: Event)
    requires |tapes| == |w.tasks| && Tracks(s, w) && IsFirst(s.ends, e) && e.at <= s.now
    ensures s.inFlight > 0
    ensures Enabled(w, Finish(e.task)) && Tracks(FinishOne(arm, s, e), Apply(tapes, w, Finish(e.task)))
  {
    hide Queues, Reports, InFlight, Safe;
    FirstEnding(s, w, e);
    var t, m := e.task, Finish(e.task);
    FinishQueues(arm, tapes, s, w, e);
    ReportsAfter(s.stats, FinishOne(arm, s, e).stats, w, Apply(tapes, w, m), t, Moved(tapes, w, m));
    MoveKeepsSafe(tapes, w, m);
  }

  lemma AdmitQueues(tapes: Tapes, s: Sim, w: World)
    requires |tapes| == |w.tasks| && Tracks(s, w) && s.ready != []
    ensures var t := s.ready[0];
      && t < |s.attemptOf| == |tapes| && s.attemptOf[t] < MAX_ATTEMPTS
      && Queues(AdmitNext(tapes, s), Apply(tapes, w, Admit(t)))
      && |AdmitNext(tapes, s).ends| == |s.ends| + 1
  {
    hide Queued, Scheduled, Counters, Accounts, Safe;
    FirstQueued(s, w);
    var t := s.ready[0];
    var p := Moved(tapes, w, Admit(t));
    CountersAfter(s.attemptOf, w.tasks, t, p);
    ScheduledAfterOther(s.retries, w.tasks, DueOf, t, p);
    ScheduledAfterAdd(s.ends, w.tasks, UntilOf, t, p);
    QueuedAfterPop(s.ready, w.tasks, IsReady, p);
  }

  lemma AdmitTracks(tapes: Tapes, s: Sim, w: World)
    requires |tapes| == |w.tasks| && Tracks(s, w) && s.ready != [] && s.inFlight < CEILING
    ensures var t := s.ready[0];
      && t < |s.attemptOf| == |tapes| && s.attemptOf[t] < MAX_ATTEMPTS
      && Enabled(w, Admit(t)) && Tracks(AdmitNext(tapes, s), Apply(tapes, w, Admit(t)))
  {
    hide Queues, Reports, InFlight, Safe;
    FirstQueued(s, w);
    var t, m := s.ready[0], Admit(s.ready[0]);
    AdmitQueues(tapes, s, w);
    ReportsAfter(s.stats, AdmitNext(tapes, s).stats, w, Apply(tapes, w, m), t, Moved(tapes, w, m));
    MoveKeepsSafe(tapes, w, m);
  }

  lemma RejectQueues(arm: Arm, tapes: Tapes, s: Sim, w: World, uniform: real)
    requires |tapes| == |w.tasks| && Tracks(s, w) && s.ready != []
    ensures s.ready[0] < |s.attemptOf| == |tapes|
    ensures Queues(RejectNext(arm, s, uniform), Apply(tapes, w, Reject(s.ready[0], uniform)))
  {
    hide Queued, Scheduled, Counters, Accounts, Safe, BackoffDelay;
    FirstQueued(s, w);
    var t := s.ready[0];
    var p := Moved(tapes, w, Reject(t, uniform));
    CountersAfter(s.attemptOf, w.tasks, t, p);
    ScheduledAfterOther(s.ends, w.tasks, UntilOf, t, p);
    if p.Waiting? {
      ScheduledAfterAdd(s.retries, w.tasks, DueOf, t, p);
    } else {
      ScheduledAfterOther(s.retries, w.tasks, DueOf, t, p);
    }
    QueuedAfterPop(s.ready, w.tasks, IsReady, p);
  }

  lemma RejectBooks(arm: Arm, tapes: Tapes, s: Sim, w: World, uniform: real)
    requires |tapes| == |w.tasks| && s.ready != [] && s.ready[0] < |s.attemptOf| == |tapes|
    requires w.tasks[s.ready[0]] == Ready(s.attemptOf[s.ready[0]]) && s.now == w.now
    ensures Rebooked(s.stats, RejectNext(arm, s, uniform).stats, w.tasks[s.ready[0]],
                     Moved(tapes, w, Reject(s.ready[0], uniform)))
  {
    hide BackoffDelay;
  }

  lemma RejectTracks(arm: Arm, tapes: Tapes, s: Sim, w: World, uniform: real)
    requires |tapes| == |w.tasks| && Tracks(s, w) && s.ready != [] && s.inFlight >= CEILING
    ensures var t := s.ready[0];
      && t < |s.attemptOf| == |tapes|
      && Enabled(w, Reject(t, uniform)) && Tracks(RejectNext(arm, s, uniform), Apply(tapes, w, Reject(t, uniform)))
  {
    hide Queues, Reports, InFlight, Safe, Rebooked, BackoffDelay;
    FirstQueued(s, w);
    var t, m := s.ready[0], Reject(s.ready[0], uniform);
    RejectQueues(arm, tapes, s, w, uniform);
    RejectBooks(arm, tapes, s, w, uniform);
    ReportsAfter(s.stats, RejectNext(arm, s, uniform).stats, w, Apply(tapes, w, m), t, Moved(tapes, w, m));
    MoveKeepsSafe(tapes, w, m);
  }

  ghost function MovesToGo(tapes: Tapes, moves: seq<Move>): nat
    requires Legal(tapes, moves)
  {
    Sum(After(tapes, moves).tasks, MovesLeft)
  }

  /** Appending an enabled move that the policy allows keeps the run going. */
  lemma Extends(arm: Arm, tapes: Tapes, s: Sim, moves: seq<Move>, m: Move, s': Sim)
    requires Reached(arm, tapes, s, moves)
    requires var w := After(tapes, moves);
      && Enabled(w, m) && Tracks(s', Apply(tapes, w, m))
      && (m.Admit? || m.Reject? ==> s.inFlight < s.control.cap)
      && (m.Advance? ==> s.ready == [] || s.inFlight >= s.control.cap)
    requires s'.control == Steer(arm, s.control, m)
    ensures Reached(arm, tapes, s', moves + [m])
    ensures After(tapes, moves + [m]) == Apply(tapes, After(tapes, moves), m)
    ensures m.Advance? ==> MovesToGo(tapes, moves + [m]) == MovesToGo(tapes, moves)
    ensures !m.Advance? ==> MovesToGo(tapes, moves + [m]) < MovesToGo(tapes, moves)
  {
    hide Queued, Scheduled, Safe, Enabled, Moved, Steer, Sum, EndTimes;
    assert (moves + [m])[..|moves|] == moves;
    if !m.Advance? {
      MovesRunOut(tapes, After(tapes, moves), m);
    }
  }

  // ------------------------------------------------------------------
  // The loops.
  // ------------------------------------------------------------------

  /** The rejections take the jitter stream in order, one draw each. */
  ghost predicate DrawnInOrder(moves: seq<Move>, jitter: nat -> real) {
    forall i :: 0 <= i < |moves| && moves[i].Reject? ==> moves[i].uniform == jitter(Rejections(moves[..i]))
  }

  lemma DrawnNext(moves: seq<Move>, m: Move, jitter: nat -> real)
    requires DrawnInOrder(moves, jitter) && (m.Reject? ==> m.uniform == jitter(Rejections(moves)))
    ensures DrawnInOrder(moves + [m], jitter)
    ensures Rejections(moves + [m]) == Rejections(moves) + if m.Reject? then 1 else 0
  {
    hide Rejections;
    var more := moves + [m];
    forall i | 0 <= i < |more| && more[i].Reject? ensures more[i].uniform == jitter(Rejections(more[..i])) {
      assert more[..i] == moves[..i];
      assert i == |moves| ==> moves[..i] == moves;
    }
    assert Rejections(more) == Rejections(moves) + if m.Reject? then 1 else 0 by { CountLast(moves, m); }
  }

  lemma NothingDrawn(jitter: nat -> real)
    ensures DrawnInOrder([], jitter) && Rejections([]) == 0
  {
  }

  lemma CountLast(moves: seq<Move>, m: Move)
    ensures Rejections(moves + [m]) == Rejections(moves) + if m.Reject? then 1 else 0
  {
    assert (moves + [m])[..|moves|] == moves;
  }

  lemma {:induction false} DrawnStill(moves0: seq<Move>, moves: seq<Move>, jitter: nat -> real)
    requires DrawnInOrder(moves0, jitter) && Adds(moves0, moves)
    ensures DrawnInOrder(moves, jitter) && Rejections(moves) == Rejections(moves0)
    decreases |moves|
  {
    hide DrawnInOrder;
    if |moves| == |moves0| {
      assert moves == moves0;
    } else {
      var n := |moves| - 1;
      assert Adds(moves0, moves[..n]);
      DrawnStill(moves0, moves[..n], jitter);
      DrawnNext(moves[..n], moves[n], jitter);
      assert moves == moves[..n] + [moves[n]];
    }
  }

  ghost predicate Adds(moves0: seq<Move>, moves: seq<Move>) {
    moves0 <= moves && forall i :: |moves0| <= i < |moves| ==> !moves[i].Reject?
  }

  /** The run so far is orderly, and completions are all taken unless just begun. */
  ghost predicate Settling(tapes: Tapes, moves: seq<Move>) {
    Legal(tapes, moves) && Orderly(tapes, moves) && (Landing(moves) ==> NoneEnding(After(tapes, moves)))
  }

  lemma QueuesAreQuiet(s: Sim, w: World)
    requires Tracks(s, w)
    ensures NothingBy(s.ends, s.now) ==> NoneEnding(w)
    ensures NothingBy(s.retries, s.now) ==> NoneDue(w)
  {
    hide Accounts, Safe;
    forall t | 0 <= t < |w.tasks|
      ensures w.tasks[t].Running? ==> Event(w.tasks[t].until, t) in s.ends
      ensures w.tasks[t].Waiting? ==> Event(w.tasks[t].due, t) in s.retries
    {
    }
  }

  lemma EventsAreAhead(s: Sim, w: World, e: Event)
    requires Tracks(s, w) && (e in s.ends || e in s.retries)
    ensures Eventful(w, e.at)
  {
    hide Accounts, Safe;
  }

  /** A release, an admission or a rejection in its turn. */
  lemma SettlesOn(tapes: Tapes, moves: seq<Move>, m: Move)
    requires Settling(tapes, moves) && Legal(tapes, moves + [m]) && (m.Release? || m.Admit? || m.Reject?)
    requires !m.Release? ==> NoneDue(After(tapes, moves))
    ensures Settling(tapes, moves + [m])
  {
    hide After, Legal, Orderly, NoneEnding, NoneDue;
    OrderlyNext(tapes, moves, m);
  }

  /** Retries whose backoff has elapsed rejoin the queue, earliest first. */
  method ReleaseDue(arm: Arm, tapes: Tapes, s0: Sim, ghost moves0: seq<Move>) returns (s: Sim, ghost moves: seq<Move>)
    requires Reached(arm, tapes, s0, moves0) && Settling(tapes, moves0)
    ensures Reached(arm, tapes, s, moves) && NothingBy(s.retries, s.now) && s.now == s0.now
    ensures Settling(tapes, moves)
    ensures Adds(moves0, moves) && s.draw == s0.draw
    ensures MovesToGo(tapes, moves) <= MovesToGo(tapes, moves0)
    ensures !NothingBy(s0.retries, s0.now) ==> MovesToGo(tapes, moves) < MovesToGo(tapes, moves0)
  {
    hide Tracks, Enabled, Apply, Legal, After, Obeys, Steered, MovesToGo, Settling;
    s, moves := s0, moves0;
    while s.retries != {}
      invariant Reached(arm, tapes, s, moves) && s.now == s0.now && Settling(tapes, moves)
      invariant Adds(moves0, moves) && s.draw == s0.draw
      invariant MovesToGo(tapes, moves) <= MovesToGo(tapes, moves0)
      invariant s != s0 ==> MovesToGo(tapes, moves) < MovesToGo(tapes, moves0)
      decreases MovesToGo(tapes, moves)
    {
      var e := First(s.retries);
      if e.at > s.now {
        return;
      }
      ghost var w := After(tapes, moves);
      ReleaseTracks(tapes, s, w, e);
      Extends(arm, tapes, s, moves, Release(e.task), ReleaseOne(s, e));
      SettlesOn(tapes, moves, Release(e.task));
      s, moves := ReleaseOne(s, e), moves + [Release(e.task)];
    }
  }

  /** Admission: while the cap allows, the next ready task is tried, and the
      callee takes it or turns it away. */
  method AdmitReady(arm: Arm, tapes: Tapes, jitter: nat -> real, s0: Sim, ghost moves0: seq<Move>) returns (s: Sim, ghost moves: seq<Move>)
    requires Reached(arm, tapes, s0, moves0) && NothingBy(s0.retries, s0.now) && Settling(tapes, moves0)
    requires DrawnInOrder(moves0, jitter) && s0.draw == Rejections(moves0)
    ensures Settling(tapes, moves)
    ensures Reached(arm, tapes, s, moves) && NothingBy(s.retries, s.now) && s.now == s0.now
    ensures s.ready == [] || s.inFlight >= s.control.cap
    ensures DrawnInOrder(moves, jitter) && s.draw == Rejections(moves)
    ensures MovesToGo(tapes, moves) <= MovesToGo(tapes, moves0)
  {
    hide Tracks, Enabled, Apply, Legal, After, Obeys, Steered, MovesToGo, BackoffDelay, DrawnInOrder, Rejections, Settling;
    s, moves := s0, moves0;
    while s.inFlight < s.control.cap && s.ready != []
      invariant Settling(tapes, moves)
      invariant Reached(arm, tapes, s, moves) && NothingBy(s.retries, s.now) && s.now == s0.now
      invariant DrawnInOrder(moves, jitter) && s.draw == Rejections(moves)
      invariant MovesToGo(tapes, moves) <= MovesToGo(tapes, moves0)
      decreases MovesToGo(tapes, moves)
    {
      ghost var w := After(tapes, moves);
      QueuesAreQuiet(s, w);
      var t := s.ready[0];
      if s.inFlight >= CEILING {
        var uniform := jitter(s.draw);
        RejectTracks(arm, tapes, s, w, uniform);
        Extends(arm, tapes, s, moves, Reject(t, uniform), RejectNext(arm, s, uniform));
        DrawnNext(moves, Reject(t, uniform), jitter);
        SettlesOn(tapes, moves, Reject(t, uniform));
        s, moves := RejectNext(arm, s, uniform), moves + [Reject(t, uniform)];
      } else {
        AdmitTracks(tapes, s, w);
        Extends(arm, tapes, s, moves, Admit(t), AdmitNext(tapes, s));
        DrawnNext(moves, Admit(t), jitter);
        SettlesOn(tapes, moves, Admit(t));
        s, moves := AdmitNext(tapes, s), moves + [Admit(t)];
      }
    }
  }

  /** Completions up to now, earliest first. */
  method FinishDue(arm: Arm, tapes: Tapes, s0: Sim, ghost moves0: seq<Move>) returns (s: Sim, ghost moves: seq<Move>)
    requires Reached(arm, tapes, s0, moves0) && Legal(tapes, moves0) && Orderly(tapes, moves0) && Landing(moves0)
    ensures Reached(arm, tapes, s, moves) && NothingBy(s.ends, s.now) && Settling(tapes, moves)
    ensures s.now == s0.now && s.retries == s0.retries
    ensures Adds(moves0, moves) && s.draw == s0.draw
    ensures MovesToGo(tapes, moves) <= MovesToGo(tapes, moves0)
    ensures !NothingBy(s0.ends, s0.now) ==> MovesToGo(tapes, moves) < MovesToGo(tapes, moves0)
  {
    hide Tracks, Enabled, Apply, Legal, After, Obeys, Orderly, Steered, MovesToGo, NoneEnding, NoneDue;
    s, moves := s0, moves0;
    while s.ends != {}
      invariant Legal(tapes, moves) && Orderly(tapes, moves) && Landing(moves)
      invariant Reached(arm, tapes, s, moves) && s.now == s0.now && s.retries == s0.retries
      invariant Adds(moves0, moves) && s.draw == s0.draw
      invariant MovesToGo(tapes, moves) <= MovesToGo(tapes, moves0)
      invariant s != s0 ==> MovesToGo(tapes, moves) < MovesToGo(tapes, moves0)
      decreases MovesToGo(tapes, moves)
    {
      var e := First(s.ends);
      if e.at > s.now {
        break;
      }
      ghost var w := After(tapes, moves);
      FinishTracks(arm, tapes, s, w, e);
      Extends(arm, tapes, s, moves, Finish(e.task), FinishOne(arm, s, e));
      OrderlyNext(tapes, moves, Finish(e.task));
      s, moves := FinishOne(arm, s, e), moves + [Finish(e.task)];
    }
    QueuesAreQuiet(s, After(tapes, moves));
  }

  /** The earliest event of either queue is where time may go next. */
  lemma AdvanceTracks(tapes: Tapes, s: Sim, w: World, to: nat)
    requires |tapes| == |w.tasks| && Tracks(s, w) && s.now <= to
    requires forall e :: e in s.ends || e in s.retries ==> to <= e.at
    ensures Enabled(w, Advance(to)) && Tracks(s.(now := to), Apply(tapes, w, Advance(to)))
  {
    hide Sum, EndTimes;
    forall t | 0 <= t < |w.tasks|
      ensures w.tasks[t].Running? ==> to <= w.tasks[t].until
      ensures w.tasks[t].Waiting? ==> to <= w.tasks[t].due
    {
      assert w.tasks[t].Running? ==> Event(w.tasks[t].until, t) in s.ends;
      assert w.tasks[t].Waiting? ==> Event(w.tasks[t].due, t) in s.retries;
    }
    MoveKeepsSafe(tapes, w, Advance(to));
  }

  /** Nothing running ends in the past. */
  lemma EndsAreAhead(s: Sim, w: World, e: Event)
    requires Tracks(s, w) && e in s.ends
    ensures s.now <= e.at
  {
  }

  /** With nothing running or waiting, and nothing left ready that the cap kept
      back, each task has settled. */
  lemma EmptyQueuesMeanSettled(s: Sim, w: World)
    requires Tracks(s, w) && s.retries == {} && s.ends == {}
    requires s.ready == [] || s.inFlight >= s.control.cap >= 1
    ensures s.stats.completed + s.stats.deadLettered == |w.tasks|
  {
    forall t | 0 <= t < |w.tasks|
      ensures (w.tasks[t].Completed? && w.tasks[t].attempts >= 1) || w.tasks[t].DeadLettered?
    {
      assert t !in s.ready && PhaseOk(w.tasks[t], w.now);
    }
    AllSettled(w.tasks);
  }

  lemma InitialAccounts(arm: Arm, n: nat)
    ensures Accounts(Initial(arm, n), Start(n))
  {
    hide Sum, EndTimes;
    var tasks := Start(n).tasks;
    SumOfConstant(tasks, 0, Attempts);
    SumOfConstant(tasks, 0, Wasted);
    SumOfConstant(tasks, 0, OneIfRunning);
    SumOfConstant(tasks, 0, OneIfCompleted);
    SumOfConstant(tasks, 0, OneIfDead);
    NoEndTimesYet(tasks);
  }

  lemma InitialReached(arm: Arm, tapes: Tapes)
    ensures Reached(arm, tapes, Initial(arm, |tapes|), [])
  {
    hide Sum, EndTimes, Accounts;
    LegalRunsAreSafe(tapes, []);
    InitialAccounts(arm, |tapes|);
    var ready, tasks := Initial(arm, |tapes|).ready, Start(|tapes|).tasks;
    forall t | 0 <= t < |tapes| ensures t in ready {
      assert ready[t] == t;
    }
    assert Queued(ready, tasks, IsReady);
  }

  lemma CountsAtTheEnd(s: Sim, w: World)
    requires Tracks(s, w) && s.stats.completed + s.stats.deadLettered == |w.tasks|
    ensures AllDone(w.tasks) && Reports(s.stats, w)
    ensures s.stats.attempts == s.stats.completed + s.stats.wastedAttempts
  {
    CountedAllSettled(w.tasks);
    assert forall t :: 0 <= t < |w.tasks| ==> PhaseOk(w.tasks[t], w.now);
    AllSettled(w.tasks);
  }

  /** The whole arm. It ends; the moves it made are a legal run of the callee
      under the arm's policy; every task settles exactly once; and the figures
      it reports are those of that run. */
  method RunConcurrencyArm(arm: Arm, tapes: Tapes, jitter: nat -> real) returns (stats: ArmStats, ghost moves: seq<Move>)
    ensures Legal(tapes, moves) && Obeys(arm, tapes, moves) && Orderly(tapes, moves)
    ensures DrawnInOrder(moves, jitter)
    ensures AllDone(After(tapes, moves).tasks) && Reports(stats, After(tapes, moves))
    ensures stats.items == stats.completed + stats.deadLettered == |tapes|
    ensures stats.attempts == stats.completed + stats.wastedAttempts
    ensures arm.OracleArm? ==> stats.wastedAttempts == 0 && stats.completed == |tapes|
  {
    hide Tracks, Enabled, Apply, Legal, After, Obeys, Steered, Sum, EndTimes, MovesToGo, AllDone, DrawnInOrder, Rejections, Adds,
         Orderly, NoneEnding, NoneDue, Eventful;
    InitialReached(arm, tapes);
    NothingDrawn(jitter);
    NothingOrdered(tapes);
    var s := Initial(arm, |tapes|);
    moves := [];
    while true
      invariant Reached(arm, tapes, s, moves) && DrawnInOrder(moves, jitter) && s.draw == Rejections(moves)
      invariant Settling(tapes, moves)
      decreases MovesToGo(tapes, moves), if NothingBy(s.retries, s.now) then 1 else 0
    {
      ghost var before := MovesToGo(tapes, moves);
      ghost var start := moves;
      s, moves := ReleaseDue(arm, tapes, s, moves);
      DrawnStill(start, moves, jitter);
      s, moves := AdmitReady(arm, tapes, jitter, s, moves);
      ghost var w := After(tapes, moves);
      if s.stats.completed + s.stats.deadLettered == |tapes| {
        break;
      }
      var to;
      if s.ends != {} && s.retries != {} {
        var a := First(s.ends);
        var b := First(s.retries);
        EndsAreAhead(s, w, a);
        EventsAreAhead(s, w, a);
        EventsAreAhead(s, w, b);
        to := Min(a.at, b.at);
      } else if s.ends != {} {
        var a := First(s.ends);
        EndsAreAhead(s, w, a);
        EventsAreAhead(s, w, a);
        to := a.at;
      } else if s.retries != {} {
        var b := First(s.retries);
        EventsAreAhead(s, w, b);
        to := b.at;
      } else {
        CapStaysInBounds(arm, moves);
        EmptyQueuesMeanSettled(s, w);
        assert false;
      }
      AdvanceTracks(tapes, s, w, to);
      Extends(arm, tapes, s, moves, Advance(to), s.(now := to));
      DrawnNext(moves, Advance(to), jitter);
      QueuesAreQuiet(s, w);
      OrderlyNext(tapes, moves, Advance(to));
      s, moves := s.(now := to), moves + [Advance(to)];
      start := moves;
      s, moves := FinishDue(arm, tapes, s, moves);
      DrawnStill(start, moves, jitter);
    }
    CountsAtTheEnd(s, After(tapes, moves));
    if arm.OracleArm? {
      OracleWastesNothing(tapes, moves);
    }
    stats := s.stats.(items := |tapes|);
  }

  lemma NothingOrdered(tapes: Tapes)
    ensures Settling(tapes, [])
  {
  }

  // ------------------------------------------------------------------
  // The loop has no choice.
  // ------------------------------------------------------------------

  /** A run as the loop makes it, to the end. */
  ghost predicate Played(arm: Arm, tapes: Tapes, jitter: nat -> real, moves: seq<Move>) {
    && Legal(tapes, moves) && Obeys(arm, tapes, moves) && Orderly(tapes, moves)
    && DrawnInOrder(moves, jitter) && AllDone(After(tapes, moves).tasks)
  }

  /** What is known of each move of a run. */
  lemma {:induction false} MoveIsInTurn(arm: Arm, tapes: Tapes, moves: seq<Move>, i: nat)
    requires Legal(tapes, moves) && Obeys(arm, tapes, moves) && Orderly(tapes, moves) && i < |moves|
    ensures Legal(tapes, moves[..i])
    ensures var w, cap, m := After(tapes, moves[..i]), Steered(arm, moves[..i]).cap, moves[i];
      && Enabled(w, m) && InTurn(w, moves[..i], m)
      && (m.Admit? || m.Reject? ==> InFlight(w) < cap) && (m.Advance? ==> w.queue == [] || InFlight(w) >= cap)
    decreases |moves|
  {
    hide Enabled, InTurn, Steered, InFlight;
    var n := |moves| - 1;
    if i < n {
      MoveIsInTurn(arm, tapes, moves[..n], i);
      assert moves[..n][..i] == moves[..i];
    }
  }

  /** Settled tasks move no more, and no event is left to advance to. */
  lemma NothingAfterTheEnd(w: World, before: seq<Move>, m: Move)
    requires AllDone(w.tasks)
    ensures !(Enabled(w, m) && InTurn(w, before, m))
  {
  }

  lemma {:induction false} RunsAgree(arm: Arm, tapes: Tapes, jitter: nat -> real, a: seq<Move>, b: seq<Move>, i: nat)
    requires Played(arm, tapes, jitter, a) && Played(arm, tapes, jitter, b) && i <= |a| && i <= |b|
    ensures a[..i] == b[..i]
  {
    hide Legal, Obeys, Orderly, AllDone, Enabled, InTurn, Steered, InFlight;
    if i > 0 {
      RunsAgree(arm, tapes, jitter, a, b, i - 1);
      MoveIsInTurn(arm, tapes, a, i - 1);
      MoveIsInTurn(arm, tapes, b, i - 1);
      NextMoveIsForced(arm, After(tapes, a[..i - 1]), a[..i - 1], a[i - 1], b[i - 1]);
      assert a[..i] == a[..i - 1] + [a[i - 1]] && b[..i] == b[..i - 1] + [b[i - 1]];
    }
  }

  lemma NoLonger(arm: Arm, tapes: Tapes, jitter: nat -> real, a: seq<Move>, b: seq<Move>)
    requires Played(arm, tapes, jitter, a) && Played(arm, tapes, jitter, b)
    ensures |b| <= |a|
  {
    hide Legal, Obeys, Orderly, AllDone, Enabled, InTurn, DrawnInOrder;
    if |a| < |b| {
      RunsAgree(arm, tapes, jitter, a, b, |a|);
      assert a[..|a|] == a;
      MoveIsInTurn(arm, tapes, b, |a|);
      NothingAfterTheEnd(After(tapes, a), a, b[|a|]);
    }
  }

  /** Tapes and jitter decide the whole run, move by move, and so all it reports but
      the order of the latencies. */
  lemma OneRun(arm: Arm, tapes: Tapes, jitter: nat -> real, a: seq<Move>, b: seq<Move>)
    requires Played(arm, tapes, jitter, a) && Played(arm, tapes, jitter, b)
    ensures a == b
  {
    hide Played;
    NoLonger(arm, tapes, jitter, a, b);
    NoLonger(arm, tapes, jitter, b, a);
    RunsAgree(arm, tapes, jitter, a, b, |a|);
    assert a[..|a|] == a && b[..|b|] == b;
  }

  // ------------------------------------------------------------------
  // No run is ever stuck.
  // ------------------------------------------------------------------

  ghost predicate Quiet(s: Sim) {
    NothingBy(s.retries, s.now) && NothingBy(s.ends, s.now)
  }

  /** The next event still to come. */
  lemma NextEvent(arm: Arm, tapes: Tapes, s: Sim, moves: seq<Move>) returns (e: Event)
    requires Reached(arm, tapes, s, moves) && Quiet(s) && !AllDone(After(tapes, moves).tasks)
    requires s.ready == [] || s.inFlight >= s.control.cap
    ensures e in s.ends || e in s.retries
    ensures s.now < e.at && forall x :: x in s.ends || x in s.retries ==> e.at <= x.at
  {
    hide Legal, After, Obeys, Steered;
    var w := After(tapes, moves);
    if s.ends + s.retries == {} {
      CapStaysInBounds(arm, moves);
      EmptyQueuesMeanSettled(s, w);
      CountsAtTheEnd(s, w);
    }
    e := SomeIsFirst(s.ends + s.retries);
  }

  /** A run that is not over can go on, and gets nearer its end: a task moves, or
      time passes to the next event. */
  lemma NextMove(arm: Arm, tapes: Tapes, s: Sim, moves: seq<Move>) returns (m: Move, s': Sim)
    requires Reached(arm, tapes, s, moves) && !AllDone(After(tapes, moves).tasks)
    ensures Reached(arm, tapes, s', moves + [m])
    ensures
      || MovesToGo(tapes, moves + [m]) < MovesToGo(tapes, moves)
      || (MovesToGo(tapes, moves + [m]) == MovesToGo(tapes, moves) && Quiet(s) && !Quiet(s'))
  {
    hide Tracks, Enabled, Apply, Legal, After, Obeys, Steered, MovesToGo, BackoffDelay, AllDone;
    var w := After(tapes, moves);
    if !NothingBy(s.retries, s.now) {
      var e := SomeIsFirst(s.retries);
      m, s' := Release(e.task), ReleaseOne(s, e);
      ReleaseTracks(tapes, s, w, e);
    } else if !NothingBy(s.ends, s.now) {
      var e := SomeIsFirst(s.ends);
      FinishTracks(arm, tapes, s, w, e);
      m, s' := Finish(e.task), FinishOne(arm, s, e);
    } else if s.ready == [] || s.inFlight >= s.control.cap {
      var e := NextEvent(arm, tapes, s, moves);
      m, s' := Advance(e.at), s.(now := e.at);
      AdvanceTracks(tapes, s, w, e.at);
    } else if s.inFlight >= CEILING {
      RejectTracks(arm, tapes, s, w, 0.0);
      m, s' := Reject(s.ready[0], 0.0), RejectNext(arm, s, 0.0);
    } else {
      AdmitTracks(tapes, s, w);
      m, s' := Admit(s.ready[0]), AdmitNext(tapes, s);
    }
    Extends(arm, tapes, s, moves, m, s');
  }

  /** Whatever has been done, the run can be carried to the end. */
  lemma {:induction false} RunsOn(arm: Arm, tapes: Tapes, s: Sim, moves: seq<Move>) returns (run: seq<Move>)
    requires Reached(arm, tapes, s, moves)
    ensures moves <= run && Finished(arm, tapes, run)
    decreases MovesToGo(tapes, moves), if Quiet(s) then 1 else 0
  {
    hide Tracks, Legal, After, Obeys, Steered, MovesToGo, Quiet;
    if AllDone(After(tapes, moves).tasks) {
      run := moves;
    } else {
      var m, s' := NextMove(arm, tapes, s, moves);
      run := RunsOn(arm, tapes, s', moves + [m]);
    }
  }

  ghost predicate Finished(arm: Arm, tapes: Tapes, run: seq<Move>) {
    Legal(tapes, run) && Obeys(arm, tapes, run) && AllDone(After(tapes, run).tasks)
  }

  /** Every arm has a run to the end, whatever the tapes. */
  lemma EveryArmFinishes(arm: Arm, tapes: Tapes) returns (run: seq<Move>)
    ensures Finished(arm, tapes, run)
  {
    InitialReached(arm, tapes);
    run := RunsOn(arm, tapes, Initial(arm, |tapes|), []);
  }
}
