/**
 The tasks of a simulated experiment: the phases one goes through, and what each
 phase contributes to the figures an arm reports.
 */
module Tasks {
  import opened Statistics
  import opened Tallies
  import opened Wrappers

  const TAPE_LEN: nat := 6

  /** Success latencies, per task and attempt. */
  type Tapes = t: seq<seq<nat>> | forall i :: 0 <= i < |t| ==> |t[i]| == TAPE_LEN

  datatype Arm = FloorArm | OracleArm | HeuristicArm

  datatype Phase =
    | Ready(attempts: nat)
    | Waiting(attempts: nat, due: nat)
    | Running(attempts: nat, until: nat)
    | Completed(attempts: nat, at: nat)
    | DeadLettered(attempts: nat, at: nat)

  predicate IsReady(p: Phase) { p.Ready? }
  function DueOf(p: Phase): Option<nat> { if p.Waiting? then Some(p.due) else None }
  function UntilOf(p: Phase): Option<nat> { if p.Running? then Some(p.until) else None }

  function Attempts(p: Phase): nat { p.attempts }
  function OneIfRunning(p: Phase): nat { if p.Running? then 1 else 0 }
  function OneIfCompleted(p: Phase): nat { if p.Completed? then 1 else 0 }
  function OneIfDead(p: Phase): nat { if p.DeadLettered? then 1 else 0 }

  /** Attempts of the task that came to nothing. */
  function Wasted(p: Phase): nat {
    if (p.Running? || p.Completed?) && p.attempts > 0 then p.attempts - 1 else p.attempts
  }

  predicate Settled(p: Phase) {
    p.Completed? || p.DeadLettered?
  }

  ghost predicate AllDone(tasks: seq<Phase>) {
    forall t :: 0 <= t < |tasks| ==> Settled(tasks[t])
  }

  /** The attempts counted beside the tasks. */
  ghost predicate Counters(attemptOf: seq<nat>, tasks: seq<Phase>) {
    |attemptOf| == |tasks| && forall t :: 0 <= t < |tasks| ==> attemptOf[t] == tasks[t].attempts
  }

  lemma CountersAfter(attemptOf: seq<nat>, tasks: seq<Phase>, t: nat, p: Phase)
    requires Counters(attemptOf, tasks) && t < |tasks|
    ensures |attemptOf| == |tasks| && Counters(attemptOf[t := p.attempts], tasks[t := p])
    ensures p.attempts == tasks[t].attempts ==> Counters(attemptOf, tasks[t := p])
  {
  }

  // ------------------------------------------------------------------
  // Counting the settled.
  // ------------------------------------------------------------------

  /** Once every task has settled, each attempt either completed a task or was
      wasted. */
  lemma {:induction false} AllSettled(tasks: seq<Phase>)
    requires forall t :: 0 <= t < |tasks| ==>
               (tasks[t].Completed? && tasks[t].attempts >= 1) || tasks[t].DeadLettered?
    ensures Sum(tasks, OneIfCompleted) + Sum(tasks, OneIfDead) == |tasks|
    ensures Sum(tasks, Attempts) == Sum(tasks, OneIfCompleted) + Sum(tasks, Wasted)
  {
    if tasks != [] {
      AllSettled(tasks[..|tasks| - 1]);
    }
  }

  /** As many completions and dead letters as tasks: every task has settled. */
  lemma {:induction false} CountedAllSettled(tasks: seq<Phase>)
    ensures Sum(tasks, OneIfCompleted) + Sum(tasks, OneIfDead) <= |tasks|
    ensures Sum(tasks, OneIfCompleted) + Sum(tasks, OneIfDead) == |tasks| ==> AllDone(tasks)
  {
    if tasks != [] {
      CountedAllSettled(tasks[..|tasks| - 1]);
    }
  }

  // ------------------------------------------------------------------
  // When the settled tasks settled.
  // ------------------------------------------------------------------

  function EndTimes(tasks: seq<Phase>): multiset<nat> {
    if tasks == [] then multiset{}
    else EndTimes(tasks[..|tasks| - 1]) + EndTime(tasks[|tasks| - 1])
  }

  function EndTime(p: Phase): multiset<nat> {
    if Settled(p) then multiset{p.at} else multiset{}
  }

  function EndAt(p: Phase): nat {
    if Settled(p) then p.at else 0
  }

  lemma {:induction false} EndTimesOfUpdate(tasks: seq<Phase>, t: nat, p: Phase)
    requires t < |tasks| && EndTime(tasks[t]) == multiset{}
    ensures EndTimes(tasks[t := p]) == EndTimes(tasks) + EndTime(p)
  {
    var n := |tasks| - 1;
    if t < n {
      EndTimesOfUpdate(tasks[..n], t, p);
      assert tasks[t := p][..n] == tasks[..n][t := p];
    } else {
      assert tasks[t := p][..n] == tasks[..n];
    }
  }

  lemma {:induction false} NoEndTimesYet(tasks: seq<Phase>)
    requires forall t :: 0 <= t < |tasks| ==> EndTime(tasks[t]) == multiset{}
    ensures EndTimes(tasks) == multiset{}
  {
    if tasks != [] {
      NoEndTimesYet(tasks[..|tasks| - 1]);
    }
  }

  lemma {:induction false} TotalWithout(s: seq<nat>, k: nat)
    requires k < |s|
    ensures Total(s) == s[k] + Total(s[..k] + s[k + 1..])
  {
    var n := |s| - 1;
    var rest := s[..k] + s[k + 1..];
    if k < n {
      TotalWithout(s[..n], k);
      assert rest[..|rest| - 1] == s[..n][..k] + s[..n][k + 1..];
    } else {
      assert rest == s[..n];
    }
  }

  lemma MultisetWithout(s: seq<nat>, k: nat)
    requires k < |s|
    ensures multiset(s[..k] + s[k + 1..]) == multiset(s) - multiset{s[k]}
  {
    assert s == s[..k] + [s[k]] + s[k + 1..];
  }

  lemma NoTotal(s: seq<nat>)
    requires multiset(s) == multiset{}
    ensures Total(s) == 0
  {
    assert |multiset(s)| == |s|;
  }

  /** The latencies an arm reports, in whatever order, add up to its end times. */
  lemma {:induction false} TotalIsSumOfEnds(latencies: seq<nat>, tasks: seq<Phase>)
    requires multiset(latencies) == EndTimes(tasks)
    ensures Total(latencies) == Sum(tasks, EndAt)
    decreases |tasks|
  {
    hide Total;
    if tasks == [] {
      NoTotal(latencies);
    } else {
      var init, p := tasks[..|tasks| - 1], tasks[|tasks| - 1];
      if Settled(p) {
        assert p.at in multiset(latencies);
        var k :| 0 <= k < |latencies| && latencies[k] == p.at;
        MultisetWithout(latencies, k);
        TotalIsSumOfEnds(latencies[..k] + latencies[k + 1..], init);
        TotalWithout(latencies, k);
      } else {
        TotalIsSumOfEnds(latencies, init);
      }
    }
  }

  lemma {:induction false} EndsAtMost(tasks: seq<Phase>, k: nat, early: nat, late: nat)
    requires k <= |tasks|
    requires forall t :: 0 <= t < k ==> EndAt(tasks[t]) <= early
    requires forall t :: k <= t < |tasks| ==> EndAt(tasks[t]) <= late
    ensures Sum(tasks, EndAt) <= k * early + (|tasks| - k) * late
  {
    if tasks != [] {
      var n := |tasks| - 1;
      if k <= n {
        EndsAtMost(tasks[..n], k, early, late);
        OneMore(n - k, late);
      } else {
        EndsAtMost(tasks[..n], n, early, late);
        OneMore(n, early);
      }
    }
  }

  lemma OneMore(n: nat, x: nat)
    ensures (n + 1) * x == n * x + x
  {
  }
}
