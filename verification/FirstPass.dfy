/**
 The first attempts of the placement experiment's tasks under the floor, where all
 take equally long: fresh tasks go before retried ones, so workers and times do
 not depend on the jitter, and the pass can be followed to its end.
 */
module FirstPass {
  import opened Fleet
  import opened Outage

  /** How long a first attempt takes on a worker that is not degraded. */
  const LONG_MS: nat := 325

  /** When the workers are free, how many first attempts have succeeded, and the sum
      of the times at which they ended. */
  datatype Clock = Clock(busy: seq<nat>, done: nat, ends: nat)

  const START := Clock([0, 0, 0, 0], 0, 0)

  /** The next fresh task goes to the worker that is free first. */
  ghost function Tick(c: Clock): (c': Clock)
    requires |c.busy| == PLACEMENT_WORKERS
    ensures |c'.busy| == PLACEMENT_WORKERS
  {
    var v := Earliest(c.busy);
    var at := c.busy[v];
    if Degraded(PLACEMENT_WINDOWS, v, at) then c.(busy := c.busy[v := at + FAIL_LATENCY_MS])
    else Clock(c.busy[v := at + LONG_MS], c.done + 1, c.ends + at + LONG_MS)
  }

  ghost function Run(c: Clock, k: nat): (c': Clock)
    requires |c.busy| == PLACEMENT_WORKERS
    ensures |c'.busy| == PLACEMENT_WORKERS
  {
    if k == 0 then c else Tick(Run(c, k - 1))
  }

  lemma {:induction false} RunOn(c: Clock, j: nat, k: nat)
    requires |c.busy| == PLACEMENT_WORKERS
    ensures Run(c, j + k) == Run(Run(c, j), k)
  {
    hide Tick;
    if k > 0 {
      RunOn(c, j, k - 1);
      assert Run(c, j + k) == Tick(Run(c, j + k - 1));
    }
  }

  lemma OneTick(c: Clock)
    requires |c.busy| == PLACEMENT_WORKERS
    ensures Run(c, 1) == Tick(c)
  {
    assert Run(c, 0) == c;
  }

  /** The script, spelled out. */
  predicate Out(v: nat, at: nat) {
    (v == 1 && 2_000 <= at < 5_000) || (v == 3 && 7_000 <= at < 8_500)
  }

  lemma OutIsDegraded(v: nat, at: nat)
    ensures Degraded(PLACEMENT_WINDOWS, v, at) <==> Out(v, at)
  {
    if Out(v, at) {
      assert InWindow(PLACEMENT_WINDOWS[if v == 1 then 0 else 1], v, at);
    }
  }

  lemma TickOf(c: Clock, v: nat)
    requires |c.busy| == PLACEMENT_WORKERS && v < PLACEMENT_WORKERS && IsCandidate(c.busy, v)
    ensures Tick(c) ==
            if Out(v, c.busy[v]) then c.(busy := c.busy[v := c.busy[v] + FAIL_LATENCY_MS])
            else Clock(c.busy[v := c.busy[v] + LONG_MS], c.done + 1, c.ends + c.busy[v] + LONG_MS)
  {
    hide Degraded, IsCandidate, Earliest, Out;
    OneCandidate(c.busy, v, Earliest(c.busy));
    OutIsDegraded(v, c.busy[v]);
  }

  // ------------------------------------------------------------------
  // Runs of ticks.
  // ------------------------------------------------------------------

  /** A degraded worker that is free first fails one task after the other. */
  lemma {:induction false} FailsInARow(c: Clock, v: nat, m: nat)
    requires |c.busy| == PLACEMENT_WORKERS && v < PLACEMENT_WORKERS
    requires forall u :: 0 <= u < PLACEMENT_WORKERS && u != v ==> c.busy[v] + FAIL_LATENCY_MS * m < c.busy[u] + FAIL_LATENCY_MS
    requires forall i: nat :: i < m ==> Out(v, c.busy[v] + FAIL_LATENCY_MS * i)
    ensures Run(c, m) == c.(busy := c.busy[v := c.busy[v] + FAIL_LATENCY_MS * m])
  {
    hide Out, Tick;
    if m == 0 {
      assert c.busy[v := c.busy[v]] == c.busy;
    } else {
      FailsInARow(c, v, m - 1);
      var before := Run(c, m - 1);
      assert IsCandidate(before.busy, v);
      TickOf(before, v);
      assert Out(v, c.busy[v] + FAIL_LATENCY_MS * (m - 1));
      assert c.busy[v := c.busy[v] + FAIL_LATENCY_MS * (m - 1)][v := c.busy[v] + FAIL_LATENCY_MS * m]
          == c.busy[v := c.busy[v] + FAIL_LATENCY_MS * m];
    }
  }

  ghost predicate AllAt(c: Clock, b: nat) {
    c.busy == [b, b, b, b]
  }

  /** All four take a task. */
  lemma HealthyRound(c: Clock, b: nat)
    requires AllAt(c, b) && (b < 2_000 || 5_000 <= b < 7_000)
    ensures Run(c, 4) == Clock([b + LONG_MS, b + LONG_MS, b + LONG_MS, b + LONG_MS], c.done + 4, c.ends + 4 * (b + LONG_MS))
  {
    hide Tick, Run;
    var c1, c2, c3 := Run(c, 1), Run(c, 2), Run(c, 3);
    FourTicks(c);
    TickOf(c, 0);
    assert c1.busy == [b + LONG_MS, b, b, b];
    TickOf(c1, 1);
    assert c2.busy == [b + LONG_MS, b + LONG_MS, b, b];
    TickOf(c2, 2);
    assert c3.busy == [b + LONG_MS, b + LONG_MS, b + LONG_MS, b];
    TickOf(c3, 3);
  }

  lemma FourTicks(c: Clock)
    requires |c.busy| == PLACEMENT_WORKERS
    ensures Run(c, 1) == Tick(c) && Run(c, 2) == Tick(Run(c, 1)) && Run(c, 3) == Tick(Run(c, 2)) && Run(c, 4) == Tick(Run(c, 3))
  {
    OneTick(c);
  }

  /** Three take a task while worker 1 fails `m` of them. */
  lemma FirstOutage(c: Clock, b: nat, m: nat)
    requires AllAt(c, b) && 1 <= m <= 13 && 2_000 <= b && b + FAIL_LATENCY_MS * m <= 5_000
    ensures Run(c, 3 + m) == Clock([b + LONG_MS, b + FAIL_LATENCY_MS * m, b + LONG_MS, b + LONG_MS],
                                   c.done + 3, c.ends + 3 * (b + LONG_MS))
  {
    hide Tick, Run;
    var c1, c2, c3, c4 := Run(c, 1), Run(c, 2), Run(c, 3), Run(c, 4);
    FourTicks(c);
    TickOf(c, 0);
    assert c1.busy == [b + LONG_MS, b, b, b];
    TickOf(c1, 1);
    assert c2.busy == [b + LONG_MS, b + FAIL_LATENCY_MS, b, b];
    TickOf(c2, 2);
    assert c3.busy == [b + LONG_MS, b + FAIL_LATENCY_MS, b + LONG_MS, b];
    TickOf(c3, 3);
    assert c4.busy == [b + LONG_MS, b + FAIL_LATENCY_MS, b + LONG_MS, b + LONG_MS];
    FailsInARow(c4, 1, m - 1);
    RunOn(c, 4, m - 1);
  }

  /** Between the outages worker 1 runs 200 milliseconds ahead. */
  lemma StaggeredRound(c: Clock, b: nat)
    requires c.busy == [b + 200, b, b + 200, b + 200] && 5_000 <= b && b + 200 < 7_000
    ensures Run(c, 4) == Clock([b + 200 + LONG_MS, b + LONG_MS, b + 200 + LONG_MS, b + 200 + LONG_MS],
                               c.done + 4, c.ends + 4 * (b + LONG_MS) + 600)
  {
    hide Tick, Run;
    var c1, c2, c3 := Run(c, 1), Run(c, 2), Run(c, 3);
    FourTicks(c);
    TickOf(c, 1);
    assert c1.busy == [b + 200, b + LONG_MS, b + 200, b + 200];
    TickOf(c1, 0);
    assert c2.busy == [b + 200 + LONG_MS, b + LONG_MS, b + 200, b + 200];
    TickOf(c2, 2);
    assert c3.busy == [b + 200 + LONG_MS, b + LONG_MS, b + 200 + LONG_MS, b + 200];
    TickOf(c3, 3);
  }

  /** Then worker 3 fails: two tasks are taken, and it fails five. */
  lemma SecondOutageStarts(c: Clock, b: nat)
    requires c.busy == [b, b + 125, b, b] && 7_000 <= b && b + 125 <= 8_500
    ensures Run(c, 7) == Clock([b + LONG_MS, b + 125, b + LONG_MS, b + 125], c.done + 2, c.ends + 2 * (b + LONG_MS))
  {
    hide Tick, Run;
    var c1, c2 := Run(c, 1), Run(c, 2);
    FourTicks(c);
    TickOf(c, 0);
    assert c1.busy == [b + LONG_MS, b + 125, b, b];
    TickOf(c1, 2);
    assert c2.busy == [b + LONG_MS, b + 125, b + LONG_MS, b];
    FailsInARow(c2, 3, 5);
    RunOn(c, 2, 5);
  }

  /** Worker 1 takes one, and worker 3 fails eight more. */
  lemma SecondOutage(c: Clock, b: nat)
    requires c.busy == [b, b + 125, b, b] && 7_000 <= b && b + LONG_MS <= 8_500
    ensures Run(c, 16) == Clock([b + LONG_MS, b + 125 + LONG_MS, b + LONG_MS, b + LONG_MS],
                                c.done + 3, c.ends + 3 * (b + LONG_MS) + 125)
  {
    hide Tick, Run;
    var c7, c8 := Run(c, 7), Run(c, 8);
    SecondOutageStarts(c, b);
    RunOn(c, 7, 1);
    OneTick(c7);
    TickOf(c7, 1);
    assert c8.busy == [b + LONG_MS, b + 125 + LONG_MS, b + LONG_MS, b + 125];
    FailsInARow(c8, 3, 8);
    RunOn(c, 8, 8);
  }

  // ------------------------------------------------------------------
  // The whole pass.
  // ------------------------------------------------------------------

  function Triangular(i: nat): nat {
    if i == 0 then 0 else Triangular(i - 1) + i
  }

  lemma {:induction false} HealthyRounds(i: nat)
    requires i <= 7
    ensures var b := LONG_MS * i; Run(START, 4 * i) == Clock([b, b, b, b], 4 * i, 4 * (LONG_MS * Triangular(i)))
  {
    hide Run;
    if i == 0 {
      assert Run(START, 0) == START by { NoTicks(START); }
    } else {
      HealthyRounds(i - 1);
      HealthyRound(Run(START, 4 * (i - 1)), LONG_MS * (i - 1));
      RunOn(START, 4 * (i - 1), 4);
    }
  }

  lemma NoTicks(c: Clock)
    requires |c.busy| == PLACEMENT_WORKERS
    ensures Run(c, 0) == c
  {
  }

  lemma {:induction false} FirstOutageRounds(c: Clock, b0: nat, i: nat)
    requires AllAt(c, b0) && 2_000 <= b0 && b0 + LONG_MS * i <= 5_000
    ensures var b := b0 + LONG_MS * i;
      Run(c, 16 * i) == Clock([b, b, b, b], c.done + 3 * i, c.ends + 3 * (b0 * i + LONG_MS * Triangular(i)))
  {
    hide Run;
    if i == 0 {
      NoTicks(c);
    } else {
      FirstOutageRounds(c, b0, i - 1);
      FirstOutage(Run(c, 16 * (i - 1)), b0 + LONG_MS * (i - 1), 13);
      RunOn(c, 16 * (i - 1), 16);
      assert b0 * i == b0 * (i - 1) + b0;
    }
  }

  lemma {:induction false} StaggeredRounds(c: Clock, b0: nat, i: nat)
    requires c.busy == [b0 + 200, b0, b0 + 200, b0 + 200] && 5_000 <= b0 && b0 + LONG_MS * i < 7_000
    ensures var b := b0 + LONG_MS * i;
      Run(c, 4 * i) == Clock([b + 200, b, b + 200, b + 200], c.done + 4 * i,
                             c.ends + 4 * (b0 * i + LONG_MS * Triangular(i)) + 600 * i)
  {
    hide Run;
    if i == 0 {
      NoTicks(c);
    } else {
      StaggeredRounds(c, b0, i - 1);
      StaggeredRound(Run(c, 4 * (i - 1)), b0 + LONG_MS * (i - 1));
      RunOn(c, 4 * (i - 1), 4);
      assert b0 * i == b0 * (i - 1) + b0;
    }
  }

  lemma {:induction false} SecondOutageRounds(c: Clock, b0: nat, i: nat)
    requires c.busy == [b0, b0 + 125, b0, b0] && 7_000 <= b0 && b0 + LONG_MS * i <= 8_500
    ensures var b := b0 + LONG_MS * i;
      Run(c, 16 * i) == Clock([b, b + 125, b, b], c.done + 3 * i,
                              c.ends + 3 * (b0 * i + LONG_MS * Triangular(i)) + 125 * i)
  {
    hide Run;
    if i == 0 {
      NoTicks(c);
    } else {
      SecondOutageRounds(c, b0, i - 1);
      SecondOutage(Run(c, 16 * (i - 1)), b0 + LONG_MS * (i - 1));
      RunOn(c, 16 * (i - 1), 16);
      assert b0 * i == b0 * (i - 1) + b0;
    }
  }

  lemma Triangulars()
    ensures Triangular(3) == 6 && Triangular(6) == 21 && Triangular(7) == 28 && Triangular(8) == 36
  {
    assert Triangular(3) == Triangular(2) + 3 && Triangular(2) == 3;
    assert Triangular(6) == Triangular(5) + 6 && Triangular(5) == Triangular(4) + 5 && Triangular(4) == Triangular(3) + 4;
    assert Triangular(7) == Triangular(6) + 7 && Triangular(8) == Triangular(7) + 8;
  }

  /** Up to the end of the first outage. */
  lemma ThroughTheFirstOutage()
    ensures Run(START, 164) == Clock([5_200, 5_000, 5_200, 5_200], 55, 141_700)
  {
    hide Run, Triangular;
    Triangulars();
    HealthyRounds(7);
    var c := Run(START, 28);
    FirstOutageRounds(c, 2_275, 8);
    RunOn(START, 28, 128);
    FirstOutage(Run(START, 156), 4_875, 5);
    RunOn(START, 156, 8);
  }

  /** Up to the beginning of the second. */
  lemma UpToTheSecondOutage()
    ensures Run(START, 189) == Clock([7_150, 7_275, 7_150, 7_150], 80, 299_875)
  {
    hide Run, Triangular, Tick;
    Triangulars();
    ThroughTheFirstOutage();
    StaggeredRounds(Run(START, 164), 5_000, 6);
    RunOn(START, 164, 24);
    var c := Run(START, 188);
    RunOn(START, 188, 1);
    OneTick(c);
    TickOf(c, 1);
  }

  /** Of 240 tasks 91 succeed at once; the other 149 fail, and the pass is over
      before the second outage is. */
  lemma PassIsOver()
    ensures Run(START, PLACEMENT_TASKS) == Clock([8_450, 8_250, 8_450, 8_150], 91, 387_350)
  {
    hide Run, Triangular, Tick;
    Triangulars();
    UpToTheSecondOutage();
    SecondOutageRounds(Run(START, 189), 7_150, 3);
    RunOn(START, 189, 48);
    var c := Run(START, 237);
    var c1, c2 := Run(c, 1), Run(c, 2);
    FourTicks(c);
    TickOf(c, 0);
    assert c1.busy == [8_450, 8_250, 8_125, 8_125];
    TickOf(c1, 2);
    assert c2.busy == [8_450, 8_250, 8_450, 8_125];
    TickOf(c2, 3);
    RunOn(START, 237, 3);
  }
}
