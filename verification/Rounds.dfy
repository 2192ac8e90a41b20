/**
 Rounds of equal length: tasks that end at most so many to a round must, taken
 together, wait.
 */
module Rounds {
  import opened Tallies
  import opened Tasks

  function OneIfEarly(cut: nat): Phase -> nat {
    (p: Phase) => if (p.Running? && p.until < cut) || (p.Completed? && p.at < cut) then 1 else 0
  }

  /** How many tasks end before round `j` is over; rounds count from zero. */
  function Early(tasks: seq<Phase>, latency: nat, j: nat): nat {
    Sum(tasks, OneIfEarly((j + 1) * latency))
  }

  /** What the rounds say of the end times, for any number of rounds. */
  lemma {:induction false} RoundsAddUp(tasks: seq<Phase>, latency: nat, rounds: nat, slots: nat)
    requires forall t :: 0 <= t < |tasks| ==> tasks[t].Completed?
    requires forall j :: 0 <= j < rounds ==> Early(tasks, latency, j) <= slots * j
    ensures Sum(tasks, CappedRounds(latency, rounds)) + Triangle(rounds, slots) >= rounds * |tasks|
  {
    hide Sum;
    if rounds == 0 {
    } else {
      RoundsAddUp(tasks, latency, rounds - 1, slots);
      OneRoundMore(tasks, latency, rounds - 1);
    }
  }

  /** The number of whole rounds, at most so many, before the task ends. */
  function CappedRounds(latency: nat, rounds: nat): Phase -> nat {
    (p: Phase) => RoundsBefore(EndAt(p), latency, rounds)
  }

  function RoundsBefore(at: nat, latency: nat, rounds: nat): (n: nat)
    ensures n <= rounds && n * latency <= at
  {
    if rounds == 0 then 0
    else
      var n := RoundsBefore(at, latency, rounds - 1);
      RoundsGrow(n + 1, latency, rounds);
      if at < rounds * latency then n else n + 1
  }

  lemma RoundsGrow(n: nat, latency: nat, rounds: nat)
    requires n <= rounds
    ensures n * latency <= rounds * latency
  {
  }

  /** So many tasks more in each round than in the one before. */
  function Triangle(rounds: nat, slots: nat): nat {
    if rounds == 0 then 0 else Triangle(rounds - 1, slots) + slots * (rounds - 1)
  }

  lemma {:induction false} OneRoundMore(tasks: seq<Phase>, latency: nat, j: nat)
    requires forall t :: 0 <= t < |tasks| ==> tasks[t].Completed?
    ensures Sum(tasks, CappedRounds(latency, j + 1)) + Early(tasks, latency, j)
         == Sum(tasks, CappedRounds(latency, j)) + |tasks|
  {
    if tasks != [] {
      OneRoundMore(tasks[..|tasks| - 1], latency, j);
    }
  }

  lemma {:induction false} RoundsTakeTime(tasks: seq<Phase>, latency: nat, rounds: nat)
    ensures Sum(tasks, CappedRounds(latency, rounds)) * latency <= Sum(tasks, EndAt)
  {
    hide RoundsBefore;
    if tasks != [] {
      var init, p := tasks[..|tasks| - 1], tasks[|tasks| - 1];
      RoundsTakeTime(init, latency, rounds);
      Distributes(Sum(init, CappedRounds(latency, rounds)), RoundsBefore(EndAt(p), latency, rounds), latency);
    }
  }

  lemma Distributes(a: nat, b: nat, x: nat)
    ensures (a + b) * x == a * x + b * x
  {
  }

  /** A lower bound on the total, for any number of rounds one cares to count. */
  lemma TotalByRounds(tasks: seq<Phase>, latency: nat, rounds: nat, slots: nat)
    requires forall t :: 0 <= t < |tasks| ==> tasks[t].Completed?
    requires forall j :: 0 <= j < rounds ==> Early(tasks, latency, j) <= slots * j
    ensures Sum(tasks, EndAt) >= latency * (rounds * |tasks| - Triangle(rounds, slots))
  {
    hide Sum, Early, Triangle;
    RoundsAddUp(tasks, latency, rounds, slots);
    RoundsTakeTime(tasks, latency, rounds);
    ScaledUp(latency, rounds * |tasks| - Triangle(rounds, slots), Sum(tasks, CappedRounds(latency, rounds)));
  }

  lemma ScaledUp(n: nat, x: int, y: int)
    requires x <= y
    ensures n * x <= n * y
  {
  }

  lemma {:induction false} TriangleIs(rounds: nat, slots: nat)
    ensures 2 * Triangle(rounds, slots) + slots * rounds == slots * (rounds * rounds)
  {
    if rounds > 0 {
      TriangleIs(rounds - 1, slots);
      Squared(slots, rounds - 1);
    }
  }

  lemma Squared(slots: nat, n: nat)
    ensures slots * (n + 1) == slots * n + slots
    ensures slots * ((n + 1) * (n + 1)) == slots * (n * n) + 2 * (slots * n) + slots
  {
    var square := n * n;
    assert (n + 1) * (n + 1) == square + 2 * n + 1;
    assert slots * (square + 2 * n + 1) == slots * square + slots * (2 * n) + slots;
  }
}
