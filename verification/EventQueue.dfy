/**
 The simulators' queues: a priority queue of task events, earliest first with
 ties by task number, and a first-in-first-out ready queue.
 */
module EventQueue {
  import opened Wrappers

  datatype Event = Event(at: nat, task: nat)

  predicate NoLater(a: Event, b: Event) {
    a.at < b.at || (a.at == b.at && a.task <= b.task)
  }

  ghost predicate IsFirst(queue: set<Event>, e: Event) {
    e in queue && forall x :: x in queue ==> NoLater(e, x)
  }

  /** Nothing in the queue is due by `now`. */
  ghost predicate NothingBy(queue: set<Event>, now: nat) {
    forall e :: e in queue ==> e.at > now
  }

  lemma {:induction false} SomeIsFirst(queue: set<Event>) returns (e: Event)
    requires queue != {}
    ensures IsFirst(queue, e)
  {
    var some :| some in queue;
    var rest := queue - {some};
    e := some;
    if rest != {} {
      var first := SomeIsFirst(rest);
      if !NoLater(some, first) {
        e := first;
      }
    }
    assert forall x :: x in queue ==> x == some || x in rest;
  }

  method First(queue: set<Event>) returns (e: Event)
    requires queue != {}
    ensures IsFirst(queue, e)
    ensures forall x :: x in queue && x != e ==> e.at < x.at || (e.at == x.at && e.task < x.task)
  {
    e :| e in queue;
    var rest := queue - {e};
    while rest != {}
      invariant e in queue && rest <= queue
      invariant forall x :: x in queue ==> x in rest || NoLater(e, x)
      decreases rest
    {
      var x :| x in rest;
      if NoLater(x, e) {
        e := x;
      }
      rest := rest - {x};
    }
  }

  // ------------------------------------------------------------------
  // Queues that hold exactly the tasks in a given phase.
  // ------------------------------------------------------------------

  /** The queue holds one event for each task that `when` gives a time, at that
      time, and nothing else. */
  ghost predicate Scheduled<P>(queue: set<Event>, tasks: seq<P>, when: P -> Option<nat>) {
    && (forall e :: e in queue ==> e.task < |tasks| && when(tasks[e.task]) == Some(e.at))
    && (forall t :: 0 <= t < |tasks| && when(tasks[t]).Some? ==> Event(when(tasks[t]).value, t) in queue)
  }

  lemma ScheduledAfterAdd<P>(queue: set<Event>, tasks: seq<P>, when: P -> Option<nat>, t: nat, p: P)
    requires Scheduled(queue, tasks, when) && t < |tasks| && when(tasks[t]).None? && when(p).Some?
    ensures Scheduled(queue + {Event(when(p).value, t)}, tasks[t := p], when)
    ensures |queue + {Event(when(p).value, t)}| == |queue| + 1
  {
    assert Event(when(p).value, t) !in queue;
  }

  lemma ScheduledAfterRemove<P>(queue: set<Event>, tasks: seq<P>, when: P -> Option<nat>, e: Event, p: P)
    requires Scheduled(queue, tasks, when) && e in queue && when(p).None?
    ensures e.task < |tasks|
    ensures Scheduled(queue - {e}, tasks[e.task := p], when)
    ensures |queue - {e}| == |queue| - 1
  {
    assert forall x :: x in queue && x.task == e.task ==> x == e;
  }

  lemma ScheduledAfterOther<P>(queue: set<Event>, tasks: seq<P>, when: P -> Option<nat>, t: nat, p: P)
    requires Scheduled(queue, tasks, when) && t < |tasks| && when(tasks[t]).None? && when(p).None?
    ensures Scheduled(queue, tasks[t := p], when)
  {
  }

  /** The ready queue holds each ready task exactly once. */
  ghost predicate Queued<P>(ready: seq<nat>, tasks: seq<P>, isReady: P -> bool) {
    && (forall i :: 0 <= i < |ready| ==> ready[i] < |tasks| && isReady(tasks[ready[i]]))
    && (forall i, j :: 0 <= i < j < |ready| ==> ready[i] != ready[j])
    && (forall t :: 0 <= t < |tasks| && isReady(tasks[t]) ==> t in ready)
  }

  lemma QueuedAfterPush<P>(ready: seq<nat>, tasks: seq<P>, isReady: P -> bool, t: nat, p: P)
    requires Queued(ready, tasks, isReady) && t < |tasks| && !isReady(tasks[t]) && isReady(p)
    ensures Queued(ready + [t], tasks[t := p], isReady)
  {
    forall u | 0 <= u < |tasks| && isReady(tasks[t := p][u]) ensures u in ready + [t] {
      if u != t {
        assert u in ready;
      }
    }
  }

  lemma QueuedAfterPop<P>(ready: seq<nat>, tasks: seq<P>, isReady: P -> bool, p: P)
    requires Queued(ready, tasks, isReady) && ready != [] && !isReady(p)
    ensures Queued(ready[1..], tasks[ready[0] := p], isReady)
  {
    var t := ready[0];
    forall u | 0 <= u < |tasks| && isReady(tasks[t := p][u]) ensures u in ready[1..] {
      assert u in ready && u != t;
    }
  }

  lemma QueuedAfterOther<P>(ready: seq<nat>, tasks: seq<P>, isReady: P -> bool, t: nat, p: P)
    requires Queued(ready, tasks, isReady) && t < |tasks| && !isReady(tasks[t]) && !isReady(p)
    ensures Queued(ready, tasks[t := p], isReady)
  {
  }
}
