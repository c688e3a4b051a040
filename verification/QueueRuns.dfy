/** Whole runs of the deadline queue. A run is a sequence of pushes, cancellations and pops
    whose states are related by the steps that the queue's methods are proved to take.
    The lemmas show that lazy deletion and compaction are invisible: every run behaves like
    a plain set of live tasks. */
module QueueRuns {
  import opened Basics
  import opened TaskQueues

  datatype Event =
    | Push(task: ScheduledTask, cancelled: bool)
    | Cancel(task: ScheduledTask)
    | PopDue(now: int, due: seq<ScheduledTask>)

  ghost predicate Step(q: QueueState, e: Event, q': QueueState) {
    match e
    case Push(t, c) => PushStep(q, t, c, q')
    case Cancel(t) => CancelStep(q, t, q')
    case PopDue(now, due) => PopDueStep(q, now, due, q')
  }

  ghost predicate CancelledBefore(events: seq<Event>, n: nat, t: ScheduledTask)
    requires n <= |events|
  {
    exists i: nat | i < n :: events[i] == Cancel(t)
  }

  /** Every task is pushed at most once, with its flag up exactly if it was cancelled before. */
  ghost predicate Scheduled(events: seq<Event>) {
    && (forall i: nat, j: nat | i < j < |events| && events[i].Push? && events[j].Push? :: events[i].task != events[j].task)
    && (forall i: nat | i < |events| && events[i].Push? ::
          events[i].cancelled <==> CancelledBefore(events, i, events[i].task))
  }

  /** The events lead from each state to the next. */
  ghost predicate Steps(states: seq<QueueState>, events: seq<Event>) {
    && |states| == |events| + 1
    && (forall i: nat | i < |events| :: Step(states[i], events[i], states[i + 1]))
  }

  ghost predicate Run(states: seq<QueueState>, events: seq<Event>) {
    Steps(states, events) && states[0] == QueueState({}, {})
  }

  lemma OneStepMore(states: seq<QueueState>, events: seq<Event>, e: Event, q: QueueState)
    requires Steps(states, events) && Step(states[|events|], e, q)
    ensures Steps(states + [q], events + [e])
  {
    var more, all := states + [q], events + [e];
    forall i: nat | i < |all|
      ensures Step(more[i], all[i], more[i + 1])
    {
      if i < |events| { assert Step(states[i], events[i], states[i + 1]); }
    }
  }

  /** Cancelling tasks one after the other. */
  lemma {:induction false} CancelEach(states: seq<QueueState>, events: seq<Event>, tasks: seq<ScheduledTask>)
      returns (more: seq<QueueState>)
    requires Steps(states, events)
    ensures Steps(more, events + Cancels(tasks)) && more[..|states|] == states
    ensures var q, gone := states[|events|], Elements(tasks);
            more[|more| - 1] == QueueState(q.live - gone, q.dead + q.live * gone)
  {
    if tasks == [] {
      more := states;
      assert events + Cancels(tasks) == events;
    } else {
      var front, last := tasks[..|tasks| - 1], tasks[|tasks| - 1];
      var before := CancelEach(states, events, front);
      var q := before[|before| - 1];
      var next := if last in q.live then QueueState(q.live - {last}, q.dead + {last}) else q;
      OneStepMore(before, events + Cancels(front), Cancel(last), next);
      more := before + [next];
      assert events + Cancels(front) + [Cancel(last)] == events + Cancels(tasks);
      assert tasks == front + [last];
      assert Elements(tasks) == Elements(front) + {last};
    }
  }

  ghost function Cancels(tasks: seq<ScheduledTask>): (events: seq<Event>)
    ensures |events| == |tasks| && forall i | 0 <= i < |tasks| :: events[i] == Cancel(tasks[i])
  {
    seq(|tasks|, i requires 0 <= i < |tasks| => Cancel(tasks[i]))
  }

  // ---------- the plain queue ----------

  /** A plain set of tasks: no heap, no flags, no compaction. */
  ghost function Plain(events: seq<Event>, n: nat): set<ScheduledTask>
    requires n <= |events|
  {
    if n == 0 then {} else
    var s := Plain(events, n - 1);
    match events[n - 1]
    case Push(t, c) => if c then s else s + {t}
    case Cancel(t) => s - {t}
    case PopDue(now, _) => s - DueOf(s, now)
  }

  /** The queue refines the plain set, and compaction is invisible. */
  lemma {:induction false} RefinesPlainSet(states: seq<QueueState>, events: seq<Event>, n: nat)
    requires Run(states, events) && n <= |events|
    ensures states[n].live == Plain(events, n)
  {
    if n > 0 {
      RefinesPlainSet(states, events, n - 1);
      assert Step(states[n - 1], events[n - 1], states[n]);
    }
  }

  // ---------- when is a task returned ----------

  /** Pushed at `i`, and neither cancelled nor due at any pop before `k`. */
  ghost predicate Waiting(events: seq<Event>, i: nat, k: nat, t: ScheduledTask)
    requires k <= |events|
  {
    && i < k
    && events[i] == Push(t, false)
    && (forall j: nat | i < j < k :: events[j] != Cancel(t) && (events[j].PopDue? ==> t.executeAt > events[j].now))
  }

  lemma {:induction false} PlainIsWaiting(events: seq<Event>, k: nat, t: ScheduledTask)
    requires k <= |events|
    ensures t in Plain(events, k) <==> exists i: nat :: Waiting(events, i, k, t)
  {
    if k > 0 {
      var m := k - 1;
      PlainIsWaiting(events, m, t);
      if i: nat :| Waiting(events, i, m, t) {
        if t in Plain(events, k) { assert Waiting(events, i, k, t); }
      }
      if events[k - 1] == Push(t, false) { assert Waiting(events, k - 1, k, t); }
      if i: nat :| Waiting(events, i, k, t) {
        if i < m { assert Waiting(events, i, m, t); }
      }
    }
  }

  /** A pop returns exactly the tasks waiting for it whose deadline has come: an uncancelled task
      is returned by the first pop at or after its deadline, in order of deadline, and by no other. */
  lemma PopReturnsWaiting(states: seq<QueueState>, events: seq<Event>, k: nat)
    requires Run(states, events) && k < |events| && events[k].PopDue?
    ensures forall t :: t in events[k].due <==>
        t.executeAt <= events[k].now && exists i: nat :: Waiting(events, i, k, t)
    ensures SortedByDeadline(events[k].due) && Distinct(events[k].due)
  {
    RefinesPlainSet(states, events, k);
    assert Step(states[k], events[k], states[k + 1]);
    forall t: ScheduledTask
      ensures t in events[k].due <==> t.executeAt <= events[k].now && exists i: nat :: Waiting(events, i, k, t)
    {
      PlainIsWaiting(events, k, t);
      assert t in events[k].due <==> t in Elements(events[k].due);
    }
  }

  // ---------- conservation ----------

  ghost function Pushed(events: seq<Event>, n: nat): set<ScheduledTask>
    requires n <= |events|
  {
    if n == 0 then {} else Pushed(events, n - 1) + if events[n - 1].Push? then {events[n - 1].task} else {}
  }

  ghost function Returned(events: seq<Event>, n: nat): set<ScheduledTask>
    requires n <= |events|
  {
    if n == 0 then {} else Returned(events, n - 1) + if events[n - 1].PopDue? then Elements(events[n - 1].due) else {}
  }

  lemma {:induction false} PushedEarlier(events: seq<Event>, n: nat, t: ScheduledTask)
    requires n <= |events|
    ensures t in Pushed(events, n) <==> exists i: nat | i < n :: events[i].Push? && events[i].task == t
  {
    if n > 0 {
      PushedEarlier(events, n - 1, t);
      if events[n - 1].Push? && events[n - 1].task == t { assert t in Pushed(events, n); }
    }
  }

  /** Pushed tasks are in the heap, returned, or discarded as cancelled; never two of these. */
  lemma {:induction false} Conservation(states: seq<QueueState>, events: seq<Event>, n: nat)
    requires Run(states, events) && Scheduled(events) && n <= |events|
    ensures states[n].live + states[n].dead + Returned(events, n) <= Pushed(events, n)
    ensures states[n].live !! states[n].dead !! Returned(events, n)
    ensures forall t | t in Pushed(events, n) - states[n].live - Returned(events, n) :: CancelledBefore(events, n, t)
    ensures forall t | t in states[n].live :: !CancelledBefore(events, n, t)
  {
    if n > 0 {
      Conservation(states, events, n - 1);
      var q, e, q' := states[n - 1], events[n - 1], states[n];
      assert Step(q, e, q');
      if e.Push? {
        PushedEarlier(events, n - 1, e.task);
        assert e.task !in Pushed(events, n - 1);
        assert events[n - 1].cancelled <==> CancelledBefore(events, n - 1, e.task);
      }
      forall t: ScheduledTask
        ensures CancelledBefore(events, n, t) <==> CancelledBefore(events, n - 1, t) || e == Cancel(t)
      {
        CancelledLater(events, n, t);
      }
      forall t | t in Pushed(events, n) - q'.live - Returned(events, n)
        ensures CancelledBefore(events, n, t)
      {
        if t in Pushed(events, n - 1) {
          if t !in q.live {
            assert t in Pushed(events, n - 1) - q.live - Returned(events, n - 1);
          }
        }
      }
    }
  }

  lemma CancelledLater(events: seq<Event>, n: nat, t: ScheduledTask)
    requires 0 < n <= |events|
    ensures CancelledBefore(events, n, t) <==> CancelledBefore(events, n - 1, t) || events[n - 1] == Cancel(t)
  {
    if CancelledBefore(events, n - 1, t) {
      var i: nat :| i < n - 1 && events[i] == Cancel(t);
      assert i < n;
    }
  }

  lemma {:induction false} ReturnedEarlier(events: seq<Event>, i: nat, n: nat)
    requires i < n <= |events| && events[i].PopDue?
    ensures Elements(events[i].due) <= Returned(events, n)
  {
    if i < n - 1 {
      ReturnedEarlier(events, i, n - 1);
    }
  }

  /** No task is returned twice. */
  lemma ReturnedOnce(states: seq<QueueState>, events: seq<Event>, i: nat, k: nat)
    requires Run(states, events) && Scheduled(events)
    requires i < k < |events| && events[i].PopDue? && events[k].PopDue?
    ensures Elements(events[i].due) !! Elements(events[k].due)
  {
    ReturnedEarlier(events, i, k);
    Conservation(states, events, k);
    assert Step(states[k], events[k], states[k + 1]);
  }
}
