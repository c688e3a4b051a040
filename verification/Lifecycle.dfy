/** Tasks and sessions: scheduling, cancelling, popping, finishing a task and closing a session, each as
    one atomic step. No pop after a session has closed returns a task that involves it. */
module Lifecycle {
  import opened Basics
  import opened TaskQueues
  import QueueRuns

  class TaskManager {
    const id: nat
    const queue: TaskQueue
    ghost var tasks: set<ScheduledTask>    // every task ever scheduled
    ghost const sessions: set<Session>     // every session that takes part

    constructor (id: nat, ghost sessions: set<Session>)
      requires id > 0
      requires forall s | s in sessions :: s.pendingTasks == []
      ensures Valid() && this.id == id && this.sessions == sessions && tasks == {} && queue.heap == []
      ensures fresh(queue)
    {
      this.id := id;
      queue := new TaskQueue();
      tasks := {};
      this.sessions := sessions;
    }

    /** A task that may still run involves open sessions only, and each of them knows the task. */
    ghost predicate Tracked(t: ScheduledTask)
      reads t, t.sessions
    {
      !t.cancelled ==> forall s | s in t.sessions :: !s.closed && t in s.pendingTasks
    }

    ghost predicate Valid()
      reads this, queue, tasks, sessions
    {
      && (forall t | t in queue.heap :: t in tasks)
      && (forall t, s | t in tasks && s in t.sessions :: s in sessions)
      && (forall s, t | s in sessions && t in s.pendingTasks :: t in tasks)
      && queue.Valid()
      && (forall t | t in queue.heap :: Tracked(t))
    }

    /** A schedule that is refused changes nothing. */
    twostate predicate Unscheduled()
      reads this, queue, sessions
    {
      queue.heap == old(queue.heap) && tasks == old(tasks) && forall s | s in sessions :: s.pendingTasks == old(s.pendingTasks)
    }

    /** A schedule that succeeds: the queue has the new task besides all live ones, and the sessions involved have it
        at the end of their lists. */
    twostate predicate Scheduled(new task: ScheduledTask, involved: seq<Session>, at: int, stage: nat)
      reads this, queue, queue.heap, sessions, task
    {
      && fresh(task) && task.executeAt == at && task.stage == stage && task.sessions == involved && !task.cancelled
      && task in queue.heap && (forall t | t in queue.heap :: t in old(queue.heap) || t == task)
      && Queued(old(queue.Abs()), queue.Abs(), task)
      && tasks == old(tasks) + {task}
      && forall s | s in sessions :: s.pendingTasks == old(s.pendingTasks) + Copies(task, multiset(involved)[s])
    }

    /** addTask on every session involved. */
    method AddToSessions(involved: seq<Session>, task: ScheduledTask)
      requires forall s | s in involved :: s in sessions
      modifies sessions`pendingTasks
      ensures forall s | s in sessions :: s.pendingTasks == old(s.pendingTasks) + Copies(task, multiset(involved)[s])
    {
      for i := 0 to |involved|
        invariant forall s | s in sessions ::
                    s.pendingTasks == old(s.pendingTasks) + Copies(task, multiset(involved[..i])[s])
      {
        var s := involved[i];
        s.pendingTasks := s.pendingTasks + [task];
        assert involved[..i + 1] == involved[..i] + [s];
      }
      assert involved[..|involved|] == involved;
    }

    /** The common part of Schedule, Schedule2, ScheduleAt and ScheduleGlobal. */
    method Enqueue(involved: seq<Session>, at: int, stage: nat) returns (task: ScheduledTask)
      requires Valid() && forall s | s in involved :: s in sessions && !s.closed
      modifies this`tasks, queue, tasks`index, sessions`pendingTasks
      ensures Valid() && fresh(task) && tasks == old(tasks) + {task}
      ensures task.executeAt == at && task.stage == stage && task.sessions == involved && !task.cancelled
      ensures Queued(old(queue.Abs()), queue.Abs(), task)
      ensures task in queue.heap && forall t | t in queue.heap :: t in old(queue.heap) || t == task
      ensures forall s | s in sessions ::
                s.pendingTasks == old(s.pendingTasks) + Copies(task, multiset(involved)[s])
    {
      task := new ScheduledTask(at, stage, involved);
      AddTracked(involved, task);
      Enlist(task);
    }

    /** Pushes a task that its sessions know already. */
    method Enlist(task: ScheduledTask)
      requires queue.Valid() && !task.cancelled && task !in tasks && Tracked(task)
      requires forall t | t in queue.heap :: t in tasks && Tracked(t)
      requires forall t, s | t in tasks && s in t.sessions :: s in sessions
      requires forall s | s in task.sessions :: s in sessions
      requires forall s, t | s in sessions && t in s.pendingTasks :: t in tasks || t == task
      modifies this`tasks, queue, tasks`index, task`index
      ensures Valid() && tasks == old(tasks) + {task}
      ensures Queued(old(queue.Abs()), queue.Abs(), task)
      ensures task in queue.heap && forall t | t in queue.heap :: t in old(queue.heap) || t == task
    {
      PushTracked(task);
      tasks := tasks + {task};
    }

    /** Adding a task to sessions makes it tracked and leaves every other task as it was. */
    method AddTracked(involved: seq<Session>, task: ScheduledTask)
      requires Valid() && task !in tasks && task.sessions == involved
      requires forall s | s in involved :: s in sessions && !s.closed
      modifies sessions`pendingTasks
      ensures forall t | t in queue.heap :: Tracked(t)
      ensures Tracked(task)
      ensures forall s | s in sessions :: s.pendingTasks == old(s.pendingTasks) + Copies(task, multiset(involved)[s])
      ensures forall s, t | s in sessions && t in s.pendingTasks :: t in tasks || t == task
    {
      AddToSessions(involved, task);
      forall s, t | s in sessions
        ensures t in s.pendingTasks <==> t in old(s.pendingTasks) || (t == task && s in involved)
      {
        assert s in involved <==> multiset(involved)[s] > 0;
      }
      forall t | t in queue.heap
        ensures Tracked(t)
      {
        assert old(Tracked(t));
      }
    }

    /** Pushing a tracked task keeps every task in the heap tracked. */
    method PushTracked(task: ScheduledTask)
      requires queue.Valid() && task !in queue.heap && !task.cancelled && Tracked(task)
      requires forall t | t in queue.heap :: Tracked(t)
      modifies queue, Elements(queue.heap)`index, task`index
      ensures queue.Valid() && task in queue.heap && Queued(old(queue.Abs()), queue.Abs(), task)
      ensures forall t | t in queue.heap :: Tracked(t) && (t in old(queue.heap) || t == task)
    {
      ghost var before := queue.Abs();
      queue.Push(task);
      assert task in queue.Abs().live;
      forall t | t in queue.heap
        ensures t in before.live || t in before.dead || t == task
      {
        assert t in queue.Abs().live || t in queue.Abs().dead;
      }
    }

    /** Schedule and ScheduleAt, on the session's manager: refuses a missing or closed session, one without a manager,
        and a task type that is not registered and whose analysis fails. */
    method Schedule(s: Session?, analysed: bool, at: int, stage: nat) returns (task: ScheduledTask?)
      requires Valid() && (s != null ==> s in sessions && (s.manager == 0 || s.manager == id))
      modifies this`tasks, queue, tasks`index, sessions`pendingTasks
      ensures Valid()
      ensures task == null <==> s == null || s.closed || s.manager == 0 || !analysed
      ensures if task == null then Unscheduled() else Scheduled(task, [s], at, stage)
    {
      if s == null || s.closed || s.manager == 0 {
        return null;
      }
      if !analysed {
        return null;
      }
      task := Enqueue([s], at, stage);
    }

    /** Schedule2, on the first session's manager: also refuses unless both sessions are there, open, and have one
        manager. */
    method Schedule2(s1: Session?, s2: Session?, analysed: bool, at: int, stage: nat) returns (task: ScheduledTask?)
      requires Valid() && (s1 != null ==> s1 in sessions && (s1.manager == 0 || s1.manager == id))
      requires s2 != null ==> s2 in sessions
      modifies this`tasks, queue, tasks`index, sessions`pendingTasks
      ensures Valid()
      ensures task == null <==> s1 == null || s2 == null || s1.closed || s2.closed || s1.manager == 0
                                || s1.manager != s2.manager || !analysed
      ensures if task == null then Unscheduled() else Scheduled(task, [s1, s2], at, stage)
    {
      if s1 == null || s2 == null || s1.closed || s2.closed || s1.manager == 0 {
        return null;
      }
      if s1.manager != s2.manager {
        return null;
      }
      if !analysed {
        return null;
      }
      task := Enqueue([s1, s2], at, stage);
    }

    /** ScheduleGlobal: a task without sessions. */
    method ScheduleGlobal(analysed: bool, at: int, stage: nat) returns (task: ScheduledTask?)
      requires Valid()
      modifies this`tasks, queue, tasks`index, sessions`pendingTasks
      ensures Valid() && (task == null <==> !analysed)
      ensures if task == null then Unscheduled() else Scheduled(task, [], at, stage)
    {
      if !analysed {
        return null;
      }
      task := Enqueue([], at, stage);
    }

    /** TaskHandle.Cancel; a nil handle does nothing. */
    method Cancel(task: ScheduledTask?)
      requires Valid() && (task != null ==> task in tasks)
      modifies (if task != null then {task} else {})`cancelled
      ensures Valid() && (task != null ==> task.cancelled)
    {
      if task != null {
        task.Cancel();
      }
    }

    /** What is returned involves open sessions only. */
    method PopDue(now: int) returns (due: seq<ScheduledTask>)
      requires Valid()
      modifies queue, tasks`index
      ensures Valid()
      ensures PopDueStep(old(queue.Abs()), now, due, queue.Abs())
      ensures forall t | t in due :: t in tasks && t !in queue.heap && t.executeAt <= now
      ensures forall t | t in queue.heap :: t in old(queue.heap)
      ensures forall t, s | t in due && s in t.sessions :: !s.closed
    {
      ghost var before := queue.Abs();
      assert forall t | t in queue.heap :: Tracked(t);
      due := queue.PopDue(now);
      forall t | t in queue.heap
        ensures t in before.live || t in before.dead
        ensures t.executeAt > now
      {
        assert t in queue.Abs().live || t in queue.Abs().dead;
      }
      forall t | t in due
        ensures t in before.live && t.executeAt <= now
      {
        assert t in Elements(due);
      }
    }

    /** removeTask: drops the first occurrence of a task from a session's list. */
    method RemoveTask(s: Session, task: ScheduledTask)
      requires Valid() && s in sessions && task !in queue.heap
      modifies s`pendingTasks
      ensures Valid()
      ensures s.pendingTasks == RemoveFirst(old(s.pendingTasks), task)
    {
      var i := 0;
      while i < |s.pendingTasks|
        invariant i <= |s.pendingTasks| && s.pendingTasks == old(s.pendingTasks)
        invariant task !in s.pendingTasks[..i]
      {
        if s.pendingTasks[i] == task {
          ghost var p := s.pendingTasks;
          s.pendingTasks := s.pendingTasks[..i] + s.pendingTasks[i + 1..];
          CutKeepsOthers(p, i);
          CutIsRemoveFirst(p, task, i);
          return;
        }
        i := i + 1;
      }
      assert old(s.pendingTasks)[..i] == old(s.pendingTasks);
      RemoveAbsent(s.pendingTasks, task);
    }

    /** The end of executeTask: each session forgets the task once for every time it is involved in it. */
    method FinishTask(task: ScheduledTask)
      requires Valid() && task in tasks && task !in queue.heap
      modifies task.sessions`pendingTasks
      ensures Valid()
      ensures forall s | s in task.sessions :: s.pendingTasks == RemoveTimes(old(s.pendingTasks), task, multiset(task.sessions)[s])
    {
      for i := 0 to |task.sessions|
        invariant Valid() && task !in queue.heap
        invariant forall s | s in task.sessions ::
                    s.pendingTasks == RemoveTimes(old(s.pendingTasks), task, multiset(task.sessions[..i])[s])
      {
        assert task.sessions[..i + 1] == task.sessions[..i] + [task.sessions[i]];
        RemoveTask(task.sessions[i], task);
      }
      assert task.sessions[..|task.sessions|] == task.sessions;
    }

    /** Closing a session, as far as tasks are concerned: its pending tasks are cancelled. */
    method CloseSession(s: Session)
      requires Valid() && s in sessions
      modifies s`closed, s`pendingTasks, s.pendingTasks`cancelled
      ensures Valid() && s.closed
      ensures old(s.closed) ==> s.pendingTasks == old(s.pendingTasks)
      ensures !old(s.closed) ==> s.pendingTasks == [] && forall t | t in old(s.pendingTasks) :: t.cancelled
      ensures forall t | t in queue.heap && s in t.sessions :: t.cancelled
      ensures var q, gone := old(queue.Abs()), if old(s.closed) then {} else Elements(old(s.pendingTasks));
              queue.Abs() == QueueState(q.live - gone, q.dead + q.live * gone)
    {
      if s.closed {
        return;
      }
      s.closed := true;
      var pending := s.pendingTasks;
      s.pendingTasks := [];
      for i := 0 to |pending|
        invariant s.closed && s.pendingTasks == []
        invariant forall t | t in pending[..i] :: t.cancelled
        invariant forall t | t in tasks :: old(t.cancelled) ==> t.cancelled
      {
        pending[i].cancelled := true;
        assert pending[..i + 1] == pending[..i] + [pending[i]];
      }
      assert pending[..|pending|] == pending;
      forall t | t in queue.heap
        ensures Tracked(t) && (s in t.sessions ==> t.cancelled)
      {
        assert old(Tracked(t));
      }
    }
  }

  /** The live tasks gain the new one; only cancelled tasks may go. */
  ghost predicate Queued(before: QueueState, after: QueueState, task: ScheduledTask) {
    after.live == before.live + {task} && (after.dead == before.dead || after.dead == {})
  }

  function Copies<T>(x: T, n: nat): (s: seq<T>)
    ensures |s| == n && (forall y | y in s :: y == x) && (x in s <==> n > 0)
  {
    var s := seq(n, i => x);
    assert n > 0 ==> s[0] == x;
    s
  }

  function RemoveTimes<T(==)>(p: seq<T>, x: T, n: nat): seq<T> {
    if n == 0 then p else RemoveFirst(RemoveTimes(p, x, n - 1), x)
  }

  /** So many occurrences go, as far as there are any, and nothing else. */
  lemma {:induction false} RemoveTimesCounts<T(!new)>(p: seq<T>, x: T, n: nat)
    ensures forall y :: multiset(RemoveTimes(p, x, n))[y] ==
              if y != x then multiset(p)[y] else if multiset(p)[x] < n then 0 else multiset(p)[x] - n
  {
    if n > 0 {
      RemoveTimesCounts(p, x, n - 1);
      RemoveFirstCounts(RemoveTimes(p, x, n - 1), x);
    }
  }

  lemma CutKeepsOthers<T>(p: seq<T>, i: nat)
    requires i < |p|
    ensures forall t | t != p[i] :: t in p[..i] + p[i + 1..] <==> t in p
  {
    forall t | t != p[i] && t in p
      ensures t in p[..i] + p[i + 1..]
    {
      var k :| 0 <= k < |p| && p[k] == t;
      assert (p[..i] + p[i + 1..])[if k < i then k else k - 1] == t;
    }
  }

  // ---------- whole runs ----------

  /** Cancel and Finish name a task by its number among the tasks created, or returned, so far. */
  datatype Command =
    | Schedule(s: Session?, analysed: bool, at: int, stage: nat)
    | Schedule2(s1: Session?, s2: Session?, analysed: bool, at: int, stage: nat)
    | ScheduleGlobal(analysed: bool, at: int, stage: nat)
    | Cancel(k: nat)
    | PopDue(now: int)
    | Finish(k: nat)
    | Close(session: Session)

  /** The sessions take part, and schedules go to the session's own manager. */
  ghost predicate Knows(sessions: set<Session>, id: nat, c: Command) {
    match c
    case Schedule(s, _, _, _) => s == null || (s in sessions && (s.manager == 0 || s.manager == id))
    case Schedule2(s1, s2, _, _, _) =>
      && (s1 == null || (s1 in sessions && (s1.manager == 0 || s1.manager == id))) && (s2 == null || s2 in sessions)
    case Close(s) => s in sessions
    case _ => true
  }

  /** What a schedule asks for. */
  ghost predicate AskedFor(c: Command, t: ScheduledTask) {
    match c
    case Schedule(s, _, at, stage) => s != null && t.sessions == [s] && t.executeAt == at && t.stage == stage
    case Schedule2(s1, s2, _, at, stage) =>
      s1 != null && s2 != null && t.sessions == [s1, s2] && t.executeAt == at && t.stage == stage
    case ScheduleGlobal(_, at, stage) => t.sessions == [] && t.executeAt == at && t.stage == stage
    case _ => false
  }

  /** A schedule is refused when a session is missing, closed or of no or another manager, or analysis fails. */
  ghost predicate Refused(c: Command, closed: set<Session>) {
    match c
    case Schedule(s, analysed, _, _) => s == null || s in closed || s.manager == 0 || !analysed
    case Schedule2(s1, s2, analysed, _, _) =>
      s1 == null || s2 == null || s1 in closed || s2 in closed || s1.manager == 0 || s1.manager != s2.manager || !analysed
    case ScheduleGlobal(analysed, _, _) => !analysed
    case _ => true
  }

  /** What a command does to the queue: `made` are the tasks created before, `closed` the sessions closed before. */
  ghost predicate Answers(c: Command, events: seq<QueueRuns.Event>, made: seq<ScheduledTask>, closed: set<Session>) {
    match c
    case Cancel(k) => events == if k < |made| then [QueueRuns.Cancel(made[k])] else []
    case PopDue(now) =>
      && |events| == 1 && events[0].PopDue? && events[0].now == now
      && forall t, s | t in events[0].due && s in t.sessions :: s !in closed
    case Finish(_) => events == []
    case Close(s) => (s in closed ==> events == []) && forall e | e in events :: e.Cancel?
    case _ =>
      if Refused(c, closed) then events == []
      else |events| == 1 && events[0].Push? && !events[0].cancelled && AskedFor(c, events[0].task)
  }

  ghost function MadeBy(events: seq<QueueRuns.Event>): seq<ScheduledTask> {
    if events == [] then [] else
    var e := events[|events| - 1];
    MadeBy(events[..|events| - 1]) + if e.Push? then [e.task] else []
  }

  ghost function ReturnedBy(events: seq<QueueRuns.Event>): seq<ScheduledTask> {
    if events == [] then [] else
    var e := events[|events| - 1];
    ReturnedBy(events[..|events| - 1]) + if e.PopDue? then e.due else []
  }

  lemma {:induction false} MadeAndReturned(a: seq<QueueRuns.Event>, b: seq<QueueRuns.Event>)
    ensures MadeBy(a + b) == MadeBy(a) + MadeBy(b) && ReturnedBy(a + b) == ReturnedBy(a) + ReturnedBy(b)
  {
    if b == [] {
      assert a + b == a;
    } else {
      assert (a + b)[..|a + b| - 1] == a + b[..|b| - 1];
      MadeAndReturned(a, b[..|b| - 1]);
    }
  }

  lemma {:induction false} OnlyCancels(events: seq<QueueRuns.Event>)
    requires forall e | e in events :: e.Cancel?
    ensures MadeBy(events) == [] && ReturnedBy(events) == []
  {
    if events != [] {
      assert events[|events| - 1] in events;
      assert forall e | e in events[..|events| - 1] :: e in events;
      OnlyCancels(events[..|events| - 1]);
    }
  }

  ghost function Log(entries: seq<seq<QueueRuns.Event>>): seq<QueueRuns.Event> {
    if entries == [] then [] else Log(entries[..|entries| - 1]) + entries[|entries| - 1]
  }

  ghost function ClosedSessions(m: TaskManager): set<Session>
    reads m.sessions
  {
    set s | s in m.sessions && s.closed
  }

  /** The sessions closed by the first `n` commands or before. */
  ghost function ClosedBy(initially: set<Session>, script: seq<Command>, n: nat): set<Session>
    requires n <= |script|
  {
    if n == 0 then initially
    else ClosedBy(initially, script, n - 1) + if script[n - 1].Close? then {script[n - 1].session} else {}
  }

  /** One schedule. */
  method Ask(m: TaskManager, c: Command) returns (task: ScheduledTask?, ghost entry: seq<QueueRuns.Event>)
    requires m.Valid() && Knows(m.sessions, m.id, c) && (c.Schedule? || c.Schedule2? || c.ScheduleGlobal?)
    modifies m`tasks, m.queue, m.tasks`index, m.sessions`pendingTasks
    ensures m.Valid() && fresh(m.tasks - old(m.tasks)) && m.tasks == old(m.tasks) + if task == null then {} else {task}
    ensures forall t | t in m.queue.heap :: t in old(m.queue.heap) || t == task
    ensures Answers(c, entry, [], old(ClosedSessions(m)))
    ensures task != null ==> fresh(task)
    ensures MadeBy(entry) == (if task == null then [] else [task]) && ReturnedBy(entry) == []
    ensures if task == null then entry == [] && m.queue.Abs() == old(m.queue.Abs())
            else entry == [QueueRuns.Push(task, false)] && QueueRuns.Step(old(m.queue.Abs()), entry[0], m.queue.Abs())
  {
    match c {
      case Schedule(s, analysed, at, stage) => task := m.Schedule(s, analysed, at, stage);
      case Schedule2(s1, s2, analysed, at, stage) => task := m.Schedule2(s1, s2, analysed, at, stage);
      case ScheduleGlobal(analysed, at, stage) => task := m.ScheduleGlobal(analysed, at, stage);
    }
    entry := if task == null then [] else [QueueRuns.Push(task, false)];
    assert task != null ==> entry[..0] == [];
  }

  /** The states and events so far lead to where the queue is. */
  ghost predicate Trace(m: TaskManager, states: seq<QueueState>, events: seq<QueueRuns.Event>)
    reads m.queue, m.queue.heap
  {
    QueueRuns.Steps(states, events) && states[|events|] == m.queue.Abs()
  }

  method AskTraced(m: TaskManager, c: Command, ghost made: seq<ScheduledTask>,
                   ghost states: seq<QueueState>, ghost events: seq<QueueRuns.Event>)
      returns (ghost entry: seq<QueueRuns.Event>, created: seq<ScheduledTask>, ghost after: seq<QueueState>)
    requires m.Valid() && Knows(m.sessions, m.id, c) && (c.Schedule? || c.Schedule2? || c.ScheduleGlobal?)
    requires Trace(m, states, events)
    modifies m, m.queue, m.tasks, m.sessions
    ensures m.Valid() && old(m.tasks) <= m.tasks && fresh(m.tasks - old(m.tasks))
    ensures forall t | t in m.queue.heap :: t in old(m.queue.heap) || t !in old(m.tasks)
    ensures ClosedSessions(m) == old(ClosedSessions(m))
    ensures Answers(c, entry, made, old(ClosedSessions(m)))
    ensures Trace(m, after, events + entry) && after[0] == states[0]
    ensures created == MadeBy(entry) && ReturnedBy(entry) == [] && forall t | t in created :: t in m.tasks
  {
    var task;
    task, entry := Ask(m, c);
    created := if task == null then [] else [task];
    if task == null {
      after := states;
      assert events + entry == events;
    } else {
      QueueRuns.OneStepMore(states, events, entry[0], m.queue.Abs());
      after := states + [m.queue.Abs()];
    }
  }

  method CancelTraced(m: TaskManager, c: Command, made: seq<ScheduledTask>,
                      ghost states: seq<QueueState>, ghost events: seq<QueueRuns.Event>)
      returns (ghost entry: seq<QueueRuns.Event>, ghost after: seq<QueueState>)
    requires m.Valid() && Knows(m.sessions, m.id, c) && c.Cancel?
    requires Trace(m, states, events) && forall t | t in made :: t in m.tasks
    modifies m, m.queue, m.tasks, m.sessions
    ensures m.Valid() && old(m.tasks) <= m.tasks && fresh(m.tasks - old(m.tasks))
    ensures forall t | t in m.queue.heap :: t in old(m.queue.heap) || t !in old(m.tasks)
    ensures ClosedSessions(m) == old(ClosedSessions(m))
    ensures Answers(c, entry, made, old(ClosedSessions(m)))
    ensures Trace(m, after, events + entry) && after[0] == states[0]
    ensures MadeBy(entry) == [] && ReturnedBy(entry) == [] && m.tasks == old(m.tasks)
  {
    if c.k < |made| {
      m.Cancel(made[c.k]);
      entry := [QueueRuns.Cancel(made[c.k])];
      QueueRuns.OneStepMore(states, events, entry[0], m.queue.Abs());
      after := states + [m.queue.Abs()];
      OnlyCancels(entry);
    } else {
      m.Cancel(null);
      entry, after := [], states;
      assert events + entry == events;
    }
  }

  method PopTraced(m: TaskManager, c: Command, ghost made: seq<ScheduledTask>,
                   ghost states: seq<QueueState>, ghost events: seq<QueueRuns.Event>)
      returns (ghost entry: seq<QueueRuns.Event>, due: seq<ScheduledTask>, ghost after: seq<QueueState>)
    requires m.Valid() && Knows(m.sessions, m.id, c) && c.PopDue?
    requires Trace(m, states, events)
    modifies m, m.queue, m.tasks, m.sessions
    ensures m.Valid() && old(m.tasks) <= m.tasks && fresh(m.tasks - old(m.tasks))
    ensures forall t | t in m.queue.heap :: t in old(m.queue.heap) || t !in old(m.tasks)
    ensures ClosedSessions(m) == old(ClosedSessions(m))
    ensures Answers(c, entry, made, old(ClosedSessions(m)))
    ensures Trace(m, after, events + entry) && after[0] == states[0]
    ensures MadeBy(entry) == [] && due == ReturnedBy(entry) && m.tasks == old(m.tasks)
    ensures forall t | t in due :: t in m.tasks && t !in m.queue.heap
  {
    due := m.PopDue(c.now);
    entry := [QueueRuns.PopDue(c.now, due)];
    assert entry[..0] == [];
    QueueRuns.OneStepMore(states, events, entry[0], m.queue.Abs());
    after := states + [m.queue.Abs()];
  }

  method CloseTraced(m: TaskManager, c: Command, ghost made: seq<ScheduledTask>,
                     ghost states: seq<QueueState>, ghost events: seq<QueueRuns.Event>)
      returns (ghost entry: seq<QueueRuns.Event>, ghost after: seq<QueueState>)
    requires m.Valid() && Knows(m.sessions, m.id, c) && c.Close?
    requires Trace(m, states, events)
    modifies m, m.queue, m.tasks, m.sessions
    ensures m.Valid() && old(m.tasks) <= m.tasks && fresh(m.tasks - old(m.tasks))
    ensures forall t | t in m.queue.heap :: t in old(m.queue.heap) || t !in old(m.tasks)
    ensures ClosedSessions(m) == old(ClosedSessions(m)) + {c.session}
    ensures Answers(c, entry, made, old(ClosedSessions(m)))
    ensures Trace(m, after, events + entry) && after[0] == states[0]
    ensures MadeBy(entry) == [] && ReturnedBy(entry) == [] && m.tasks == old(m.tasks)
  {
    ghost var cancelled := if c.session.closed then [] else c.session.pendingTasks;
    m.CloseSession(c.session);
    entry := QueueRuns.Cancels(cancelled);
    after := QueueRuns.CancelEach(states, events, cancelled);
    OnlyCancels(entry);
  }

  method FinishTraced(m: TaskManager, c: Command, ghost made: seq<ScheduledTask>, returned: seq<ScheduledTask>,
                      ghost states: seq<QueueState>, ghost events: seq<QueueRuns.Event>)
      returns (ghost entry: seq<QueueRuns.Event>, ghost after: seq<QueueState>)
    requires m.Valid() && Knows(m.sessions, m.id, c) && c.Finish?
    requires Trace(m, states, events) && forall t | t in returned :: t in m.tasks && t !in m.queue.heap
    modifies m, m.queue, m.tasks, m.sessions
    ensures m.Valid() && old(m.tasks) <= m.tasks && fresh(m.tasks - old(m.tasks))
    ensures forall t | t in m.queue.heap :: t in old(m.queue.heap) || t !in old(m.tasks)
    ensures ClosedSessions(m) == old(ClosedSessions(m))
    ensures Answers(c, entry, made, old(ClosedSessions(m)))
    ensures Trace(m, after, events + entry) && after[0] == states[0]
    ensures MadeBy(entry) == [] && ReturnedBy(entry) == [] && m.tasks == old(m.tasks)
  {
    if c.k < |returned| {
      m.FinishTask(returned[c.k]);
    }
    entry, after := [], states;
    assert events + entry == events;
  }

  /** One command, and the events of the queue it stands for. */
  method Perform(m: TaskManager, c: Command, made: seq<ScheduledTask>, returned: seq<ScheduledTask>,
                 ghost states: seq<QueueState>, ghost events: seq<QueueRuns.Event>)
      returns (ghost entry: seq<QueueRuns.Event>, created: seq<ScheduledTask>, due: seq<ScheduledTask>, ghost after: seq<QueueState>)
    requires m.Valid() && Knows(m.sessions, m.id, c) && forall t | t in made || t in returned :: t in m.tasks
    requires Trace(m, states, events) && forall t | t in returned :: t !in m.queue.heap
    modifies m, m.queue, m.tasks, m.sessions
    ensures m.Valid() && old(m.tasks) <= m.tasks && fresh(m.tasks - old(m.tasks))
    ensures forall t | t in m.queue.heap :: t in old(m.queue.heap) || t !in old(m.tasks)
    ensures ClosedSessions(m) == old(ClosedSessions(m)) + if c.Close? then {c.session} else {}
    ensures Answers(c, entry, made, old(ClosedSessions(m)))
    ensures Trace(m, after, events + entry) && after[0] == states[0]
    ensures created == MadeBy(entry) && due == ReturnedBy(entry)
    ensures forall t | t in created || t in due :: t in m.tasks
    ensures forall t | t in due :: t !in m.queue.heap
  {
    created, due := [], [];
    match c
    case Cancel(_) => entry, after := CancelTraced(m, c, made, states, events);
    case PopDue(_) => entry, due, after := PopTraced(m, c, made, states, events);
    case Finish(_) => entry, after := FinishTraced(m, c, made, returned, states, events);
    case Close(_) => entry, after := CloseTraced(m, c, made, states, events);
    case _ => entry, created, after := AskTraced(m, c, made, states, events);
  }

  ghost predicate Answered(script: seq<Command>, log: seq<seq<QueueRuns.Event>>, closed: set<Session>) {
    |log| <= |script| && forall i | 0 <= i < |log| :: Answers(script[i], log[i], MadeBy(Log(log[..i])), ClosedBy(closed, script, i))
  }

  lemma OneMoreAnswer(script: seq<Command>, log: seq<seq<QueueRuns.Event>>, entry: seq<QueueRuns.Event>, closed: set<Session>)
    requires Answered(script, log, closed) && |log| < |script|
    requires Answers(script[|log|], entry, MadeBy(Log(log)), ClosedBy(closed, script, |log|))
    ensures Answered(script, log + [entry], closed) && Log(log + [entry]) == Log(log) + entry
    ensures MadeBy(Log(log + [entry])) == MadeBy(Log(log)) + MadeBy(entry)
    ensures ReturnedBy(Log(log + [entry])) == ReturnedBy(Log(log)) + ReturnedBy(entry)
  {
    var more := log + [entry];
    assert more[..|log|] == log;
    forall i | 0 <= i < |more|
      ensures Answers(script[i], more[i], MadeBy(Log(more[..i])), ClosedBy(closed, script, i))
    {
      assert i < |log| ==> more[..i] == log[..i];
    }
    MadeAndReturned(Log(log), entry);
  }

  /** However a run goes on, it is a run of the queue: every command does its part, each schedule that is not refused
      pushes one task with what was asked for, each pop returns what the queue's steps allow, and involves no session
      closed by then. */
  method AnyRun(m: TaskManager, script: seq<Command>)
      returns (returned: seq<ScheduledTask>, ghost log: seq<seq<QueueRuns.Event>>, ghost states: seq<QueueState>)
    requires m.Valid() && forall c | c in script :: Knows(m.sessions, m.id, c)
    modifies m, m.queue, m.tasks, m.sessions
    ensures m.Valid() && |log| == |script| && returned == ReturnedBy(Log(log))
    ensures Trace(m, states, Log(log)) && states[0] == old(m.queue.Abs())
    ensures Answered(script, log, old(ClosedSessions(m)))
    ensures ClosedSessions(m) == ClosedBy(old(ClosedSessions(m)), script, |script|)
  {
    returned, log := [], [];
    states := [m.queue.Abs()];
    var made: seq<ScheduledTask> := [];
    for i := 0 to |script|
      invariant |log| == i && fresh(m.tasks - old(m.tasks)) && old(m.tasks) <= m.tasks
      invariant Underway(m, script, made, returned, log, states, old(ClosedSessions(m))) && states[0] == old(m.queue.Abs())
    {
      assert Knows(m.sessions, m.id, script[i]);
      made, returned, log, states := NextCommand(m, script, i, made, returned, log, states, old(ClosedSessions(m)));
    }
  }

  ghost predicate Underway(m: TaskManager, script: seq<Command>, made: seq<ScheduledTask>, returned: seq<ScheduledTask>,
                           log: seq<seq<QueueRuns.Event>>, states: seq<QueueState>, closed: set<Session>)
    reads m, m.queue, m.tasks, m.queue.heap, m.sessions
  {
    && m.Valid() && Answered(script, log, closed)
    && made == MadeBy(Log(log)) && returned == ReturnedBy(Log(log))
    && (forall t | t in made :: t in m.tasks)
    && (forall t | t in returned :: t in m.tasks && t !in m.queue.heap)
    && Trace(m, states, Log(log))
    && ClosedSessions(m) == ClosedBy(closed, script, |log|)
  }

  /** The body of that loop. */
  method NextCommand(m: TaskManager, script: seq<Command>, i: nat, made: seq<ScheduledTask>, returned: seq<ScheduledTask>,
                     ghost log: seq<seq<QueueRuns.Event>>, ghost states: seq<QueueState>, ghost closed: set<Session>)
      returns (madeNow: seq<ScheduledTask>, returnedNow: seq<ScheduledTask>,
               ghost more: seq<seq<QueueRuns.Event>>, ghost after: seq<QueueState>)
    requires Underway(m, script, made, returned, log, states, closed)
    requires i == |log| < |script| && Knows(m.sessions, m.id, script[i])
    modifies m, m.queue, m.tasks, m.sessions
    ensures Underway(m, script, madeNow, returnedNow, more, after, closed) && |more| == |log| + 1
    ensures after[0] == states[0] && old(m.tasks) <= m.tasks && fresh(m.tasks - old(m.tasks))
  {
    ghost var entry;
    var created, due;
    entry, created, due, after := Perform(m, script[i], made, returned, states, Log(log));
    OneMoreAnswer(script, log, entry, closed);
    more := log + [entry];
    madeNow, returnedNow := made + created, returned + due;
  }
}
