/** Scheduling for a session while it closes: a call tests the closed flag, adds the task to the session and pushes it
    to the queue; close raises the flag, takes the session's tasks and cancels them one by one. Every step is atomic,
    and any number of calls run at once. */
module ScheduleRaces {

  /** Tasks are numbered in the order in which calls pass the test. */
  datatype Caller = Idle | Tested(task: nat) | Added(task: nat)

  datatype Closer = Open | Flagged | Cancelling(left: seq<nat>) | Closed

  datatype State = State(
    callers: seq<Caller>,
    closer: Closer,
    made: nat,             // tasks made so far
    pending: seq<nat>,     // the session's tasks
    queue: set<nat>,       // tasks pushed
    cancelled: set<nat>)

  datatype Step =
    | Test(c: nat) | Add(c: nat) | Push(c: nat)
    | Flag | Drain | CancelNext | Finish

  predicate Enabled(s: State, step: Step) {
    match step
    case Test(c) => c < |s.callers| && s.callers[c].Idle?
    case Add(c) => c < |s.callers| && s.callers[c].Tested?
    case Push(c) => c < |s.callers| && s.callers[c].Added?
    case Flag => s.closer.Open?
    case Drain => s.closer.Flagged?
    case CancelNext => s.closer.Cancelling? && s.closer.left != []
    case Finish => s.closer == Cancelling([])
  }

  function Do(s: State, step: Step): State
    requires Enabled(s, step)
  {
    match step
    case Test(c) =>
      if !s.closer.Open? then s
      else s.(callers := s.callers[c := Tested(s.made)], made := s.made + 1)
    case Add(c) => s.(callers := s.callers[c := Added(s.callers[c].task)], pending := s.pending + [s.callers[c].task])
    case Push(c) => s.(callers := s.callers[c := Idle], queue := s.queue + {s.callers[c].task})
    case Flag => s.(closer := Flagged)
    case Drain => s.(closer := Cancelling(s.pending), pending := [])
    case CancelNext => s.(closer := Cancelling(s.closer.left[1..]), cancelled := s.cancelled + {s.closer.left[0]})
    case Finish => s.(closer := Closed)
  }

  function Init(n: nat): State {
    State(seq(n, i => Idle), Open, 0, [], {}, {})
  }

  ghost predicate IsRun(n: nat, steps: seq<Step>) {
    steps == [] ||
    (IsRun(n, steps[..|steps| - 1]) && Enabled(After(n, steps[..|steps| - 1]), steps[|steps| - 1]))
  }

  ghost function After(n: nat, steps: seq<Step>): State {
    if steps == [] then Init(n) else
    var s := After(n, steps[..|steps| - 1]);
    if Enabled(s, steps[|steps| - 1]) then Do(s, steps[|steps| - 1]) else s
  }

  // ---------- when a task was added ----------

  /** Step `i` adds the task to the session. */
  ghost predicate AddsAt(n: nat, steps: seq<Step>, i: nat, task: nat) {
    && i < |steps| && steps[i].Add?
    && var s := After(n, steps[..i]);
       steps[i].c < |s.callers| && s.callers[steps[i].c] == Tested(task)
  }

  /** The task was added after the session's tasks had been taken. */
  ghost predicate AddedLate(n: nat, steps: seq<Step>, task: nat) {
    exists d: nat, i: nat :: d < i < |steps| && steps[d] == Drain && AddsAt(n, steps, i, task)
  }

  ghost predicate Drained(s: State) {
    s.closer.Cancelling? || s.closer.Closed?
  }

  lemma AddsAtPrefix(n: nat, steps: seq<Step>, k: nat, i: nat, task: nat)
    requires i < k <= |steps|
    ensures AddsAt(n, steps[..k], i, task) <==> AddsAt(n, steps, i, task)
  {
    assert steps[..k][..i] == steps[..i];
  }

  lemma LateStep(n: nat, steps: seq<Step>, task: nat)
    requires steps != []
    ensures var k := |steps| - 1;
            AddedLate(n, steps, task) <==>
              AddedLate(n, steps[..k], task) || (Drain in steps[..k] && AddsAt(n, steps, k, task))
  {
    var k := |steps| - 1;
    if d: nat, i: nat :| d < i < |steps| && steps[d] == Drain && AddsAt(n, steps, i, task) {
      assert steps[..k][d] == Drain;
      if i < k {
        AddsAtPrefix(n, steps, k, i, task);
      }
    }
    if d: nat, i: nat :| d < i < k && steps[..k][d] == Drain && AddsAt(n, steps[..k], i, task) {
      AddsAtPrefix(n, steps, k, i, task);
      assert steps[d] == Drain;
    }
    if Drain in steps[..k] && AddsAt(n, steps, k, task) {
      var d: nat :| d < k && steps[..k][d] == Drain;
      assert steps[d] == Drain;
    }
  }

  lemma {:induction false} DrainedIff(n: nat, steps: seq<Step>)
    requires IsRun(n, steps)
    ensures Drained(After(n, steps)) <==> Drain in steps
  {
    if steps != [] {
      var k := |steps| - 1;
      DrainedIff(n, steps[..k]);
      assert steps == steps[..k] + [steps[k]];
    }
  }

  // ---------- what every step keeps ----------

  /** Calls that have passed the test hold different tasks, not yet in the queue. */
  ghost predicate CallersOk(s: State) {
    && (forall c | 0 <= c < |s.callers| && !s.callers[c].Idle? :: s.callers[c].task < s.made && s.callers[c].task !in s.queue)
    && (forall c, d | 0 <= c < d < |s.callers| && !s.callers[c].Idle? && !s.callers[d].Idle? ::
          s.callers[c].task != s.callers[d].task)
    && (forall t | t in s.queue :: t < s.made)
  }

  /** The task has been added to the session. */
  ghost predicate Listed(s: State, task: nat) {
    task in s.queue || exists c :: 0 <= c < |s.callers| && s.callers[c] == Added(task)
  }

  /** Where an added task is: with the session, or taken by close and then cancelled. `late` are those added after the
      session's tasks were taken. */
  ghost predicate TracksOk(s: State, late: nat -> bool) {
    && (forall t: nat | late(t) :: Drained(s))
    && (forall t: nat :: t in s.pending <==> Listed(s, t) && (Drained(s) ==> late(t)))
    && (forall t: nat :: t in s.cancelled || (s.closer.Cancelling? && t in s.closer.left) <==>
          Listed(s, t) && Drained(s) && !late(t))
  }

  lemma CallersStep(s: State, step: Step)
    requires CallersOk(s) && Enabled(s, step)
    ensures CallersOk(Do(s, step))
  {}

  lemma ListedStep(s: State, step: Step, task: nat)
    requires CallersOk(s) && Enabled(s, step)
    ensures Listed(Do(s, step), task) <==> Listed(s, task) || (step.Add? && s.callers[step.c] == Tested(task))
  {
    var n := Do(s, step);
    if c :| 0 <= c < |s.callers| && s.callers[c] == Added(task) {
      if !step.Push? || c != step.c {
        assert n.callers[c] == Added(task);
      }
    }
    if step.Add? && s.callers[step.c] == Tested(task) {
      assert n.callers[step.c] == Added(task);
    }
    if c :| 0 <= c < |n.callers| && n.callers[c] == Added(task) {
      if !step.Add? || c != step.c {
        assert s.callers[c] == Added(task);
      }
    }
  }

  /** A task is added once: it is not listed before. */
  lemma AddsNew(s: State, c: nat)
    requires CallersOk(s) && c < |s.callers| && s.callers[c].Tested?
    ensures !Listed(s, s.callers[c].task)
  {}

  lemma TracksStep(s: State, step: Step, late: nat -> bool, later: nat -> bool)
    requires CallersOk(s) && TracksOk(s, late) && Enabled(s, step)
    requires forall t: nat :: later(t) <==> late(t) || (Drained(s) && step.Add? && s.callers[step.c] == Tested(t))
    ensures TracksOk(Do(s, step), later)
  {
    var n := Do(s, step);
    forall t: nat { ListedStep(s, step, t); }
    if step.Add? {
      AddsNew(s, step.c);
    }
    match step
    case CancelNext =>
      assert s.closer.left == [s.closer.left[0]] + s.closer.left[1..];
    case _ =>
  }

  ghost function Late(n: nat, steps: seq<Step>): nat -> bool {
    (task: nat) => AddedLate(n, steps, task)
  }

  lemma {:induction false} AlwaysTracked(n: nat, steps: seq<Step>)
    requires IsRun(n, steps)
    ensures CallersOk(After(n, steps)) && TracksOk(After(n, steps), Late(n, steps))
  {
    if steps != [] {
      var k := |steps| - 1;
      var s := After(n, steps[..k]);
      AlwaysTracked(n, steps[..k]);
      CallersStep(s, steps[k]);
      DrainedIff(n, steps[..k]);
      forall t: nat { LateStep(n, steps, t); }
      TracksStep(s, steps[k], Late(n, steps[..k]), Late(n, steps));
    }
  }

  // ---------- who makes tasks ----------

  /** Step `i` is a call's test, on an open session, that makes the task. */
  ghost predicate MadeAt(n: nat, steps: seq<Step>, i: nat, task: nat) {
    && i < |steps| && steps[i].Test? && Flag !in steps[..i] && After(n, steps[..i]).made == task
  }

  lemma {:induction false} OpenIff(n: nat, steps: seq<Step>)
    requires IsRun(n, steps)
    ensures After(n, steps).closer.Open? <==> Flag !in steps
  {
    if steps != [] {
      var k := |steps| - 1;
      OpenIff(n, steps[..k]);
      assert steps == steps[..k] + [steps[k]];
    }
  }

  /** The tasks made are exactly those of the calls that tested the session before the flag was raised. */
  lemma {:induction false} MadeIff(n: nat, steps: seq<Step>, task: nat)
    requires IsRun(n, steps)
    ensures task < After(n, steps).made <==> exists i: nat :: MadeAt(n, steps, i, task)
  {
    if steps != [] {
      var k := |steps| - 1;
      var front := steps[..k];
      MadeIff(n, front, task);
      OpenIff(n, front);
      forall i: nat | i < k
        ensures MadeAt(n, steps, i, task) <==> MadeAt(n, front, i, task)
      {
        assert front[..i] == steps[..i];
      }
      if task < After(n, steps).made && !(task < After(n, front).made) {
        assert MadeAt(n, steps, k, task);
      }
      if MadeAt(n, steps, k, task) {
        assert task < After(n, steps).made;
      }
    }
  }

  // ---------- the order of a session's tasks ----------

  ghost predicate IsAdded(n: nat, steps: seq<Step>, x: nat) {
    exists i: nat :: AddsAt(n, steps, i, x)
  }

  ghost predicate AddedBefore(n: nat, steps: seq<Step>, x: nat, y: nat) {
    exists i: nat, j: nat :: i < j && AddsAt(n, steps, i, x) && AddsAt(n, steps, j, y)
  }

  ghost predicate InOrderOfAdding(n: nat, steps: seq<Step>, tasks: seq<nat>) {
    && (forall a | 0 <= a < |tasks| :: IsAdded(n, steps, tasks[a]))
    && (forall a, b | 0 <= a < b < |tasks| :: AddedBefore(n, steps, tasks[a], tasks[b]))
  }

  lemma StillAdded(n: nat, steps: seq<Step>, k: nat, x: nat, y: nat)
    requires k <= |steps|
    ensures IsAdded(n, steps[..k], x) ==> IsAdded(n, steps, x)
    ensures AddedBefore(n, steps[..k], x, y) ==> AddedBefore(n, steps, x, y)
    ensures k < |steps| && IsAdded(n, steps[..k], x) && AddsAt(n, steps, k, y) ==> AddedBefore(n, steps, x, y)
  {
    if i: nat :| AddsAt(n, steps[..k], i, x) {
      AddsAtPrefix(n, steps, k, i, x);
    }
    if i: nat, j: nat :| i < j && AddsAt(n, steps[..k], i, x) && AddsAt(n, steps[..k], j, y) {
      AddsAtPrefix(n, steps, k, i, x);
      AddsAtPrefix(n, steps, k, j, y);
    }
  }

  /** The session's tasks are in the order in which calls added them. */
  lemma {:induction false} PendingInOrder(n: nat, steps: seq<Step>)
    requires IsRun(n, steps)
    ensures InOrderOfAdding(n, steps, After(n, steps).pending)
  {
    if steps != [] {
      var k := |steps| - 1;
      var s, step := After(n, steps[..k]), steps[k];
      PendingInOrder(n, steps[..k]);
      forall x, y { StillAdded(n, steps, k, x, y); }
      if step.Add? {
        assert AddsAt(n, steps, k, s.callers[step.c].task);
      }
    }
  }

  // ---------- what is left in the queue ----------

  /** When close is through, a task of the session in the queue is still uncancelled exactly when it was added to the
      session after close had taken the session's tasks. */
  lemma SurvivesCloseIff(n: nat, steps: seq<Step>, task: nat)
    requires IsRun(n, steps) && After(n, steps).closer.Closed? && task in After(n, steps).queue
    ensures task !in After(n, steps).cancelled <==> AddedLate(n, steps, task)
  {
    AlwaysTracked(n, steps);
    assert Listed(After(n, steps), task);
  }

  /** Such a task can exist: one call tests the flag before it is raised, and adds its task after close is through. */
  lemma TaskSurvivesClose() returns (steps: seq<Step>)
    ensures IsRun(1, steps)
    ensures After(1, steps) == State([Idle], Closed, 1, [0], {0}, {})
  {
    var s1 := [Test(0)];
    var s2 := s1 + [Flag];
    var s3 := s2 + [Drain];
    var s4 := s3 + [Finish];
    var s5 := s4 + [Add(0)];
    steps := s5 + [Push(0)];
    assert s1[..0] == [] && s2[..1] == s1 && s3[..2] == s2 && s4[..3] == s3 && s5[..4] == s4 && steps[..5] == s5;
    assert After(1, s1) == State([Tested(0)], Open, 1, [], {}, {}) && IsRun(1, s1);
    assert After(1, s2) == State([Tested(0)], Flagged, 1, [], {}, {}) && IsRun(1, s2);
    assert After(1, s3) == State([Tested(0)], Cancelling([]), 1, [], {}, {}) && IsRun(1, s3);
    assert After(1, s4) == State([Tested(0)], Closed, 1, [], {}, {}) && IsRun(1, s4);
    assert After(1, s5) == State([Added(0)], Closed, 1, [0], {}, {}) && IsRun(1, s5);
  }

  // ---------- nobody waits ----------

  /** A call can always go on, and so can a close that has not come to its end: each of its steps brings it nearer. */
  lemma NobodyWaits(s: State)
    ensures forall c | 0 <= c < |s.callers| :: Enabled(s, Test(c)) || Enabled(s, Add(c)) || Enabled(s, Push(c))
    ensures !s.closer.Closed? ==>
              exists step :: Enabled(s, step) && !step.Test? && !step.Add? && !step.Push? && Ahead(Do(s, step)) < Ahead(s)
  {
    if !s.closer.Closed? {
      var step := match s.closer
        case Open => Flag
        case Flagged => Drain
        case Cancelling(left) => if left == [] then Finish else CancelNext;
      assert Enabled(s, step) && Ahead(Do(s, step)) < Ahead(s);
    }
  }

  /** The steps of the close that are still ahead. */
  function Ahead(s: State): nat {
    match s.closer
    case Open => |s.pending| + 3
    case Flagged => |s.pending| + 2
    case Cancelling(left) => |left| + 1
    case Closed => 0
  }
}
