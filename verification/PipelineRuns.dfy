/** One scheduler pass as a state machine: the stage loop launches one job per list, jobs run their lists
    concurrently, and a wait group holds the loop back until every job of the stage is done. */
module PipelineRuns {
  import opened Basics
  import opened TaskQueues
  import opened Pipeline
  import Access
  import SystemMetas
  import Injection
  import Bitmasks

  /** One turn of a job's loop: what the job met, and whether it ran the task. */
  datatype Visit = Visit(stage: int, job: Placement, task: ScheduledTask, at: Moment, ran: bool)

  datatype State = State(
    worlds: seq<nat>,                             // the manager's worlds, fixed
    metas: ScheduledTask -> SystemMetas.SystemMeta, // the metadata of each task, fixed
    started: nat,                                 // stages entered so far
    looks: map<ScheduledTask, Look>,              // what the grouping loops read of the tasks of these stages
    placed: map<ScheduledTask, Placement>,        // where each of them went
    lists: map<Placement, seq<ScheduledTask>>,    // the lists of the current stage
    todo: set<Placement>,                         // jobs not launched yet
    running: set<Placement>,
    waiting: int,                                 // the wait group's counter
    at: map<Placement, nat>,                      // loop position of each job
    trace: seq<Visit>)

  datatype Step =
    | NextStage(looks: map<ScheduledTask, Look>, worldTasks: map<nat, seq<ScheduledTask>>,
                globalTasks: seq<ScheduledTask>)
    | Launch(job: Placement)
    | Turn(job: Placement, at: Moment)
    | Done(job: Placement)

  /** Without any world a global task is not launched. */
  function SettledPlace(place: Placement, hasWorld: bool): Placement {
    if place == Global && !hasWorld then Dropped else place
  }

  ghost function Settled(tasks: seq<ScheduledTask>, placeOf: map<ScheduledTask, Placement>, hasWorld: bool)
      : map<ScheduledTask, Placement>
  {
    map t | t in tasks && t in placeOf :: SettledPlace(placeOf[t], hasWorld)
  }

  /** One job per non-empty list. */
  ghost predicate Jobs(tasks: seq<ScheduledTask>, settled: map<ScheduledTask, Placement>,
                       lists: map<Placement, seq<ScheduledTask>>) {
    && (forall t | t in tasks && t in settled && settled[t] != Dropped :: settled[t] in lists)
    && (forall j | j in lists :: j != Dropped && lists[j] == PlacedIn(tasks, settled, j))
  }

  ghost function JobLists(worldTasks: map<nat, seq<ScheduledTask>>, globalTasks: seq<ScheduledTask>, hasWorld: bool)
      : map<Placement, seq<ScheduledTask>>
  {
    var worlds := map j: Placement | j in (set w | w in worldTasks :: InWorld(w)) && j.InWorld? && j.w in worldTasks
                  :: worldTasks[j.w];
    if globalTasks != [] && hasWorld then worlds[Global := globalTasks] else worlds
  }

  /** What the grouping loops build is one job per non-empty list. */
  lemma GroupedAreJobs(tasks: seq<ScheduledTask>, placeOf: map<ScheduledTask, Placement>,
                       worldTasks: map<nat, seq<ScheduledTask>>, globalTasks: seq<ScheduledTask>, hasWorld: bool)
    requires SortedByDeadline(tasks) && Distinct(tasks)
    requires Grouped(tasks, placeOf, worldTasks, globalTasks)
    ensures Jobs(tasks, Settled(tasks, placeOf, hasWorld), JobLists(worldTasks, globalTasks, hasWorld))
  {
    var settled := Settled(tasks, placeOf, hasWorld);
    var lists := JobLists(worldTasks, globalTasks, hasWorld);
    forall t | t in tasks && t in settled && settled[t] != Dropped
      ensures settled[t] in lists
    {
      PlacedWithin(tasks, placeOf, settled[t]);
      assert t in PlacedIn(tasks, placeOf, settled[t]);
    }
    forall j | j in lists
      ensures j != Dropped && lists[j] == PlacedIn(tasks, settled, j)
    {
      SettledSame(tasks, tasks, placeOf, hasWorld, j);
    }
  }

  lemma {:induction false} SettledSame(part: seq<ScheduledTask>, tasks: seq<ScheduledTask>,
                                       placeOf: map<ScheduledTask, Placement>, hasWorld: bool, j: Placement)
    requires forall t | t in part :: t in tasks
    requires j.InWorld? || (j.Global? && hasWorld)
    ensures PlacedIn(part, Settled(tasks, placeOf, hasWorld), j) == PlacedIn(part, placeOf, j)
  {
    if part != [] {
      assert forall t | t in part[..|part| - 1] :: t in part;
      SettledSame(part[..|part| - 1], tasks, placeOf, hasWorld, j);
    }
  }

  ghost predicate Enabled(due: seq<ScheduledTask>, s: State, step: Step) {
    match step
    case NextStage(looks, worldTasks, globalTasks) =>
      && s.started < STAGE_COUNT && s.todo == {} && s.waiting == 0
      && (forall t | t in OfStage(due, s.started) :: t in looks && |looks[t].seen| == |t.sessions|)
      && Grouped(OfStage(due, s.started), Placements(looks), worldTasks, globalTasks)
    case Launch(job) => job in s.todo
    case Turn(job, at) =>
      && job in s.running && job in s.lists && job in s.at && s.at[job] < |s.lists[job]|
      && |at.sessions| == |at.masks| == |s.lists[job][s.at[job]].sessions|
    case Done(job) => job in s.running && job in s.lists && job in s.at && s.at[job] == |s.lists[job]|
  }

  ghost function Restricted(looks: map<ScheduledTask, Look>, tasks: seq<ScheduledTask>): map<ScheduledTask, Look> {
    map t | t in tasks && t in looks :: looks[t]
  }

  /** The world whose transaction a job's tasks run in; global tasks run in the first world. */
  function WorldOf(job: Placement, worlds: seq<nat>): nat {
    if job.InWorld? then job.w else if worlds != [] then worlds[0] else 0
  }

  ghost predicate ReadyToLaunch(n: State) {
    && n.todo == n.lists.Keys && n.running == {} && n.waiting == 0
    && n.at == map j | j in n.lists :: 0
  }

  ghost predicate Next(due: seq<ScheduledTask>, s: State, step: Step, n: State) {
    && Enabled(due, s, step)
    && match step
       case NextStage(looks, worldTasks, globalTasks) =>
         && n.worlds == s.worlds && n.metas == s.metas && n.started == s.started + 1
         && n.looks == s.looks + Restricted(looks, OfStage(due, s.started))
         && n.placed == s.placed + Settled(OfStage(due, s.started), Placements(looks), s.worlds != [])
         && n.lists == JobLists(worldTasks, globalTasks, s.worlds != [])
         && ReadyToLaunch(n)
         && n.trace == s.trace
       case Launch(job) => n == s.(todo := s.todo - {job}, running := s.running + {job}, waiting := s.waiting + 1)
       case Turn(job, at) =>
         var task := s.lists[job][s.at[job]];
         n == s.(at := s.at[job := s.at[job] + 1],
                 trace := s.trace + [Visit(s.started - 1, job, task, at, Executes(task, s.metas(task), WorldOf(job, s.worlds), at))])
       case Done(job) => n == s.(running := s.running - {job}, waiting := s.waiting - 1)
  }

  ghost function Start(worlds: seq<nat>, metas: ScheduledTask -> SystemMetas.SystemMeta): State {
    State(worlds, metas, 0, map[], map[], map[], {}, {}, 0, map[], [])
  }

  ghost predicate IsRun(due: seq<ScheduledTask>, states: seq<State>, steps: seq<Step>) {
    && |states| == |steps| + 1 && states[0] == Start(states[0].worlds, states[0].metas)
    && forall i | 0 <= i < |steps| :: var m := i + 1; Next(due, states[i], steps[i], states[m])
  }

  // ---------- what every step keeps ----------

  ghost predicate PlacedInv(due: seq<ScheduledTask>, s: State) {
    && s.started <= STAGE_COUNT
    && (forall t | t in s.placed :: t in due && t.stage < s.started)
    && (forall t | t in due && t.stage < s.started :: t in s.placed)
  }

  /** A task went where what was read of it sends it. */
  ghost predicate LooksInv(s: State) {
    forall t | t in s.placed ::
      t in s.looks && |s.looks[t].seen| == |t.sessions| && s.placed[t] == SettledPlace(PlaceOf(s.looks[t]), s.worlds != [])
  }

  ghost predicate ListsInv(due: seq<ScheduledTask>, s: State) {
    if s.started == 0 then s.lists == map[] else Jobs(OfStage(due, s.started - 1), s.placed, s.lists)
  }

  /** A job is waiting to be launched, running, or through with its list; the wait group counts the running. */
  ghost predicate LoopsInv(s: State) {
    && s.at.Keys == s.lists.Keys
    && s.todo <= s.lists.Keys && s.running <= s.lists.Keys && s.todo !! s.running
    && s.waiting == |s.running|
    && (forall j | j in s.lists :: s.at[j] <= |s.lists[j]|)
    && (forall j | j in s.todo :: s.at[j] == 0)
    && (forall j | j in s.lists && j !in s.todo && j !in s.running :: s.at[j] == |s.lists[j]|)
  }

  ghost predicate JobsInv(due: seq<ScheduledTask>, s: State) {
    PlacedInv(due, s) && ListsInv(due, s) && LoopsInv(s)
  }

  /** A visit names the job its task was placed in, and the job's loop has moved past the task. */
  ghost predicate VisitOk(due: seq<ScheduledTask>, s: State, v: Visit) {
    && v.task in due && v.task.stage == v.stage < s.started
    && v.task in s.placed && s.placed[v.task] == v.job && v.job != Dropped
    && v.ran == Executes(v.task, s.metas(v.task), WorldOf(v.job, s.worlds), v.at)
    && (v.stage == s.started - 1 ==> v.job in s.lists && v.job in s.at
                                     && exists k :: 0 <= k < s.at[v.job] && k < |s.lists[v.job]| && s.lists[v.job][k] == v.task)
  }

  ghost predicate Visited(trace: seq<Visit>, t: ScheduledTask) {
    exists i :: 0 <= i < |trace| && trace[i].task == t
  }

  ghost predicate InOrder(a: Visit, b: Visit) {
    && a.stage <= b.stage && a.task != b.task
    && (a.job == b.job && a.stage == b.stage ==> a.task.executeAt <= b.task.executeAt)
  }

  ghost predicate Ordered(trace: seq<Visit>) {
    forall i, j | 0 <= i < j < |trace| :: InOrder(trace[i], trace[j])
  }

  /** Every task that a loop has moved past was visited, as was every task of the stages before. */
  ghost predicate Covered(due: seq<ScheduledTask>, s: State) {
    && (forall t | t in due && t.stage < s.started - 1 && t in s.placed && s.placed[t] != Dropped :: Visited(s.trace, t))
    && (forall j, k | j in s.lists && j in s.at && 0 <= k < s.at[j] && k < |s.lists[j]| :: Visited(s.trace, s.lists[j][k]))
  }

  ghost predicate Inv(due: seq<ScheduledTask>, s: State) {
    && JobsInv(due, s)
    && LooksInv(s)
    && (forall i | 0 <= i < |s.trace| :: VisitOk(due, s, s.trace[i]))
    && Ordered(s.trace)
    && Covered(due, s)
  }

  /** The lists of the current stage hold exactly the tasks placed in them. */
  lemma ListsHold(due: seq<ScheduledTask>, s: State, j: Placement)
    requires SortedByDeadline(due) && Distinct(due)
    requires JobsInv(due, s) && j in s.lists
    ensures s.started > 0 && SortedByDeadline(s.lists[j]) && Distinct(s.lists[j])
    ensures forall t :: t in s.lists[j] <==> t in due && t.stage == s.started - 1 && s.placed[t] == j
  {
    StageWithin(due, s.started - 1);
    PlacedWithin(OfStage(due, s.started - 1), s.placed, j);
  }

  /** Recording the placements of further tasks does not touch the lists of these ones. */
  lemma JobsRecorded(tasks: seq<ScheduledTask>, settled: map<ScheduledTask, Placement>,
                     placed: map<ScheduledTask, Placement>, lists: map<Placement, seq<ScheduledTask>>)
    requires Jobs(tasks, settled, lists)
    requires forall t | t in tasks :: t in settled && t in placed && settled[t] == placed[t]
    ensures Jobs(tasks, placed, lists)
  {
    forall j { PlacedSame(tasks, settled, placed, j); }
  }

  lemma NextStageLists(due: seq<ScheduledTask>, s: State, step: Step, n: State)
    requires SortedByDeadline(due) && Distinct(due)
    requires step.NextStage? && Next(due, s, step, n)
    ensures ListsInv(due, n)
  {
    var tasks := OfStage(due, s.started);
    StageWithin(due, s.started);
    GroupedAreJobs(tasks, Placements(step.looks), step.worldTasks, step.globalTasks, s.worlds != []);
    JobsRecorded(tasks, Settled(tasks, Placements(step.looks), s.worlds != []), n.placed, n.lists);
  }

  lemma NextStagePlaced(due: seq<ScheduledTask>, s: State, step: Step, n: State)
    requires SortedByDeadline(due) && Distinct(due)
    requires PlacedInv(due, s) && step.NextStage? && Next(due, s, step, n)
    ensures PlacedInv(due, n)
    ensures forall t | t in s.placed :: t in n.placed && n.placed[t] == s.placed[t]
  {
    StageWithin(due, s.started);
  }

  lemma NextStageLooks(due: seq<ScheduledTask>, s: State, step: Step, n: State)
    requires LooksInv(s) && step.NextStage? && Next(due, s, step, n)
    ensures LooksInv(n)
  {}

  lemma NextStageJobs(due: seq<ScheduledTask>, s: State, step: Step, n: State)
    requires SortedByDeadline(due) && Distinct(due)
    requires JobsInv(due, s) && step.NextStage? && Next(due, s, step, n)
    ensures JobsInv(due, n)
  {
    NextStageLists(due, s, step, n);
    NextStagePlaced(due, s, step, n);
    LaunchableLoops(n);
  }

  lemma LaunchableLoops(n: State)
    requires ReadyToLaunch(n)
    ensures LoopsInv(n)
  {}

  lemma {:induction false} PlacedSame(tasks: seq<ScheduledTask>, a: map<ScheduledTask, Placement>,
                                      b: map<ScheduledTask, Placement>, j: Placement)
    requires forall t | t in tasks :: t in a && t in b && a[t] == b[t]
    ensures PlacedIn(tasks, a, j) == PlacedIn(tasks, b, j)
  {
    if tasks != [] {
      assert forall t | t in tasks[..|tasks| - 1] :: t in tasks;
      PlacedSame(tasks[..|tasks| - 1], a, b, j);
    }
  }

  lemma LoopsStep(due: seq<ScheduledTask>, s: State, step: Step, n: State)
    requires LoopsInv(s) && !step.NextStage? && Next(due, s, step, n)
    ensures LoopsInv(n)
    ensures n.worlds == s.worlds && n.metas == s.metas && n.looks == s.looks
    ensures n.started == s.started && n.placed == s.placed && n.lists == s.lists
  {
    match step
    case Turn(job, _) => assert n.at.Keys == s.at.Keys;
    case Launch(job) => assert job !in s.running;
    case Done(job) =>
  }

  lemma StaysPlaced(due: seq<ScheduledTask>, s: State, n: State)
    requires PlacedInv(due, s) && ListsInv(due, s)
    requires n.worlds == s.worlds && n.metas == s.metas && n.looks == s.looks
    requires n.started == s.started && n.placed == s.placed && n.lists == s.lists
    ensures PlacedInv(due, n) && ListsInv(due, n)
  {}

  lemma JobsStep(due: seq<ScheduledTask>, s: State, step: Step, n: State)
    requires SortedByDeadline(due) && Distinct(due)
    requires JobsInv(due, s) && Next(due, s, step, n)
    ensures JobsInv(due, n)
  {
    if step.NextStage? {
      NextStageJobs(due, s, step, n);
    } else {
      LoopsStep(due, s, step, n);
      StaysPlaced(due, s, n);
    }
  }

  /** The wait group is at zero only when every job has run through its list. */
  lemma BarrierMeansDone(due: seq<ScheduledTask>, s: State)
    requires JobsInv(due, s) && s.todo == {} && s.waiting == 0
    ensures forall j | j in s.lists :: s.at[j] == |s.lists[j]|
  {
    assert s.running == {};
  }

  /** A task placed in a job of the current stage is somewhere in the job's list. */
  lemma ListPosition(due: seq<ScheduledTask>, s: State, t: ScheduledTask) returns (k: nat)
    requires SortedByDeadline(due) && Distinct(due) && JobsInv(due, s)
    requires t in due && t.stage == s.started - 1 && s.placed[t] != Dropped
    ensures s.placed[t] in s.lists && k < |s.lists[s.placed[t]]| && s.lists[s.placed[t]][k] == t
  {
    StageWithin(due, s.started - 1);
    ListsHold(due, s, s.placed[t]);
    k :| 0 <= k < |s.lists[s.placed[t]]| && s.lists[s.placed[t]][k] == t;
  }

  lemma StageDone(due: seq<ScheduledTask>, s: State, t: ScheduledTask)
    requires SortedByDeadline(due) && Distinct(due)
    requires JobsInv(due, s) && Covered(due, s) && s.todo == {} && s.waiting == 0
    requires t in due && t.stage < s.started && s.placed[t] != Dropped
    ensures Visited(s.trace, t)
  {
    if t.stage == s.started - 1 {
      var k := ListPosition(due, s, t);
      BarrierMeansDone(due, s);
    }
  }

  lemma NextStageStep(due: seq<ScheduledTask>, s: State, step: Step, n: State)
    requires SortedByDeadline(due) && Distinct(due)
    requires Inv(due, s) && step.NextStage? && Next(due, s, step, n)
    ensures Inv(due, n)
  {
    JobsStep(due, s, step, n);
    NextStageLooks(due, s, step, n);
    NextStagePlaced(due, s, step, n);
    forall i | 0 <= i < |n.trace|
      ensures VisitOk(due, n, n.trace[i])
    {
      assert VisitOk(due, s, s.trace[i]);
    }
    forall t | t in due && t.stage < n.started - 1 && t in n.placed && n.placed[t] != Dropped
      ensures Visited(n.trace, t)
    {
      StageDone(due, s, t);
    }
  }

  lemma TurnOrder(due: seq<ScheduledTask>, s: State, step: Step, n: State)
    requires SortedByDeadline(due) && Distinct(due)
    requires Inv(due, s) && step.Turn? && Next(due, s, step, n)
    ensures Ordered(n.trace)
  {
    var job, k := step.job, s.at[step.job];
    var v := n.trace[|s.trace|];
    ListsHold(due, s, job);
    forall i | 0 <= i < |s.trace|
      ensures InOrder(s.trace[i], v)
    {
      var u := s.trace[i];
      assert VisitOk(due, s, u);
      assert v.task in s.lists[job];
      if u.stage == v.stage && u.job == job {
        var m :| 0 <= m < s.at[job] && m < |s.lists[job]| && s.lists[job][m] == u.task;
      }
    }
  }

  lemma TurnStep(due: seq<ScheduledTask>, s: State, step: Step, n: State)
    requires SortedByDeadline(due) && Distinct(due)
    requires Inv(due, s) && step.Turn? && Next(due, s, step, n)
    ensures Inv(due, n)
  {
    JobsStep(due, s, step, n);
    TurnOrder(due, s, step, n);
    TurnVisits(due, s, step, n);
    TurnCovers(due, s, step, n);
  }

  lemma TurnVisits(due: seq<ScheduledTask>, s: State, step: Step, n: State)
    requires SortedByDeadline(due) && Distinct(due)
    requires Inv(due, s) && step.Turn? && Next(due, s, step, n)
    ensures forall i | 0 <= i < |n.trace| :: VisitOk(due, n, n.trace[i])
  {
    ListsHold(due, s, step.job);
    forall i | 0 <= i < |n.trace|
      ensures VisitOk(due, n, n.trace[i])
    {
      if i < |s.trace| {
        assert VisitOk(due, s, s.trace[i]);
        var v := s.trace[i];
        if v.stage == s.started - 1 {
          var m :| 0 <= m < s.at[v.job] && m < |s.lists[v.job]| && s.lists[v.job][m] == v.task;
          assert m < n.at[v.job];
        }
      } else {
        assert s.lists[step.job][s.at[step.job]] == n.trace[i].task;
      }
    }
  }

  lemma TurnCovers(due: seq<ScheduledTask>, s: State, step: Step, n: State)
    requires JobsInv(due, s) && Covered(due, s) && step.Turn? && Next(due, s, step, n)
    ensures Covered(due, n)
  {
    forall t | Visited(s.trace, t)
      ensures Visited(n.trace, t)
    {
      var i :| 0 <= i < |s.trace| && s.trace[i].task == t;
      assert n.trace[i].task == t;
    }
    assert n.trace[|s.trace|].task == s.lists[step.job][s.at[step.job]];
  }

  lemma InvStep(due: seq<ScheduledTask>, s: State, step: Step, n: State)
    requires SortedByDeadline(due) && Distinct(due)
    requires Inv(due, s) && Next(due, s, step, n)
    ensures Inv(due, n)
  {
    match step
    case NextStage(_, _, _) => NextStageStep(due, s, step, n);
    case Turn(_, _) => TurnStep(due, s, step, n);
    case Launch(_) =>
      JobsStep(due, s, step, n);
      forall i | 0 <= i < |n.trace| ensures VisitOk(due, n, n.trace[i]) { assert VisitOk(due, s, s.trace[i]); }
    case Done(_) =>
      JobsStep(due, s, step, n);
      forall i | 0 <= i < |n.trace| ensures VisitOk(due, n, n.trace[i]) { assert VisitOk(due, s, s.trace[i]); }
  }

  lemma {:induction false} AlwaysInv(due: seq<ScheduledTask>, states: seq<State>, steps: seq<Step>, k: nat)
    requires SortedByDeadline(due) && Distinct(due)
    requires IsRun(due, states, steps) && k < |states|
    ensures Inv(due, states[k])
  {
    if k > 0 {
      AlwaysInv(due, states, steps, k - 1);
      assert Next(due, states[k - 1], steps[k - 1], states[k - 1 + 1]);
      InvStep(due, states[k - 1], steps[k - 1], states[k]);
    }
  }

  // ---------- the promises ----------

  /** In every interleaving of the jobs: no task is visited twice, nothing of a later stage comes before
      something of an earlier one, and each job follows (stage, deadline) order. */
  lemma PipelineOrder(due: seq<ScheduledTask>, states: seq<State>, steps: seq<Step>, k: nat, i: nat, j: nat)
    requires SortedByDeadline(due) && Distinct(due)
    requires IsRun(due, states, steps) && k < |states| && i < j < |states[k].trace|
    ensures var a, b := states[k].trace[i], states[k].trace[j];
            && a.task != b.task && a.stage <= b.stage
            && a.stage == a.task.stage && b.stage == b.task.stage
            && (a.job == b.job ==> a.stage < b.stage || a.task.executeAt <= b.task.executeAt)
  {
    AlwaysInv(due, states, steps, k);
    assert InOrder(states[k].trace[i], states[k].trace[j]);
    assert VisitOk(due, states[k], states[k].trace[i]);
    assert VisitOk(due, states[k], states[k].trace[j]);
  }

  /** Everything but the place: not cancelled, the masks pass, and injection finds what it needs. */
  ghost predicate Runnable(meta: SystemMetas.SystemMeta, at: Moment) {
    && !at.cancelled && Injection.MasksPass(meta, at.masks)
    && (|at.sessions| > 0 || meta.isGlobal) && Injection.AllOk(at.memory, at.sessions, meta.fields, |meta.fields|)
  }

  /** The player of every session of the task is in the world. */
  ghost predicate AllIn(t: ScheduledTask, at: Moment, world: nat) {
    forall s | s in t.sessions :: s in at.playerIn && at.playerIn[s] == world
  }

  /** A job of a world runs its tasks in that world, the global job in the first of the manager's worlds: a visit runs
      its task exactly when every player is there and the task can run. So sessions of a task that runs are in one
      world, and the world is the one the task is listed under. */
  lemma RunMeansTogether(due: seq<ScheduledTask>, states: seq<State>, steps: seq<Step>, k: nat, i: nat)
    requires SortedByDeadline(due) && Distinct(due)
    requires IsRun(due, states, steps) && k < |states| && i < |states[k].trace|
    ensures var v := states[k].trace[i];
            var meta := states[k].metas(v.task);
            && !v.job.Dropped?
            && (v.job.InWorld? ==> (v.ran <==> Runnable(meta, v.at) && AllIn(v.task, v.at, v.job.w)))
            && (v.job.Global? ==> |states[k].worlds| > 0 && v.task.sessions == []
                                  && (v.ran <==> Runnable(meta, v.at) && AllIn(v.task, v.at, states[k].worlds[0])))
  {
    AlwaysInv(due, states, steps, k);
    var s, v := states[k], states[k].trace[i];
    assert VisitOk(due, s, v);
    PlacedIff(s.looks[v.task], 1);
  }

  /** In every interleaving a task that runs has every required component, on the session each field belongs to. */
  lemma RunsWithComponents(due: seq<ScheduledTask>, states: seq<State>, steps: seq<Step>, k: nat, i: nat,
                           decls: seq<Access.FieldDecl>, types: SystemMetas.Types, field: nat)
    requires SortedByDeadline(due) && Distinct(due)
    requires IsRun(due, states, steps) && k < |states| && i < |states[k].trace| && states[k].trace[i].ran
    requires SystemMetas.Analyzed(decls, types, states[k].metas(states[k].trace[i].task))
    requires field < |decls| && Injection.RequiredComponent(decls, field)
    ensures var v := states[k].trace[i];
            var f := states[k].metas(v.task).fields[field];
            Injection.ComponentOf(v.at.memory, Injection.SessionFor(v.at.sessions, f), f.componentID) != 0
  {
    AlwaysInv(due, states, steps, k);
    var v := states[k].trace[i];
    assert VisitOk(due, states[k], v);
    RunHasComponents(decls, types, v.task, states[k].metas(v.task), WorldOf(v.job, states[k].worlds), v.at, field);
  }

  /** Where a task of a stage went, by what the grouping loop read of it. */
  ghost predicate PlacedFor(t: ScheduledTask, look: Look, hasWorld: bool, place: Placement) {
    && (forall w: nat | w > 0 :: place == InWorld(w) <==> FitsWorld(look, w))
    && (place == Global <==> !look.cancelled && t.sessions == [] && hasWorld)
    && (place == Dropped <==> !(!look.cancelled && t.sessions == [] && hasWorld) && forall w: nat | w > 0 :: !FitsWorld(look, w))
  }

  lemma SettledIsPlacedFor(t: ScheduledTask, look: Look, hasWorld: bool)
    requires |look.seen| == |t.sessions|
    ensures PlacedFor(t, look, hasWorld, SettledPlace(PlaceOf(look), hasWorld))
  {
    forall w: nat | w > 0 { PlacedIff(look, w); }
    PlacedIff(look, 1);
  }

  /** When the pass is over every due task has been visited, once, in the job its stage placed it in, or was
      dropped by its stage, and never both; and what the grouping loop read of it says which. */
  lemma EveryTaskOnce(due: seq<ScheduledTask>, states: seq<State>, steps: seq<Step>, t: ScheduledTask)
    requires SortedByDeadline(due) && Distinct(due)
    requires IsRun(due, states, steps)
    requires t in due && t.stage < STAGE_COUNT
    ensures var s := states[|steps|];
            s.started == STAGE_COUNT && s.todo == {} && s.waiting == 0 ==>
              && t in s.placed && t in s.looks && PlacedFor(t, s.looks[t], s.worlds != [], s.placed[t])
              && (s.placed[t] != Dropped <==> Visited(s.trace, t))
              && (forall i | 0 <= i < |s.trace| && s.trace[i].task == t :: s.trace[i].job == s.placed[t])
              && (forall i, j | 0 <= i < j < |s.trace| && s.trace[i].task == t :: s.trace[j].task != t)
  {
    var s := states[|steps|];
    AlwaysInv(due, states, steps, |steps|);
    if s.started == STAGE_COUNT && s.todo == {} && s.waiting == 0 {
      SettledIsPlacedFor(t, s.looks[t], s.worlds != []);
      if s.placed[t] != Dropped {
        StageDone(due, s, t);
      }
      forall i | 0 <= i < |s.trace| && s.trace[i].task == t
        ensures s.trace[i].job == s.placed[t] && s.placed[t] != Dropped
      {
        assert VisitOk(due, s, s.trace[i]);
      }
      forall i, j | 0 <= i < j < |s.trace| && s.trace[i].task == t
        ensures s.trace[j].task != t
      {
        assert InOrder(s.trace[i], s.trace[j]);
      }
    }
  }

  // ---------- no pass gets stuck ----------

  /** Looks by which every task of the list is dropped. */
  ghost function AllDropped(tasks: seq<ScheduledTask>): (looks: map<ScheduledTask, Look>)
    ensures forall t | t in tasks :: t in looks && |looks[t].seen| == |t.sessions|
    ensures forall t | t in looks :: looks[t].cancelled
  {
    map t | t in tasks :: Look(true, seq(|t.sessions|, i => Seen(true, 0)))
  }

  lemma {:induction false} DroppedAreNowhere(tasks: seq<ScheduledTask>, place: map<ScheduledTask, Placement>, p: Placement)
    requires p != Dropped && forall t | t in place :: place[t] == Dropped
    ensures PlacedIn(tasks, place, p) == []
  {
    if tasks != [] {
      DroppedAreNowhere(tasks[..|tasks| - 1], place, p);
    }
  }

  /** What a job can always meet. */
  ghost function SomeMoment(n: nat): (at: Moment)
    ensures |at.sessions| == |at.masks| == n
  {
    Moment(true, map[], seq(n, i => 1), seq(n, i => Bitmasks.Empty()),
           Injection.World(map[], {}, map[], map[], map[], map[], 0, map[], map[], map[]))
  }

  /** Until the pass is over there is always a next step: no job and no stage waits for ever. */
  lemma PassGoesOn(due: seq<ScheduledTask>, s: State) returns (step: Step, n: State)
    requires JobsInv(due, s)
    requires !(s.started == STAGE_COUNT && s.todo == {} && s.waiting == 0)
    ensures Next(due, s, step, n)
  {
    if s.todo != {} {
      var job :| job in s.todo;
      step := Launch(job);
      n := s.(todo := s.todo - {job}, running := s.running + {job}, waiting := s.waiting + 1);
    } else if s.running != {} {
      var job :| job in s.running;
      if s.at[job] < |s.lists[job]| {
        var task := s.lists[job][s.at[job]];
        var at := SomeMoment(|task.sessions|);
        step := Turn(job, at);
        n := s.(at := s.at[job := s.at[job] + 1],
                trace := s.trace + [Visit(s.started - 1, job, task, at,
                                          Executes(task, s.metas(task), WorldOf(job, s.worlds), at))]);
      } else {
        step := Done(job);
        n := s.(running := s.running - {job}, waiting := s.waiting - 1);
      }
    } else {
      step, n := NextStageExists(due, s);
    }
  }

  lemma NextStageExists(due: seq<ScheduledTask>, s: State) returns (step: Step, n: State)
    requires s.started < STAGE_COUNT && s.todo == {} && s.waiting == 0
    ensures Next(due, s, step, n)
  {
    var tasks := OfStage(due, s.started);
    var looks := AllDropped(tasks);
    forall p | p != Dropped { DroppedAreNowhere(tasks, Placements(looks), p); }
    assert Grouped(tasks, Placements(looks), map[], []);
    step := NextStage(looks, map[], []);
    var lists := JobLists(map[], [], s.worlds != []);
    n := State(s.worlds, s.metas, s.started + 1, s.looks + Restricted(looks, tasks),
               s.placed + Settled(tasks, Placements(looks), s.worlds != []), lists, lists.Keys, {}, 0,
               map j | j in lists :: 0, s.trace);
  }
}
