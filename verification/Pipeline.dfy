/** The task pipeline of one scheduler pass: due tasks are split by stage, each stage by world, and the
    jobs of a stage run side by side with a barrier before the next stage. */
module Pipeline {
  import opened Basics
  import opened TaskQueues
  import Bitmasks
  import Access
  import SystemMetas
  import Injection

  /** Where executeTasksForStage lists a task. */
  datatype Placement = Dropped | Global | InWorld(w: nat)

  /** What the grouping loop reads of a task: its flag, and each session's closed flag and cached world. The reads
      happen one after the other while sessions move, so nothing relates them to each other. 0 is nil. */
  datatype Seen = Seen(closed: bool, world: nat)

  datatype Look = Look(cancelled: bool, seen: seq<Seen>)

  // ---------- placing one task ----------

  /** The world the loop over a task's sessions has settled on, or a failure. */
  datatype Scan = Invalid | Found(w: nat)

  function ScanOf(seen: seq<Seen>, n: nat): Scan
    requires n <= |seen|
  {
    if n == 0 then Found(0) else
    var before := ScanOf(seen, n - 1);
    var s := seen[n - 1];
    if before.Invalid? || s.closed then Invalid
    else if before.w == 0 then Found(s.world)
    else if s.world != before.w then Invalid
    else before
  }

  function PlaceOf(look: Look): Placement {
    if look.cancelled then Dropped
    else if look.seen == [] then Global
    else
      var scan := ScanOf(look.seen, |look.seen|);
      if scan.Invalid? || scan.w == 0 then Dropped else InWorld(scan.w)
  }

  /** The first `k` sessions have no world and the others are in `w`. */
  ghost predicate WorldFrom(seen: seq<Seen>, k: nat, w: nat) {
    && k < |seen|
    && (forall i | 0 <= i < k :: seen[i].world == 0)
    && (forall i | k <= i < |seen| :: seen[i].world == w)
  }

  lemma {:induction false} ScanFinds(seen: seq<Seen>, n: nat, w: nat)
    requires n <= |seen|
    ensures ScanOf(seen, n) == Found(0) <==> forall i | 0 <= i < n :: !seen[i].closed && seen[i].world == 0
    ensures w > 0 ==>
            (ScanOf(seen, n) == Found(w) <==>
             (forall i | 0 <= i < n :: !seen[i].closed) && exists k: nat :: WorldFrom(seen[..n], k, w))
  {
    if n > 0 {
      var m := n - 1;
      ScanFinds(seen, m, w);
      if w > 0 {
        if k: nat :| WorldFrom(seen[..m], k, w) {
          if seen[m].world == w { assert WorldFrom(seen[..n], k, w); }
        }
        if seen[m].world == w && forall i | 0 <= i < m :: seen[i].world == 0 {
          assert WorldFrom(seen[..n], m, w);
        }
        if k: nat :| WorldFrom(seen[..n], k, w) {
          assert seen[..n][m] == seen[m];
          if k < m { assert WorldFrom(seen[..m], k, w); }
        }
      }
    }
  }

  /** Not cancelled, all sessions open, and all of them in `w`, except that leading sessions without any world are
      passed over. */
  ghost predicate FitsWorld(look: Look, w: nat) {
    && !look.cancelled && (forall i | 0 <= i < |look.seen| :: !look.seen[i].closed)
    && exists k: nat :: WorldFrom(look.seen, k, w)
  }

  /** When a task is listed under a world, listed as global, or dropped. */
  lemma PlacedIff(look: Look, w: nat)
    requires w > 0
    ensures PlaceOf(look) == InWorld(w) <==> FitsWorld(look, w)
    ensures PlaceOf(look) == Global <==> !look.cancelled && look.seen == []
    ensures PlaceOf(look) != InWorld(0)
  {
    ScanFinds(look.seen, |look.seen|, w);
    assert look.seen[..|look.seen|] == look.seen;
  }

  /** A task with a session seen closed is dropped. */
  lemma ClosedIsDropped(look: Look, i: nat)
    requires i < |look.seen| && look.seen[i].closed
    ensures PlaceOf(look) == Dropped
  {
    if PlaceOf(look).InWorld? {
      PlacedIff(look, 1);
      PlacedIff(look, PlaceOf(look).w);
    }
  }

  /** A task of two sessions is listed under the second one's world when the first has none, and otherwise only
      when both are in one world. Being listed is not yet being run. */
  lemma PairPlacement(look: Look, a: Seen, b: Seen)
    requires look == Look(false, [a, b]) && !a.closed && !b.closed
    ensures PlaceOf(look) == if a.world == 0 then (if b.world == 0 then Dropped else InWorld(b.world))
                             else if a.world == b.world then InWorld(a.world) else Dropped
  {
    assert ScanOf(look.seen, 1) == Found(a.world);
  }

  /** What the loop reads when nobody interferes. */
  ghost function LookAt(t: ScheduledTask): (look: Look)
    reads t, t.sessions
    ensures look.cancelled == t.cancelled && |look.seen| == |t.sessions|
    ensures forall i | 0 <= i < |t.sessions| :: look.seen[i] == Seen(t.sessions[i].closed, t.sessions[i].world)
  {
    Look(t.cancelled, seq(|t.sessions|, i requires 0 <= i < |t.sessions| reads t.sessions =>
                                          Seen(t.sessions[i].closed, t.sessions[i].world)))
  }

  /** The loop over a task's sessions. */
  method Place(t: ScheduledTask) returns (p: Placement)
    ensures p == PlaceOf(LookAt(t))
  {
    ghost var seen := LookAt(t).seen;
    if t.cancelled {
      return Dropped;
    }
    if |t.sessions| == 0 {
      return Global;
    }
    var allValid := true;
    var taskWorld := 0;
    var i := 0;
    while i < |t.sessions| && allValid
      invariant i <= |t.sessions|
      invariant ScanOf(seen, i) == if allValid then Found(taskWorld) else Invalid
      decreases |t.sessions| - i
    {
      var sess := t.sessions[i];
      if sess.closed {
        allValid := false;
      } else if taskWorld == 0 {
        taskWorld := sess.world;
      } else if sess.world != taskWorld {
        allValid := false;
      }
      i := i + 1;
    }
    StaysInvalid(seen, i, |seen|);
    if !allValid || taskWorld == 0 {
      return Dropped;
    }
    return InWorld(taskWorld);
  }

  lemma {:induction false} StaysInvalid(seen: seq<Seen>, i: nat, n: nat)
    requires i <= n <= |seen|
    ensures ScanOf(seen, i).Invalid? ==> ScanOf(seen, n).Invalid?
  {
    if i < n {
      StaysInvalid(seen, i, n - 1);
    }
  }

  // ---------- running one task ----------

  /** What a job meets when it comes to a task: the flag, the world each session's player is in, and the sessions'
      masks and memory, which the mask check and injection read. */
  datatype Moment = Moment(
    cancelled: bool,
    playerIn: map<Session, nat>,
    sessions: seq<Injection.SessionId>,
    masks: seq<Bitmasks.Bitmask>,
    memory: Injection.World)

  /** Injection finds everything it needs. */
  ghost predicate Injected(meta: SystemMetas.SystemMeta, at: Moment) {
    (|at.sessions| > 0 || meta.isGlobal) && Injection.AllOk(at.memory, at.sessions, meta.fields, |meta.fields|)
  }

  /** The task is run in a transaction of `world`. */
  ghost predicate Executes(t: ScheduledTask, meta: SystemMetas.SystemMeta, world: nat, at: Moment) {
    && !at.cancelled
    && (forall s | s in t.sessions :: s in at.playerIn && at.playerIn[s] == world)
    && Injection.MasksPass(meta, at.masks)
    && Injected(meta, at)
  }

  /** The loop body of executeTasksForWorld and the tests of executeTask, in order. */
  method ExecuteTask(t: ScheduledTask, meta: SystemMetas.SystemMeta, instance: Injection.Instance, world: nat, at: Moment)
      returns (ran: bool)
    requires instance.Fits(meta.fields)
    requires meta.isGlobal ==> forall f | f in meta.fields :: SystemMetas.IsGlobalKind(f.kind)
    modifies instance
    ensures ran <==> Executes(t, meta, world, at)
  {
    if at.cancelled {
      return false;
    }
    for i := 0 to |t.sessions|
      invariant instance.Fits(meta.fields)
      invariant forall j | 0 <= j < i :: t.sessions[j] in at.playerIn && at.playerIn[t.sessions[j]] == world
    {
      var sess := t.sessions[i];
      if !(sess in at.playerIn && at.playerIn[sess] == world) {
        return false;
      }
    }
    var pass := Injection.CheckMasks(meta, at.masks);
    if !pass {
      return false;
    }
    ran := instance.InjectSystem(at.sessions, meta, at.memory);
  }

  /** A task that runs has every required component, and its sessions' masks have passed. */
  lemma RunHasComponents(decls: seq<Access.FieldDecl>, types: SystemMetas.Types, t: ScheduledTask,
                         meta: SystemMetas.SystemMeta, world: nat, at: Moment, i: nat)
    requires SystemMetas.Analyzed(decls, types, meta) && Executes(t, meta, world, at)
    requires i < |decls| && Injection.RequiredComponent(decls, i)
    ensures Injection.MasksPass(meta, at.masks)
    ensures meta.fields[i].window == 0 || meta.fields[i].window < |at.sessions|
    ensures Injection.ComponentOf(at.memory, Injection.SessionFor(at.sessions, meta.fields[i]), meta.fields[i].componentID) != 0
  {
    Injection.OkUpTo(at.memory, at.sessions, meta.fields, |decls|, i);
    assert SystemMetas.FieldFits(decls, types, meta.fields[i], i);
  }

  /** No manager, resource, relation, peer or shared field fails. */
  ghost predicate TargetsThere(decls: seq<Access.FieldDecl>, meta: SystemMetas.SystemMeta, at: Moment)
    requires |decls| == |meta.fields|
  {
    forall i: nat | i < |decls| && Access.KindOf(decls[i]) != Access.KindComponent ::
      Injection.OkAt(at.memory, at.sessions, meta.fields, i)
  }

  /** A task that is not cancelled, whose players are all there, whose masks tell the truth and pass, and whose
      required components the check covers, fails to run only on a missing target. */
  lemma RunFailsOnlyOnTargets(decls: seq<Access.FieldDecl>, types: SystemMetas.Types, t: ScheduledTask,
                              meta: SystemMetas.SystemMeta, world: nat, at: Moment)
    requires SystemMetas.Analyzed(decls, types, meta) && Injection.Admitted(meta, at.memory, at.sessions, at.masks)
    requires !at.cancelled && forall s | s in t.sessions :: s in at.playerIn && at.playerIn[s] == world
    requires |at.sessions| > 0 && forall i: nat | i < |decls| :: meta.fields[i].window < |at.sessions|
    requires forall i: nat | i < |decls| && Injection.RequiredComponent(decls, i) :: Injection.Covered(decls, types, meta, i)
    ensures Executes(t, meta, world, at) <==> TargetsThere(decls, meta, at)
  {
    Injection.OnlyTargetsCanFail(decls, types, meta, at.memory, at.sessions, at.masks);
  }

  // ---------- grouping ----------

  ghost function SessionsOf(tasks: seq<ScheduledTask>): (r: set<Session>)
    ensures forall t, s | t in tasks && s in t.sessions :: s in r
  {
    set t, s | t in tasks && s in t.sessions :: s
  }

  ghost function Looks(tasks: seq<ScheduledTask>): map<ScheduledTask, Look>
    reads Elements(tasks), SessionsOf(tasks)
  {
    map t | t in tasks :: LookAt(t)
  }

  ghost function Placements(looks: map<ScheduledTask, Look>): map<ScheduledTask, Placement> {
    map t | t in looks :: PlaceOf(looks[t])
  }

  /** The tasks with one placement, in order. */
  ghost function PlacedIn(tasks: seq<ScheduledTask>, place: map<ScheduledTask, Placement>, p: Placement): seq<ScheduledTask> {
    if tasks == [] then [] else
    var t := tasks[|tasks| - 1];
    PlacedIn(tasks[..|tasks| - 1], place, p) + if t in place && place[t] == p then [t] else []
  }

  /** The tasks of one stage, in order. */
  ghost function OfStage(tasks: seq<ScheduledTask>, stage: nat): seq<ScheduledTask> {
    if tasks == [] then [] else
    var t := tasks[|tasks| - 1];
    OfStage(tasks[..|tasks| - 1], stage) + if t.stage == stage then [t] else []
  }

  lemma PlacedOneMore(tasks: seq<ScheduledTask>, k: nat, place: map<ScheduledTask, Placement>, p: Placement)
    requires k < |tasks|
    ensures PlacedIn(tasks[..k + 1], place, p) ==
            PlacedIn(tasks[..k], place, p) + if tasks[k] in place && place[tasks[k]] == p then [tasks[k]] else []
  {
    assert tasks[..k + 1][..k] == tasks[..k];
  }

  lemma StageOneMore(tasks: seq<ScheduledTask>, k: nat, stage: nat)
    requires k < |tasks|
    ensures OfStage(tasks[..k + 1], stage) == OfStage(tasks[..k], stage) + if tasks[k].stage == stage then [tasks[k]] else []
  {
    assert tasks[..k + 1][..k] == tasks[..k];
  }

  /** One list per world that some task goes to, and the global list. */
  ghost predicate Grouped(tasks: seq<ScheduledTask>, place: map<ScheduledTask, Placement>,
                          worldTasks: map<nat, seq<ScheduledTask>>, globalTasks: seq<ScheduledTask>) {
    && (forall w | w in worldTasks :: worldTasks[w] == PlacedIn(tasks, place, InWorld(w)) && worldTasks[w] != [])
    && (forall w | w !in worldTasks :: PlacedIn(tasks, place, InWorld(w)) == [])
    && globalTasks == PlacedIn(tasks, place, Global)
  }

  /** Appending to the list of one world, which starts out empty. */
  function Appended(worldTasks: map<nat, seq<ScheduledTask>>, w: nat, task: ScheduledTask): map<nat, seq<ScheduledTask>> {
    worldTasks[w := (if w in worldTasks then worldTasks[w] else []) + [task]]
  }

  /** Appending one task to the list of its placement keeps the lists grouped. */
  lemma GroupOneMore(tasks: seq<ScheduledTask>, k: nat, place: map<ScheduledTask, Placement>,
                     worldTasks: map<nat, seq<ScheduledTask>>, globalTasks: seq<ScheduledTask>)
    requires k < |tasks| && tasks[k] in place
    requires Grouped(tasks[..k], place, worldTasks, globalTasks)
    ensures match place[tasks[k]]
            case Dropped => Grouped(tasks[..k + 1], place, worldTasks, globalTasks)
            case Global => Grouped(tasks[..k + 1], place, worldTasks, globalTasks + [tasks[k]])
            case InWorld(w) => Grouped(tasks[..k + 1], place, Appended(worldTasks, w, tasks[k]), globalTasks)
  {
    forall q
      ensures PlacedIn(tasks[..k + 1], place, q) ==
              PlacedIn(tasks[..k], place, q) + if place[tasks[k]] == q then [tasks[k]] else []
    {
      PlacedOneMore(tasks, k, place, q);
    }
    match place[tasks[k]]
    case Dropped =>
    case Global =>
    case InWorld(w) =>
      var more := Appended(worldTasks, w, tasks[k]);
      assert more[w] == PlacedIn(tasks[..k + 1], place, InWorld(w));
  }

  method GroupByWorld(tasks: seq<ScheduledTask>)
      returns (worldTasks: map<nat, seq<ScheduledTask>>, globalTasks: seq<ScheduledTask>)
    ensures Grouped(tasks, Placements(Looks(tasks)), worldTasks, globalTasks)
  {
    worldTasks, globalTasks := map[], [];
    assert tasks[..0] == [];
    ghost var place := Placements(Looks(tasks));
    for i := 0 to |tasks|
      invariant Grouped(tasks[..i], place, worldTasks, globalTasks)
    {
      var p := Place(tasks[i]);
      assert place[tasks[i]] == p;
      GroupOneMore(tasks, i, place, worldTasks, globalTasks);
      match p
      case Dropped =>
      case Global => globalTasks := globalTasks + [tasks[i]];
      case InWorld(w) =>
        worldTasks := Appended(worldTasks, w, tasks[i]);
    }
    assert tasks[..|tasks|] == tasks;
    assert place == Placements(Looks(tasks));
  }

  method SplitByStage(due: seq<ScheduledTask>) returns (byStage: seq<seq<ScheduledTask>>)
    requires forall t | t in due :: t.stage < STAGE_COUNT
    ensures |byStage| == STAGE_COUNT && forall st: nat | st < STAGE_COUNT :: byStage[st] == OfStage(due, st)
  {
    byStage := [[], [], []];
    for i := 0 to |due|
      invariant |byStage| == STAGE_COUNT && forall st: nat | st < STAGE_COUNT :: byStage[st] == OfStage(due[..i], st)
    {
      var stage := due[i].stage;
      forall st: nat | st < STAGE_COUNT { StageOneMore(due, i, st); }
      byStage := byStage[stage := byStage[stage] + [due[i]]];
    }
    assert due[..|due|] == due;
  }

  // ---------- lists keep order and never share a task ----------

  /** A list in deadline order, without repetition, of tasks taken from `tasks`. */
  ghost predicate Within(list: seq<ScheduledTask>, tasks: seq<ScheduledTask>) {
    SortedByDeadline(list) && Distinct(list) && forall t | t in list :: t in tasks
  }

  lemma WithinOneMore(list: seq<ScheduledTask>, tasks: seq<ScheduledTask>)
    requires tasks != [] && SortedByDeadline(tasks) && Distinct(tasks)
    requires Within(list, tasks[..|tasks| - 1])
    ensures Within(list, tasks) && Within(list + [tasks[|tasks| - 1]], tasks)
  {
    var front, last := tasks[..|tasks| - 1], tasks[|tasks| - 1];
    var more := list + [last];
    forall x | x in list
      ensures x in tasks && x != last && x.executeAt <= last.executeAt
    {
      var k :| 0 <= k < |front| && front[k] == x;
      assert tasks[k] == x;
    }
    forall i, j | 0 <= i < j < |more|
      ensures more[i].executeAt <= more[j].executeAt && more[i] != more[j]
    {
      assert more[i] == list[i];
      assert j < |list| ==> more[j] == list[j];
    }
  }

  lemma {:induction false} PlacedWithin(tasks: seq<ScheduledTask>, place: map<ScheduledTask, Placement>, p: Placement)
    requires SortedByDeadline(tasks) && Distinct(tasks)
    ensures Within(PlacedIn(tasks, place, p), tasks)
    ensures forall t :: t in PlacedIn(tasks, place, p) <==> t in tasks && t in place && place[t] == p
  {
    if tasks != [] {
      var front := tasks[..|tasks| - 1];
      PlacedWithin(front, place, p);
      assert tasks == front + [tasks[|tasks| - 1]];
      WithinOneMore(PlacedIn(front, place, p), tasks);
    }
  }

  lemma {:induction false} StageWithin(tasks: seq<ScheduledTask>, stage: nat)
    requires SortedByDeadline(tasks) && Distinct(tasks)
    ensures Within(OfStage(tasks, stage), tasks)
    ensures forall t :: t in OfStage(tasks, stage) <==> t in tasks && t.stage == stage
  {
    if tasks != [] {
      var front := tasks[..|tasks| - 1];
      StageWithin(front, stage);
      assert tasks == front + [tasks[|tasks| - 1]];
      WithinOneMore(OfStage(front, stage), tasks);
    }
  }
}
