/** One stage of loops over all worlds: a job per world that has sessions walks the batches, tests which loops are
    due, runs those at once in a transaction, and marks them. The jobs run side by side without waiting for each
    other between batches, and share the state of the loops. */
module StageRuns {
  import opened Access
  import opened LoopTimers
  import opened Batching

  /** A loop, by its batch and its position there. */
  datatype At = At(batch: nat, pos: nat)

  /** What a stage works on. `start` is each loop's next run when the stage begins. */
  datatype Stage = Stage(batches: seq<seq<Loop>>, decl: Loop -> seq<FieldDecl>, interval: At -> int, start: At -> int, now: int)

  datatype Phase = Testing(tested: nat) | Inside(running: set<nat>) | Leaving

  /** The job of one world: its batch, and the loops found due that are not marked yet. */
  datatype Job = Job(batch: nat, due: set<nat>, phase: Phase)

  datatype State = State(jobs: seq<Job>, marked: map<At, int>)

  datatype Step =
    | Test(w: nat)               // ShouldRun of the next loop of the batch
    | Enter(w: nat, live: bool)  // the transaction begins; `live`: some session is valid in it
    | Finish(w: nat, pos: nat)   // one loop is through
    | Leave(w: nat)              // all loops of the batch are through
    | Mark(w: nat, pos: nat)     // MarkRun
    | Move(w: nat)               // on to the next batch

  function NextOf(g: Stage, s: State, x: At): int {
    if x in s.marked then s.marked[x] else g.start(x)
  }

  /** ShouldRun, for a next run at `next`. */
  predicate ShouldRunAt(g: Stage, x: At, next: int) {
    g.interval(x) == 0 || !(g.now < next)
  }

  predicate Due(g: Stage, s: State, x: At) {
    ShouldRunAt(g, x, NextOf(g, s, x))
  }

  predicate DueAtStart(g: Stage, x: At) {
    ShouldRunAt(g, x, g.start(x))
  }

  predicate Exists(g: Stage, x: At) {
    x.batch < |g.batches| && x.pos < |g.batches[x.batch]|
  }

  predicate Enabled(g: Stage, s: State, step: Step) {
    step.w < |s.jobs| &&
    var job := s.jobs[step.w];
    job.batch < |g.batches| &&
    var size := |g.batches[job.batch]|;
    match step
    case Test(_) => job.phase.Testing? && job.phase.tested < size
    case Enter(_, _) => job.phase == Testing(size) && job.due != {}
    case Finish(_, pos) => job.phase.Inside? && pos in job.phase.running
    case Leave(_) => job.phase == Inside({})
    case Mark(_, pos) => job.phase.Leaving? && pos in job.due
    case Move(_) => (job.phase == Testing(size) || job.phase.Leaving?) && job.due == {}
  }

  function NewJob(g: Stage, s: State, step: Step): Job
    requires Enabled(g, s, step)
  {
    var job := s.jobs[step.w];
    match step
    case Test(_) =>
      var pos := job.phase.tested;
      job.(due := if Due(g, s, At(job.batch, pos)) then job.due + {pos} else job.due, phase := Testing(pos + 1))
    case Enter(_, live) => job.(phase := Inside(if live then job.due else {}))
    case Finish(_, pos) => job.(phase := Inside(job.phase.running - {pos}))
    case Leave(_) => job.(phase := Leaving)
    case Mark(_, pos) => job.(due := job.due - {pos})
    case Move(_) => Job(job.batch + 1, {}, Testing(0))
  }

  function Do(g: Stage, s: State, step: Step): State
    requires Enabled(g, s, step)
  {
    State(s.jobs[step.w := NewJob(g, s, step)],
          if step.Mark? then
            var x := At(s.jobs[step.w].batch, step.pos);
            s.marked[x := NextRun(g.interval(x), NextOf(g, s, x), g.now)]
          else s.marked)
  }

  /** The stage begins with a job for each of `n` worlds that have sessions. */
  function Begin(n: nat): State {
    State(seq(n, i => Job(0, {}, Testing(0))), map[])
  }

  ghost predicate IsRun(g: Stage, s: State, steps: seq<Step>)
    decreases |steps|
  {
    steps == [] || (Enabled(g, s, steps[0]) && IsRun(g, Do(g, s, steps[0]), steps[1..]))
  }

  ghost function After(g: Stage, s: State, steps: seq<Step>): State
    decreases |steps|
  {
    if steps == [] || !Enabled(g, s, steps[0]) then s else After(g, Do(g, s, steps[0]), steps[1..])
  }

  // ---------- races ----------

  /** The world's job is executing the loop. */
  predicate Running(s: State, w: nat, x: At) {
    w < |s.jobs| && s.jobs[w].batch == x.batch && s.jobs[w].phase.Inside? && x.pos in s.jobs[w].phase.running
  }

  function DeclOf(g: Stage, x: At): seq<FieldDecl>
    requires Exists(g, x)
  {
    g.decl(g.batches[x.batch][x.pos])
  }

  /** Two different executions are under way at once and may race. */
  ghost predicate RaceAt(g: Stage, s: State, w: nat, x: At, v: nat, y: At) {
    && Exists(g, x) && Exists(g, y) && (w != v || x != y)
    && Running(s, w, x) && Running(s, v, y) && MayRace(DeclOf(g, x), DeclOf(g, y), w == v)
  }

  ghost predicate RaceIn(g: Stage, n: nat, steps: seq<Step>) {
    IsRun(g, Begin(n), steps) && exists w, x, v, y :: RaceAt(g, After(g, Begin(n), steps), w, x, v, y)
  }

  /** The batches come from first-fit batching of analysed loops. */
  ghost predicate Prepared(g: Stage, loops: seq<Loop>) {
    IsFirstFit(loops, g.batches) && forall l | l in loops :: Records(l.access, g.decl(l))
  }

  // ---------- what every step keeps ----------

  ghost predicate JobOk(g: Stage, job: Job) {
    && (job.phase.Testing? && job.batch < |g.batches| ==> job.phase.tested <= |g.batches[job.batch]|)
    && (job.batch >= |g.batches| ==> job.due == {} && job.phase.Testing?)
    && (forall pos | pos in job.due :: Exists(g, At(job.batch, pos)) && DueAtStart(g, At(job.batch, pos)))
    && (job.phase.Inside? ==> job.phase.running <= job.due)
  }

  /** Only loops that were due when the stage began are ever found due, executed or marked. */
  ghost predicate Inv(g: Stage, s: State) {
    && (forall w | 0 <= w < |s.jobs| :: JobOk(g, s.jobs[w]))
    && (forall x | x in s.marked :: DueAtStart(g, x))
  }

  lemma InvStep(g: Stage, s: State, step: Step)
    requires Inv(g, s) && Enabled(g, s, step)
    ensures Inv(g, Do(g, s, step))
  {
    assert JobOk(g, s.jobs[step.w]);
    assert JobOk(g, NewJob(g, s, step));
  }

  lemma {:induction false} AlwaysInv(g: Stage, s: State, steps: seq<Step>)
    requires Inv(g, s) && IsRun(g, s, steps)
    ensures Inv(g, After(g, s, steps)) && |After(g, s, steps).jobs| == |s.jobs|
    decreases |steps|
  {
    if steps != [] {
      InvStep(g, s, steps[0]);
      AlwaysInv(g, Do(g, s, steps[0]), steps[1..]);
    }
  }

  // ---------- the timers over a stage ----------

  /** The step is the marking of the loop, by any world's job. */
  predicate MarksLoop(s: State, step: Step, x: At) {
    step.Mark? && step.w < |s.jobs| && At(s.jobs[step.w].batch, step.pos) == x
  }

  /** The step is the test of the loop by the job of `w`, and finds it due. */
  predicate FindsDue(g: Stage, s: State, step: Step, w: nat, x: At) {
    && step == Test(w) && w < |s.jobs| && s.jobs[w].phase.Testing? && At(s.jobs[w].batch, s.jobs[w].phase.tested) == x
    && (g.interval(x) == 0 || NextOf(g, s, x) <= g.now)
  }

  ghost function Marks(g: Stage, s: State, steps: seq<Step>, x: At): nat
    requires IsRun(g, s, steps)
    decreases |steps|
  {
    if steps == [] then 0
    else (if MarksLoop(s, steps[0], x) then 1 else 0) + Marks(g, Do(g, s, steps[0]), steps[1..], x)
  }

  ghost function MarksBy(g: Stage, s: State, steps: seq<Step>, w: nat, x: At): nat
    requires IsRun(g, s, steps)
    decreases |steps|
  {
    if steps == [] then 0
    else (if steps[0].w == w && MarksLoop(s, steps[0], x) then 1 else 0) + MarksBy(g, Do(g, s, steps[0]), steps[1..], w, x)
  }

  ghost function FoundBy(g: Stage, s: State, steps: seq<Step>, w: nat, x: At): nat
    requires IsRun(g, s, steps)
    decreases |steps|
  {
    if steps == [] then 0
    else (if FindsDue(g, s, steps[0], w, x) then 1 else 0) + FoundBy(g, Do(g, s, steps[0]), steps[1..], w, x)
  }

  /** The next run after `n` markings at one moment. */
  ghost function MarkedTimes(interval: int, next: int, now: int, n: nat): int
    decreases n
  {
    if n == 0 then next else MarkedTimes(interval, NextRun(interval, next, now), now, n - 1)
  }

  /** After any part of a stage a loop's next run is what so many markings make of it. */
  lemma {:induction false} NextIsMarked(g: Stage, s: State, steps: seq<Step>, x: At)
    requires IsRun(g, s, steps)
    ensures NextOf(g, After(g, s, steps), x) == MarkedTimes(g.interval(x), NextOf(g, s, x), g.now, Marks(g, s, steps, x))
    decreases |steps|
  {
    if steps != [] {
      NextIsMarked(g, Do(g, s, steps[0]), steps[1..], x);
    }
  }

  lemma {:induction false} LaterStays(interval: int, next: int, now: int, n: nat)
    requires interval > 0 && next > now
    ensures MarkedTimes(interval, next, now, n) > now
    decreases n
  {
    if n > 0 {
      LaterStays(interval, NextRun(interval, next, now), now, n - 1);
    }
  }

  /** A loop with an interval that was due when the stage began is due again, for another world, exactly before its
      first marking, or after exactly one if it was late by exactly one interval. */
  lemma DueAgainIff(g: Stage, n: nat, steps: seq<Step>, x: At)
    requires IsRun(g, Begin(n), steps) && g.interval(x) > 0 && g.start(x) <= g.now
    ensures var marks := Marks(g, Begin(n), steps, x);
            NextOf(g, After(g, Begin(n), steps), x) <= g.now <==>
            marks == 0 || (marks == 1 && g.start(x) + g.interval(x) == g.now)
  {
    var marks := Marks(g, Begin(n), steps, x);
    NextIsMarked(g, Begin(n), steps, x);
    if marks > 0 {
      var next := NextRun(g.interval(x), g.start(x), g.now);
      if next > g.now {
        LaterStays(g.interval(x), next, g.now, marks - 1);
      } else if marks > 1 {
        LaterStays(g.interval(x), NextRun(g.interval(x), next, g.now), g.now, marks - 2);
      }
    }
  }

  /** Outstanding: the job of `w` has found the loop due and not marked it yet. */
  function Owed(s: State, w: nat, x: At): nat {
    if w < |s.jobs| && s.jobs[w].batch == x.batch && x.pos in s.jobs[w].due then 1 else 0
  }

  lemma OwedStep(g: Stage, s: State, step: Step, w: nat, x: At)
    requires TestedFresh(s) && Enabled(g, s, step)
    ensures TestedFresh(Do(g, s, step))
    ensures Owed(Do(g, s, step), w, x) + (if step.w == w && MarksLoop(s, step, x) then 1 else 0) ==
            Owed(s, w, x) + if FindsDue(g, s, step, w, x) then 1 else 0
  {
    var n := Do(g, s, step);
    forall v | 0 <= v < |n.jobs|
      ensures FreshJob(n.jobs[v])
    {
      assert FreshJob(s.jobs[v]);
    }
    assert FreshJob(s.jobs[step.w]);
  }

  /** While a batch is being tested, only loops tested so far have been found due. */
  predicate FreshJob(job: Job) {
    job.phase.Testing? ==> forall pos | pos in job.due :: pos < job.phase.tested
  }

  ghost predicate TestedFresh(s: State) {
    forall v | 0 <= v < |s.jobs| :: FreshJob(s.jobs[v])
  }

  /** Every world marks each loop as often as it found it due, except for a marking that is still to come; none is once
      the world is past the loop's batch. */
  lemma {:induction false} FoundIsMarked(g: Stage, s: State, steps: seq<Step>, w: nat, x: At)
    requires TestedFresh(s) && IsRun(g, s, steps)
    ensures Owed(s, w, x) + FoundBy(g, s, steps, w, x) == MarksBy(g, s, steps, w, x) + Owed(After(g, s, steps), w, x)
    decreases |steps|
  {
    if steps != [] {
      OwedStep(g, s, steps[0], w, x);
      FoundIsMarked(g, Do(g, s, steps[0]), steps[1..], w, x);
    }
  }

  // ---------- every execution comes to its end ----------

  /** The transaction of `w` begins with the loop among those to run. */
  predicate StartsLoop(s: State, step: Step, w: nat, x: At) {
    step == Enter(w, true) && w < |s.jobs| && s.jobs[w].batch == x.batch && x.pos in s.jobs[w].due
  }

  predicate EndsLoop(s: State, step: Step, w: nat, x: At) {
    step == Finish(w, x.pos) && w < |s.jobs| && s.jobs[w].batch == x.batch
  }

  ghost function Starts(g: Stage, s: State, steps: seq<Step>, w: nat, x: At): nat
    requires IsRun(g, s, steps)
    decreases |steps|
  {
    if steps == [] then 0
    else (if StartsLoop(s, steps[0], w, x) then 1 else 0) + Starts(g, Do(g, s, steps[0]), steps[1..], w, x)
  }

  ghost function Ends(g: Stage, s: State, steps: seq<Step>, w: nat, x: At): nat
    requires IsRun(g, s, steps)
    decreases |steps|
  {
    if steps == [] then 0
    else (if EndsLoop(s, steps[0], w, x) then 1 else 0) + Ends(g, Do(g, s, steps[0]), steps[1..], w, x)
  }

  lemma ExecutionStep(g: Stage, s: State, step: Step, w: nat, x: At)
    requires Enabled(g, s, step)
    ensures (if Running(Do(g, s, step), w, x) then 1 else 0) + (if EndsLoop(s, step, w, x) then 1 else 0) ==
            (if Running(s, w, x) then 1 else 0) + (if StartsLoop(s, step, w, x) then 1 else 0)
  {}

  /** Every execution that a world starts ends by itself, unless it is still under way: a world leaves a batch only when
      all of them have, and none ends another. */
  lemma {:induction false} StartedIsEnded(g: Stage, s: State, steps: seq<Step>, w: nat, x: At)
    requires IsRun(g, s, steps)
    ensures (if Running(s, w, x) then 1 else 0) + Starts(g, s, steps, w, x) ==
            Ends(g, s, steps, w, x) + if Running(After(g, s, steps), w, x) then 1 else 0
    decreases |steps|
  {
    if steps != [] {
      ExecutionStep(g, s, steps[0], w, x);
      StartedIsEnded(g, Do(g, s, steps[0]), steps[1..], w, x);
    }
  }

  /** After its tests a world either enters a transaction, when some loop was due, or goes on without one. */
  lemma EntersOrSkips(g: Stage, s: State, w: nat, live: bool)
    requires w < |s.jobs| && s.jobs[w].batch < |g.batches|
    requires s.jobs[w].phase == Testing(|g.batches[s.jobs[w].batch]|)
    ensures Enabled(g, s, Enter(w, live)) <==> exists pos :: pos in s.jobs[w].due
    ensures Enabled(g, s, Move(w)) <==> !Enabled(g, s, Enter(w, live))
  {}

  // ---------- one world, and several ----------

  /** A race inside one world: two due loops of one batch race through a peer or shared field. */
  ghost predicate FarRaceInBatch(g: Stage) {
    exists x, y :: Exists(g, x) && Exists(g, y) && x.batch == y.batch && x != y
                   && DueAtStart(g, x) && DueAtStart(g, y) && FarRace(DeclOf(g, x), DeclOf(g, y))
  }

  /** A race between worlds: two due loops of any batches, or one with itself, reach the same memory. */
  ghost predicate RaceAcross(g: Stage) {
    exists x, y :: Exists(g, x) && Exists(g, y) && DueAtStart(g, x) && DueAtStart(g, y)
                   && MayRace(DeclOf(g, x), DeclOf(g, y), false)
  }

  /** Two loops of one batch race exactly through peer or shared fields. */
  lemma BatchRaceIsFar(g: Stage, loops: seq<Loop>, x: At, y: At)
    requires Prepared(g, loops) && Exists(g, x) && Exists(g, y) && x.batch == y.batch && x != y
    ensures MayRace(DeclOf(g, x), DeclOf(g, y), true) <==> FarRace(DeclOf(g, x), DeclOf(g, y))
  {
    var a, b := g.batches[x.batch][x.pos], g.batches[y.batch][y.pos];
    NoClashInBatch(loops, g.batches, x.batch, x.pos, y.pos);
    BatchedAreLoops(loops, g.batches, x.batch, x.pos);
    BatchedAreLoops(loops, g.batches, y.batch, y.pos);
    ConflictIffNearRace(a.access, b.access, g.decl(a), g.decl(b));
  }

  lemma BatchedAreLoops(loops: seq<Loop>, batches: seq<seq<Loop>>, k: nat, pos: nat)
    requires IsFirstFit(loops, batches) && k < |batches| && pos < |batches[k]|
    ensures batches[k][pos] in loops
  {
    ColouredHas(loops, |loops|, k, batches[k][pos]);
  }

  lemma RunningIsDue(g: Stage, s: State, w: nat, x: At)
    requires Inv(g, s) && Running(s, w, x)
    ensures Exists(g, x) && DueAtStart(g, x)
  {
    assert JobOk(g, s.jobs[w]);
    assert At(s.jobs[w].batch, x.pos) == x;
  }

  lemma RaceNeedsCondition(g: Stage, loops: seq<Loop>, n: nat, steps: seq<Step>)
    requires Prepared(g, loops) && RaceIn(g, n, steps)
    ensures (n >= 1 && FarRaceInBatch(g)) || (n >= 2 && RaceAcross(g))
  {
    AlwaysInv(g, Begin(n), steps);
    var s := After(g, Begin(n), steps);
    var w, x, v, y :| RaceAt(g, s, w, x, v, y);
    RunningIsDue(g, s, w, x);
    RunningIsDue(g, s, v, y);
    if w == v {
      BatchRaceIsFar(g, loops, x, y);
    }
  }

  // ---------- driving a world to a batch ----------

  lemma {:induction false} Concat(g: Stage, s: State, a: seq<Step>, b: seq<Step>)
    requires IsRun(g, s, a) && IsRun(g, After(g, s, a), b)
    ensures IsRun(g, s, a + b) && After(g, s, a + b) == After(g, After(g, s, a), b)
    decreases |a|
  {
    if a == [] {
      assert a + b == b;
    } else {
      assert (a + b)[1..] == a[1..] + b;
      Concat(g, Do(g, s, a[0]), a[1..], b);
    }
  }

  lemma First(g: Stage, s: State, step: Step, rest: seq<Step>)
    requires Enabled(g, s, step) && IsRun(g, Do(g, s, step), rest)
    ensures IsRun(g, s, [step] + rest) && After(g, s, [step] + rest) == After(g, Do(g, s, step), rest)
  {
    assert ([step] + rest)[1..] == rest;
  }

  /** The loops of batch `k` that are due, among the first `n`. */
  ghost function DueIn(g: Stage, s: State, k: nat, n: nat): set<nat> {
    set pos: nat | pos < n && Due(g, s, At(k, pos))
  }

  /** Testing the rest of the batch finds what is due. */
  lemma {:induction false} TestAll(g: Stage, s: State, w: nat, n: nat) returns (steps: seq<Step>)
    requires w < |s.jobs| && s.jobs[w].batch < |g.batches| && n <= |g.batches[s.jobs[w].batch]|
    requires s.jobs[w] == Job(s.jobs[w].batch, DueIn(g, s, s.jobs[w].batch, n), Testing(n))
    ensures forall st | st in steps :: st.w == w
    ensures IsRun(g, s, steps)
    ensures var k := s.jobs[w].batch;
            var size := |g.batches[k]|;
            After(g, s, steps) == State(s.jobs[w := Job(k, DueIn(g, s, k, size), Testing(size))], s.marked)
    decreases |g.batches[s.jobs[w].batch]| - n
  {
    var k := s.jobs[w].batch;
    if n == |g.batches[k]| {
      steps := [];
      assert s.jobs[w := s.jobs[w]] == s.jobs;
    } else {
      var next := Do(g, s, Test(w));
      assert forall pos: nat :: Due(g, next, At(k, pos)) == Due(g, s, At(k, pos));
      assert DueIn(g, next, k, n + 1) == if Due(g, s, At(k, n)) then DueIn(g, s, k, n) + {n} else DueIn(g, s, k, n);
      var rest := TestAll(g, next, w, n + 1);
      assert DueIn(g, next, k, |g.batches[k]|) == DueIn(g, s, k, |g.batches[k]|);
      First(g, s, Test(w), rest);
      steps := [Test(w)] + rest;
      assert next.jobs[w := After(g, next, rest).jobs[w]] == s.jobs[w := After(g, next, rest).jobs[w]];
    }
  }

  /** Only the job of `w` has moved, and only loops of the batches in between have been marked. */
  ghost predicate Moved(g: Stage, s: State, n: State, w: nat, job: Job, lo: nat, hi: nat)
    requires w < |s.jobs|
  {
    n.jobs == s.jobs[w := job] && forall x: At | !(lo <= x.batch < hi) :: NextOf(g, n, x) == NextOf(g, s, x)
  }

  lemma {:induction false} FinishAll(g: Stage, s: State, w: nat) returns (steps: seq<Step>)
    requires w < |s.jobs| && s.jobs[w].batch < |g.batches| && s.jobs[w].phase.Inside?
    ensures forall st | st in steps :: st.w == w
    ensures IsRun(g, s, steps) && After(g, s, steps) == State(s.jobs[w := s.jobs[w].(phase := Inside({}))], s.marked)
    decreases s.jobs[w].phase.running
  {
    if s.jobs[w].phase.running == {} {
      steps := [];
      assert s.jobs[w := s.jobs[w]] == s.jobs;
    } else {
      var pos :| pos in s.jobs[w].phase.running;
      var rest := FinishAll(g, Do(g, s, Finish(w, pos)), w);
      First(g, s, Finish(w, pos), rest);
      steps := [Finish(w, pos)] + rest;
    }
  }

  lemma {:induction false} MarkAll(g: Stage, s: State, w: nat) returns (steps: seq<Step>)
    requires w < |s.jobs| && s.jobs[w].batch < |g.batches| && s.jobs[w].phase.Leaving?
    ensures forall st | st in steps :: st.w == w
    ensures IsRun(g, s, steps)
    ensures Moved(g, s, After(g, s, steps), w, s.jobs[w].(due := {}), s.jobs[w].batch, s.jobs[w].batch + 1)
    decreases s.jobs[w].due
  {
    if s.jobs[w].due == {} {
      steps := [];
      assert s.jobs[w := s.jobs[w]] == s.jobs;
    } else {
      var pos :| pos in s.jobs[w].due;
      var rest := MarkAll(g, Do(g, s, Mark(w, pos)), w);
      First(g, s, Mark(w, pos), rest);
      steps := [Mark(w, pos)] + rest;
    }
  }

  lemma Once(g: Stage, s: State, steps: seq<Step>, step: Step) returns (more: seq<Step>)
    requires IsRun(g, s, steps) && Enabled(g, After(g, s, steps), step)
    ensures forall st | st in more :: st in steps || st == step
    ensures IsRun(g, s, more) && After(g, s, more) == Do(g, After(g, s, steps), step)
  {
    First(g, After(g, s, steps), step, []);
    Concat(g, s, steps, [step] + []);
    more := steps + ([step] + []);
  }

  /** From the transaction of a batch to the next batch. */
  lemma LeaveBatch(g: Stage, s: State, w: nat) returns (steps: seq<Step>)
    requires w < |s.jobs| && s.jobs[w].batch < |g.batches| && s.jobs[w].phase.Inside?
    ensures forall st | st in steps :: st.w == w
    ensures IsRun(g, s, steps)
    ensures Moved(g, s, After(g, s, steps), w, Job(s.jobs[w].batch + 1, {}, Testing(0)), s.jobs[w].batch, s.jobs[w].batch + 1)
  {
    var finish := FinishAll(g, s, w);
    var leave := Once(g, s, finish, Leave(w));
    var mark := MarkAndMove(g, After(g, s, leave), w);
    Concat(g, s, leave, mark);
    steps := leave + mark;
    assert After(g, s, leave).jobs[w := Job(s.jobs[w].batch + 1, {}, Testing(0))] == s.jobs[w := Job(s.jobs[w].batch + 1, {}, Testing(0))];
  }

  lemma MarkAndMove(g: Stage, s: State, w: nat) returns (steps: seq<Step>)
    requires w < |s.jobs| && s.jobs[w].batch < |g.batches| && s.jobs[w].phase.Leaving?
    ensures forall st | st in steps :: st.w == w
    ensures IsRun(g, s, steps)
    ensures Moved(g, s, After(g, s, steps), w, Job(s.jobs[w].batch + 1, {}, Testing(0)), s.jobs[w].batch, s.jobs[w].batch + 1)
  {
    var mark := MarkAll(g, s, w);
    steps := Once(g, s, mark, Move(w));
  }

  /** Into the transaction of the current batch, with everything running that is due. */
  lemma EnterBatch(g: Stage, s: State, w: nat) returns (steps: seq<Step>)
    requires w < |s.jobs| && s.jobs[w] == Job(s.jobs[w].batch, {}, Testing(0)) && s.jobs[w].batch < |g.batches|
    requires DueIn(g, s, s.jobs[w].batch, |g.batches[s.jobs[w].batch]|) != {}
    ensures forall st | st in steps :: st.w == w
    ensures IsRun(g, s, steps)
    ensures var k := s.jobs[w].batch;
            var due := DueIn(g, s, k, |g.batches[k]|);
            After(g, s, steps) == State(s.jobs[w := Job(k, due, Inside(due))], s.marked)
  {
    assert DueIn(g, s, s.jobs[w].batch, 0) == {};
    var test := TestAll(g, s, w, 0);
    steps := Once(g, s, test, Enter(w, true));
  }

  lemma PassBatch(g: Stage, s: State, w: nat) returns (steps: seq<Step>)
    requires w < |s.jobs| && s.jobs[w] == Job(s.jobs[w].batch, {}, Testing(0)) && s.jobs[w].batch < |g.batches|
    ensures forall st | st in steps :: st.w == w
    ensures IsRun(g, s, steps)
    ensures Moved(g, s, After(g, s, steps), w, Job(s.jobs[w].batch + 1, {}, Testing(0)), s.jobs[w].batch, s.jobs[w].batch + 1)
  {
    var k := s.jobs[w].batch;
    if DueIn(g, s, k, |g.batches[k]|) == {} {
      assert DueIn(g, s, k, 0) == {};
      var test := TestAll(g, s, w, 0);
      steps := Once(g, s, test, Move(w));
    } else {
      var enter := EnterBatch(g, s, w);
      var leave := LeaveBatch(g, After(g, s, enter), w);
      Concat(g, s, enter, leave);
      steps := enter + leave;
    }
  }

  lemma {:induction false} PassBatches(g: Stage, s: State, w: nat, k: nat) returns (steps: seq<Step>)
    requires w < |s.jobs| && s.jobs[w] == Job(s.jobs[w].batch, {}, Testing(0)) && s.jobs[w].batch <= k <= |g.batches|
    ensures forall st | st in steps :: st.w == w
    ensures IsRun(g, s, steps)
    ensures Moved(g, s, After(g, s, steps), w, Job(k, {}, Testing(0)), s.jobs[w].batch, k)
    decreases k - s.jobs[w].batch
  {
    if s.jobs[w].batch == k {
      steps := [];
      assert s.jobs[w := s.jobs[w]] == s.jobs;
    } else {
      var pass := PassBatch(g, s, w);
      var next := After(g, s, pass);
      var rest := PassBatches(g, next, w, k);
      Concat(g, s, pass, rest);
      steps := pass + rest;
      assert next.jobs[w := Job(k, {}, Testing(0))] == s.jobs[w := Job(k, {}, Testing(0))];
    }
  }

  /** A world at the start of its batches can come to execute any loop that is still due then. */
  lemma ComeToRun(g: Stage, s: State, w: nat, x: At) returns (steps: seq<Step>)
    requires w < |s.jobs| && s.jobs[w] == Job(0, {}, Testing(0)) && Exists(g, x)
    requires forall pos: nat :: NextOf(g, s, At(x.batch, pos)) == g.start(At(x.batch, pos))
    requires DueAtStart(g, x)
    ensures forall st | st in steps :: st.w == w
    ensures IsRun(g, s, steps)
    ensures var n := After(g, s, steps);
            && |n.jobs| == |s.jobs| && (forall v | 0 <= v < |s.jobs| && v != w :: n.jobs[v] == s.jobs[v])
            && n.jobs[w].batch == x.batch && n.jobs[w].phase.Inside?
            && (forall y | Exists(g, y) && y.batch == x.batch && DueAtStart(g, y) :: Running(n, w, y))
            && (forall y: At | y.batch >= x.batch :: NextOf(g, n, y) == NextOf(g, s, y))
  {
    var pass := PassBatches(g, s, w, x.batch);
    var there := After(g, s, pass);
    assert forall y: At | y.batch >= x.batch :: NextOf(g, there, y) == NextOf(g, s, y);
    assert At(x.batch, x.pos) == x && x.pos in DueIn(g, there, x.batch, |g.batches[x.batch]|);
    var enter := EnterBatch(g, there, w);
    Concat(g, s, pass, enter);
    steps := pass + enter;
    var n := After(g, s, steps);
    forall y | Exists(g, y) && y.batch == x.batch && DueAtStart(g, y)
      ensures Running(n, w, y)
    {
      assert y == At(x.batch, y.pos);
    }
  }

  lemma RaceInOneWorld(g: Stage, loops: seq<Loop>, n: nat) returns (steps: seq<Step>)
    requires Prepared(g, loops) && n >= 1 && FarRaceInBatch(g)
    ensures RaceIn(g, n, steps) && forall st | st in steps :: st.w == 0
  {
    var x, y :| Exists(g, x) && Exists(g, y) && x.batch == y.batch && x != y
                && DueAtStart(g, x) && DueAtStart(g, y) && FarRace(DeclOf(g, x), DeclOf(g, y));
    BatchRaceIsFar(g, loops, x, y);
    steps := ComeToRun(g, Begin(n), 0, x);
    assert RaceAt(g, After(g, Begin(n), steps), 0, x, 0, y);
  }

  lemma RaceInTwoWorlds(g: Stage, n: nat, w: nat, v: nat) returns (steps: seq<Step>)
    requires w < n && v < n && w != v && RaceAcross(g)
    ensures RaceIn(g, n, steps) && forall st | st in steps :: st.w == w || st.w == v
  {
    var x, y :| Exists(g, x) && Exists(g, y) && DueAtStart(g, x) && DueAtStart(g, y)
                && MayRace(DeclOf(g, x), DeclOf(g, y), false);
    MayRaceIsSymmetric(DeclOf(g, x), DeclOf(g, y), false);
    steps := RaceOfTwo(g, n, w, v, if x.batch <= y.batch then x else y, if x.batch <= y.batch then y else x);
  }

  /** The first world stays with its loop while the second catches up or goes further. */
  lemma RaceOfTwo(g: Stage, n: nat, w: nat, v: nat, x: At, y: At) returns (steps: seq<Step>)
    requires w < n && v < n && w != v && Exists(g, x) && Exists(g, y) && x.batch <= y.batch
    requires DueAtStart(g, x) && DueAtStart(g, y) && MayRace(DeclOf(g, x), DeclOf(g, y), false)
    ensures RaceIn(g, n, steps) && forall st | st in steps :: st.w == w || st.w == v
  {
    var first := ComeToRun(g, Begin(n), w, x);
    var there := After(g, Begin(n), first);
    var second := ComeToRun(g, there, v, y);
    Concat(g, Begin(n), first, second);
    steps := first + second;
    assert Running(there, w, x);
    assert RaceAt(g, After(g, Begin(n), steps), w, x, v, y);
  }

  /** When all jobs run at once: two executions that race can be under way exactly when some world has sessions and two
      due loops of one batch race through a peer or shared field, or several worlds have sessions and two due loops, or
      one with itself, reach the same memory from different worlds. */
  lemma RaceIffCondition(g: Stage, loops: seq<Loop>, n: nat)
    requires Prepared(g, loops)
    ensures (exists steps :: RaceIn(g, n, steps)) <==> (n >= 1 && FarRaceInBatch(g)) || (n >= 2 && RaceAcross(g))
  {
    if steps :| RaceIn(g, n, steps) {
      RaceNeedsCondition(g, loops, n, steps);
    }
    if n >= 1 && FarRaceInBatch(g) {
      var steps := RaceInOneWorld(g, loops, n);
    } else if n >= 2 && RaceAcross(g) {
      var steps := RaceInTwoWorlds(g, n, 0, 1);
    }
  }

  /** With sessions in one world only, loops without peer and shared fields never race. */
  lemma OneWorldIsRaceFree(g: Stage, loops: seq<Loop>, steps: seq<Step>)
    requires Prepared(g, loops)
    requires forall x | Exists(g, x) :: forall d | d in DeclOf(g, x) :: !ReachesFar(d)
    ensures !RaceIn(g, 1, steps)
  {
    forall x, y | Exists(g, x) && Exists(g, y)
      ensures !FarRace(DeclOf(g, x), DeclOf(g, y))
    {}
    if RaceIn(g, 1, steps) {
      RaceNeedsCondition(g, loops, 1, steps);
    }
  }

  /** A due loop with a mutable resource races with itself as soon as two worlds have sessions. */
  lemma ResourceRacesWithItself(g: Stage, n: nat, x: At, f: FieldDecl) returns (steps: seq<Step>)
    requires n >= 2 && Exists(g, x) && DueAtStart(g, x)
    requires f in DeclOf(g, x) && KindOf(f) == KindResource && f.tag.mutable
    ensures RaceIn(g, n, steps)
  {
    assert Meet(f, f, false);
    steps := RaceOfTwo(g, n, 0, 1, x, x);
  }

  // ---------- nobody waits ----------

  /** A world's job never waits for another: until it is past the last batch it can take a step. */
  lemma JobGoesOn(g: Stage, s: State, w: nat) returns (step: Step)
    requires Inv(g, s) && w < |s.jobs| && s.jobs[w].batch < |g.batches|
    ensures step.w == w && Enabled(g, s, step)
  {
    var job := s.jobs[w];
    assert JobOk(g, job);
    match job.phase
    case Testing(tested) =>
      step := if tested < |g.batches[job.batch]| then Test(w) else if job.due != {} then Enter(w, true) else Move(w);
    case Inside(running) =>
      if running == {} {
        step := Leave(w);
      } else {
        var pos :| pos in running;
        step := Finish(w, pos);
      }
    case Leaving =>
      if job.due == {} {
        step := Move(w);
      } else {
        var pos :| pos in job.due;
        step := Mark(w, pos);
      }
  }
}
