/** The jobs of a stage on the worker pool: the scheduler hands each world's job to a channel of four places per worker,
    and runs it itself when the channel is full. */
module WorkerPools {
  import opened Access
  import opened Batching
  import opened StageRuns

  /** Places in the pool's channel per worker. */
  const PLACES: nat := 4

  /** `inline` holds the job the scheduler runs itself, if any. */
  datatype Pool = Pool(todo: set<nat>, queue: seq<nat>, active: set<nat>, inline: set<nat>)

  datatype Full = Full(pool: Pool, stage: State)

  datatype PoolStep =
    | Submit(w: nat)     // the scheduler comes to the next world
    | Take               // an idle worker receives a job
    | Release(w: nat)    // a job returns
    | Work(step: Step)   // a step of a job that has started

  predicate Started(p: Pool, w: nat) {
    w in p.active || w in p.inline
  }

  predicate PoolEnabled(g: Stage, workers: nat, f: Full, step: PoolStep) {
    match step
    case Submit(w) => w in f.pool.todo && f.pool.inline == {}
    case Take => f.pool.queue != [] && |f.pool.active| < workers
    case Release(w) => Started(f.pool, w) && w < |f.stage.jobs| && f.stage.jobs[w].batch >= |g.batches|
    case Work(st) => Started(f.pool, st.w) && Enabled(g, f.stage, st)
  }

  function PoolDo(g: Stage, workers: nat, f: Full, step: PoolStep): Full
    requires PoolEnabled(g, workers, f, step)
  {
    var p := f.pool;
    match step
    case Submit(w) =>
      if |p.queue| < PLACES * workers then f.(pool := p.(todo := p.todo - {w}, queue := p.queue + [w]))
      else f.(pool := p.(todo := p.todo - {w}, inline := {w}))
    case Take => f.(pool := p.(queue := p.queue[1..], active := p.active + {p.queue[0]}))
    case Release(w) => f.(pool := p.(active := p.active - {w}, inline := p.inline - {w}))
    case Work(st) => f.(stage := Do(g, f.stage, st))
  }

  ghost function Worlds(n: nat): (r: set<nat>)
    ensures |r| == n && forall w: nat :: w in r <==> w < n
  {
    if n == 0 then {} else Worlds(n - 1) + {n - 1}
  }

  /** The stage begins with the jobs of `n` worlds to hand out and every worker idle. */
  ghost function PoolBegin(n: nat): Full {
    Full(Pool(Worlds(n), [], {}, {}), Begin(n))
  }

  ghost predicate PoolRun(g: Stage, workers: nat, f: Full, steps: seq<PoolStep>)
    decreases |steps|
  {
    steps == [] || (PoolEnabled(g, workers, f, steps[0]) && PoolRun(g, workers, PoolDo(g, workers, f, steps[0]), steps[1..]))
  }

  ghost function PoolAfter(g: Stage, workers: nat, f: Full, steps: seq<PoolStep>): Full
    decreases |steps|
  {
    if steps == [] || !PoolEnabled(g, workers, f, steps[0]) then f
    else PoolAfter(g, workers, PoolDo(g, workers, f, steps[0]), steps[1..])
  }

  ghost predicate PoolRace(g: Stage, workers: nat, n: nat, steps: seq<PoolStep>) {
    && PoolRun(g, workers, PoolBegin(n), steps)
    && exists w, x, v, y :: RaceAt(g, PoolAfter(g, workers, PoolBegin(n), steps).stage, w, x, v, y)
  }

  // ---------- how many jobs run at once ----------

  /** The pool deals with the worlds of the stage only. */
  ghost predicate WorldsBelow(n: nat, p: Pool) {
    forall w: nat | w in p.todo || w in p.queue || Started(p, w) :: w < n
  }

  lemma WorldsStayBelow(g: Stage, workers: nat, n: nat, f: Full, step: PoolStep)
    requires WorldsBelow(n, f.pool) && PoolEnabled(g, workers, f, step)
    ensures WorldsBelow(n, PoolDo(g, workers, f, step).pool)
  {
    var next := PoolDo(g, workers, f, step).pool;
    forall w: nat | w in next.todo || w in next.queue || Started(next, w)
      ensures w < n
    {
      assert w in f.pool.todo || w in f.pool.queue || Started(f.pool, w);
    }
  }

  /** The scheduler runs a job itself only when there are more worlds than places; only started jobs execute loops. */
  ghost predicate PoolInv(g: Stage, workers: nat, n: nat, f: Full) {
    && |f.pool.todo| + |f.pool.queue| <= n
    && WorldsBelow(n, f.pool)
    && |f.pool.active| <= workers
    && (f.pool.inline != {} ==> n > PLACES * workers)
    && (forall w | 0 <= w < |f.stage.jobs| && f.stage.jobs[w].phase.Inside? :: Started(f.pool, w))
    && Inv(g, f.stage)
  }

  lemma PoolInvStep(g: Stage, workers: nat, n: nat, f: Full, step: PoolStep)
    requires PoolInv(g, workers, n, f) && PoolEnabled(g, workers, f, step)
    ensures PoolInv(g, workers, n, PoolDo(g, workers, f, step))
  {
    WorldsStayBelow(g, workers, n, f, step);
    match step
    case Submit(w) => assert f.pool.todo == (f.pool.todo - {w}) + {w};
    case Take =>
    case Release(w) => assert JobOk(g, f.stage.jobs[w]);
    case Work(st) => InvStep(g, f.stage, st);
  }

  lemma {:induction false} AlwaysPoolInv(g: Stage, workers: nat, n: nat, f: Full, steps: seq<PoolStep>)
    requires PoolInv(g, workers, n, f) && PoolRun(g, workers, f, steps)
    ensures PoolInv(g, workers, n, PoolAfter(g, workers, f, steps))
    ensures |PoolAfter(g, workers, f, steps).stage.jobs| == |f.stage.jobs|
    decreases |steps|
  {
    if steps != [] {
      PoolInvStep(g, workers, n, f, steps[0]);
      AlwaysPoolInv(g, workers, n, PoolDo(g, workers, f, steps[0]), steps[1..]);
    }
  }

  /** Two jobs can run at once: there are two worlds, and a second worker or more worlds than places. */
  predicate TwoAtOnce(workers: nat, n: nat) {
    n >= 2 && (workers >= 2 || n > 4 * workers)
  }

  lemma TwoRunning(g: Stage, workers: nat, n: nat, f: Full, w: nat, v: nat)
    requires PoolInv(g, workers, n, f) && w != v && w < |f.stage.jobs| && v < |f.stage.jobs| && |f.stage.jobs| == n
    requires f.stage.jobs[w].phase.Inside? && f.stage.jobs[v].phase.Inside?
    ensures TwoAtOnce(workers, n)
  {
    if f.pool.inline == {} {
      assert {w, v} <= f.pool.active;
      SmallerSet({w, v}, f.pool.active);
    }
  }

  lemma PoolRaceNeedsCondition(g: Stage, loops: seq<Loop>, workers: nat, n: nat, steps: seq<PoolStep>)
    requires Prepared(g, loops) && PoolRace(g, workers, n, steps)
    ensures (n >= 1 && FarRaceInBatch(g)) || (TwoAtOnce(workers, n) && RaceAcross(g))
  {
    AlwaysPoolInv(g, workers, n, PoolBegin(n), steps);
    var f := PoolAfter(g, workers, PoolBegin(n), steps);
    var w, x, v, y :| RaceAt(g, f.stage, w, x, v, y);
    RunningIsDue(g, f.stage, w, x);
    RunningIsDue(g, f.stage, v, y);
    if w == v {
      BatchRaceIsFar(g, loops, x, y);
    } else {
      TwoRunning(g, workers, n, f, w, v);
    }
  }

  // ---------- starting the jobs that race ----------

  lemma PoolOnce(g: Stage, workers: nat, f: Full, step: PoolStep, rest: seq<PoolStep>) returns (steps: seq<PoolStep>)
    requires PoolEnabled(g, workers, f, step) && PoolRun(g, workers, PoolDo(g, workers, f, step), rest)
    ensures PoolRun(g, workers, f, steps)
    ensures PoolAfter(g, workers, f, steps) == PoolAfter(g, workers, PoolDo(g, workers, f, step), rest)
  {
    steps := [step] + rest;
    assert steps[1..] == rest;
  }

  /** Started jobs work as if there were no pool. */
  lemma {:induction false} Lift(g: Stage, workers: nat, f: Full, steps: seq<Step>) returns (lifted: seq<PoolStep>)
    requires IsRun(g, f.stage, steps) && forall st | st in steps :: Started(f.pool, st.w)
    ensures PoolRun(g, workers, f, lifted)
    ensures PoolAfter(g, workers, f, lifted) == Full(f.pool, After(g, f.stage, steps))
    decreases |steps|
  {
    if steps == [] {
      lifted := [];
    } else {
      lifted := Lift(g, workers, Full(f.pool, Do(g, f.stage, steps[0])), steps[1..]);
      lifted := PoolOnce(g, workers, f, Work(steps[0]), lifted);
    }
  }

  /** A race among jobs that have been started is a race on the pool. */
  lemma RaceOnceStarted(g: Stage, workers: nat, n: nat, start: seq<PoolStep>, pool: Pool, steps: seq<Step>)
      returns (all: seq<PoolStep>)
    requires PoolRun(g, workers, PoolBegin(n), start) && PoolAfter(g, workers, PoolBegin(n), start) == Full(pool, Begin(n))
    requires RaceIn(g, n, steps) && forall st | st in steps :: Started(pool, st.w)
    ensures PoolRace(g, workers, n, all)
  {
    var lifted := Lift(g, workers, Full(pool, Begin(n)), steps);
    PoolConcat(g, workers, PoolBegin(n), start, lifted);
    all := start + lifted;
  }

  lemma {:induction false} PoolConcat(g: Stage, workers: nat, f: Full, a: seq<PoolStep>, b: seq<PoolStep>)
    requires PoolRun(g, workers, f, a) && PoolRun(g, workers, PoolAfter(g, workers, f, a), b)
    ensures PoolRun(g, workers, f, a + b)
    ensures PoolAfter(g, workers, f, a + b) == PoolAfter(g, workers, PoolAfter(g, workers, f, a), b)
    decreases |a|
  {
    if a == [] {
      assert a + b == b;
    } else {
      assert (a + b)[1..] == a[1..] + b;
      PoolConcat(g, workers, PoolDo(g, workers, f, a[0]), a[1..], b);
    }
  }

  /** The scheduler queues the next `k` worlds. */
  lemma {:induction false} QueueUp(g: Stage, workers: nat, f: Full, m: nat, k: nat) returns (steps: seq<PoolStep>)
    requires f.pool.inline == {} && |f.pool.queue| + k <= PLACES * workers
    requires forall w: nat | m <= w < m + k :: w in f.pool.todo
    ensures PoolRun(g, workers, f, steps)
    ensures var after := PoolAfter(g, workers, f, steps);
            && after.stage == f.stage && after.pool.active == f.pool.active && after.pool.inline == {}
            && after.pool.queue == f.pool.queue + seq(k, i => m + i)
            && forall w | w in f.pool.todo && !(m <= w < m + k) :: w in after.pool.todo
    decreases k
  {
    if k == 0 {
      steps := [];
      assert f.pool.queue + seq(k, i => m + i) == f.pool.queue;
    } else {
      var next := PoolDo(g, workers, f, Submit(m));
      var rest := QueueUp(g, workers, next, m + 1, k - 1);
      steps := PoolOnce(g, workers, f, Submit(m), rest);
      assert f.pool.queue + [m] + seq(k - 1, i => m + 1 + i) == f.pool.queue + seq(k, i => m + i);
    }
  }

  lemma StartOne(g: Stage, workers: nat, n: nat) returns (steps: seq<PoolStep>, pool: Pool)
    requires workers >= 1 && n >= 1
    ensures PoolRun(g, workers, PoolBegin(n), steps) && PoolAfter(g, workers, PoolBegin(n), steps) == Full(pool, Begin(n))
    ensures Started(pool, 0)
  {
    var begin := PoolBegin(n);
    var s1 := PoolDo(g, workers, begin, Submit(0));
    var s2 := PoolDo(g, workers, s1, Take);
    steps := PoolOnce(g, workers, s1, Take, []);
    steps := PoolOnce(g, workers, begin, Submit(0), steps);
    pool := s2.pool;
  }

  /** Two workers each take a job. */
  lemma StartTwo(g: Stage, workers: nat, n: nat) returns (steps: seq<PoolStep>, pool: Pool)
    requires workers >= 2 && n >= 2
    ensures PoolRun(g, workers, PoolBegin(n), steps) && PoolAfter(g, workers, PoolBegin(n), steps) == Full(pool, Begin(n))
    ensures Started(pool, 0) && Started(pool, 1)
  {
    var begin := PoolBegin(n);
    var s1 := PoolDo(g, workers, begin, Submit(0));
    var s2 := PoolDo(g, workers, s1, Submit(1));
    var s3 := PoolDo(g, workers, s2, Take);
    var s4 := PoolDo(g, workers, s3, Take);
    steps := PoolOnce(g, workers, s3, Take, []);
    steps := PoolOnce(g, workers, s2, Take, steps);
    steps := PoolOnce(g, workers, s1, Submit(1), steps);
    steps := PoolOnce(g, workers, begin, Submit(0), steps);
    pool := s4.pool;
  }

  /** The channel fills up, the scheduler runs a job itself, and a worker takes the first one. */
  lemma StartInline(g: Stage, workers: nat, n: nat) returns (steps: seq<PoolStep>, pool: Pool)
    requires workers >= 1 && n > PLACES * workers
    ensures PoolRun(g, workers, PoolBegin(n), steps) && PoolAfter(g, workers, PoolBegin(n), steps) == Full(pool, Begin(n))
    ensures Started(pool, 0) && Started(pool, PLACES * workers)
  {
    var begin, last := PoolBegin(n), PLACES * workers;
    var fill := QueueUp(g, workers, begin, 0, last);
    var full := PoolAfter(g, workers, begin, fill);
    var s1 := PoolDo(g, workers, full, Submit(last));
    var s2 := PoolDo(g, workers, s1, Take);
    steps := PoolOnce(g, workers, s1, Take, []);
    steps := PoolOnce(g, workers, full, Submit(last), steps);
    PoolConcat(g, workers, begin, fill, steps);
    steps := fill + steps;
    pool := s2.pool;
  }

  lemma PoolRaceInOneWorld(g: Stage, loops: seq<Loop>, workers: nat, n: nat) returns (all: seq<PoolStep>)
    requires Prepared(g, loops) && workers >= 1 && n >= 1 && FarRaceInBatch(g)
    ensures PoolRace(g, workers, n, all)
  {
    var race := RaceInOneWorld(g, loops, n);
    var start, pool := StartOne(g, workers, n);
    all := RaceOnceStarted(g, workers, n, start, pool, race);
  }

  lemma PoolRaceInTwoWorlds(g: Stage, workers: nat, n: nat) returns (all: seq<PoolStep>)
    requires workers >= 1 && TwoAtOnce(workers, n) && RaceAcross(g)
    ensures PoolRace(g, workers, n, all)
  {
    if workers >= 2 {
      var race := RaceInTwoWorlds(g, n, 0, 1);
      var start, pool := StartTwo(g, workers, n);
      all := RaceOnceStarted(g, workers, n, start, pool, race);
    } else {
      var race := RaceInTwoWorlds(g, n, 0, PLACES * workers);
      var start, pool := StartInline(g, workers, n);
      all := RaceOnceStarted(g, workers, n, start, pool, race);
    }
  }

  /** On a pool of workers, two executions that race can be under way at once exactly when some world has sessions and
      two due loops of one batch race through a peer or shared field, or two jobs can run at once and two due loops,
      or one with itself, reach the same memory from different worlds. */
  lemma PoolRaceIff(g: Stage, loops: seq<Loop>, workers: nat, n: nat)
    requires Prepared(g, loops) && workers >= 1
    ensures (exists steps :: PoolRace(g, workers, n, steps)) <==>
            (n >= 1 && FarRaceInBatch(g)) || (TwoAtOnce(workers, n) && RaceAcross(g))
  {
    if steps :| PoolRace(g, workers, n, steps) {
      PoolRaceNeedsCondition(g, loops, workers, n, steps);
    }
    if n >= 1 && FarRaceInBatch(g) {
      var steps := PoolRaceInOneWorld(g, loops, workers, n);
    } else if TwoAtOnce(workers, n) && RaceAcross(g) {
      var steps := PoolRaceInTwoWorlds(g, workers, n);
    }
  }

  // ---------- every job runs once ----------

  /** How often the world is waiting, queued or running. */
  ghost function Places(p: Pool, w: nat): nat {
    (if w in p.todo then 1 else 0) + multiset(p.queue)[w] + (if w in p.active then 1 else 0) + (if w in p.inline then 1 else 0)
  }

  ghost function Releases(g: Stage, workers: nat, f: Full, steps: seq<PoolStep>, w: nat): nat
    requires PoolRun(g, workers, f, steps)
    decreases |steps|
  {
    if steps == [] then 0
    else (if steps[0] == Release(w) then 1 else 0) + Releases(g, workers, PoolDo(g, workers, f, steps[0]), steps[1..], w)
  }

  lemma PlacesStep(g: Stage, workers: nat, f: Full, step: PoolStep, w: nat)
    requires PoolEnabled(g, workers, f, step) && Places(f.pool, w) <= 1
    ensures Places(PoolDo(g, workers, f, step).pool, w) + (if step == Release(w) then 1 else 0) == Places(f.pool, w)
  {
    if step.Take? {
      assert f.pool.queue == [f.pool.queue[0]] + f.pool.queue[1..];
    }
  }

  /** Over every run each world's job is handed out and returns once: it is waiting, queued or running until it has
      returned, and not afterwards. */
  lemma {:induction false} EachJobReturnsOnce(g: Stage, workers: nat, f: Full, steps: seq<PoolStep>, w: nat)
    requires PoolRun(g, workers, f, steps) && Places(f.pool, w) <= 1
    ensures Places(PoolAfter(g, workers, f, steps).pool, w) + Releases(g, workers, f, steps, w) == Places(f.pool, w)
    decreases |steps|
  {
    if steps != [] {
      PlacesStep(g, workers, f, steps[0], w);
      EachJobReturnsOnce(g, workers, PoolDo(g, workers, f, steps[0]), steps[1..], w);
    }
  }

  lemma EveryWorldWaits(n: nat, w: nat)
    ensures Places(PoolBegin(n).pool, w) == if w < n then 1 else 0
  {}

  // ---------- no stage gets stuck ----------

  /** In every reachable state, until every job has returned, there is a next step. */
  lemma PoolGoesOn(g: Stage, workers: nat, n: nat, f: Full) returns (step: PoolStep)
    requires workers >= 1 && PoolInv(g, workers, n, f) && |f.stage.jobs| == n
    requires f.pool.todo != {} || f.pool.queue != [] || f.pool.active + f.pool.inline != {}
    ensures PoolEnabled(g, workers, f, step)
  {
    if f.pool.active + f.pool.inline != {} {
      var w :| w in f.pool.active + f.pool.inline;
      assert Started(f.pool, w);
      if f.stage.jobs[w].batch >= |g.batches| {
        step := Release(w);
      } else {
        var st := JobGoesOn(g, f.stage, w);
        step := Work(st);
      }
    } else if f.pool.queue != [] {
      assert f.pool.active == {};
      step := Take;
    } else {
      var w :| w in f.pool.todo;
      assert f.pool.inline == {};
      step := Submit(w);
    }
  }
}
