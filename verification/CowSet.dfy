/** The lock-free copy-on-write sets behind PeerSet and SharedSet: an atomic pointer to an
    immutable list, replaced by compare-and-swap. The model is a state machine whose steps are
    the atomic actions of any number of threads, in any order. */
module CowSets {
  import opened Basics

  datatype Op = Add(id: string) | Remove(id: string) | SetAll(ids: seq<string>) | Clear | GetIDs

  datatype Ret = Done | List(ids: seq<string>)

  // ---------- the sequential set ----------

  /** What an operation does to the list of IDs when it runs alone. */
  function Apply(op: Op, list: seq<string>): seq<string> {
    match op
    case Add(id) => if id in list then list else list + [id]
    case Remove(id) => RemoveFirst(list, id)
    case SetAll(ids) => ids
    case Clear => []
    case GetIDs => list
  }

  function Result(op: Op, list: seq<string>): Ret {
    if op.GetIDs? then List(list) else Done
  }

  // ---------- the concurrent set ----------

  /** Pointer values; 0 is nil. A box is published at most once and never written again. */
  type BoxId = nat

  datatype Thread =
    | Idle
    | Called(op: Op)                                  // about to load or store
    | Ready(op: Op, loaded: BoxId, box: BoxId, epoch: nat) // loaded a pointer after `epoch` publishes, prepared `box`
    | Finished(op: Op, ret: Ret)

  /** Invocations, linearization points and responses, in the order they happen. */
  datatype Event = Inv(t: nat, op: Op) | Lin(t: nat, op: Op, ret: Ret) | Res(t: nat, ret: Ret)

  datatype State = State(
    ptr: BoxId,
    boxes: map<BoxId, seq<string>>,
    threads: seq<Thread>,
    publishes: nat,                  // stores and successful swaps
    failures: nat,                   // failed swaps
    publishedAt: map<BoxId, nat>,    // when each box was published
    hist: seq<Event>)

  datatype Step = Invoke(t: nat, op: Op) | Load(t: nat) | Store(t: nat) | Swap(t: nat) | Return(t: nat)

  function ListAt(s: State, p: BoxId): seq<string> {
    if p in s.boxes then s.boxes[p] else []
  }

  /** The list the pointer stands for; nil means empty. */
  function Current(s: State): seq<string> {
    if s.ptr == 0 then [] else ListAt(s, s.ptr)
  }

  function IndexOf(list: seq<string>, id: string): (i: nat)
    ensures i <= |list| && id !in list[..i] && (i < |list| ==> list[i] == id)
  {
    if list == [] || list[0] == id then 0 else 1 + IndexOf(list[1..], id)
  }

  /** The list an Add or Remove prepares from the list it loaded; None when it returns at once. */
  datatype Prepared = Early | Fresh(ids: seq<string>)

  function Prepare(op: Op, list: seq<string>): Prepared {
    match op
    case Add(id) => if id in list then Early else Fresh(list + [id])
    case Remove(id) =>
      if |list| == 0 then Early else
      var idx := IndexOf(list, id);
      if idx == |list| then Early else Fresh(list[..idx] + list[idx + 1..])
    case _ => Early
  }

  function FreshBox(s: State): BoxId {
    |s.boxes| + 1
  }

  predicate Enabled(s: State, step: Step) {
    step.t < |s.threads| &&
    var th := s.threads[step.t];
    match step
    case Invoke(_, _) => th.Idle?
    case Load(_) => th.Called? && (th.op.Add? || th.op.Remove? || th.op.GetIDs?)
    case Store(_) => th.Called? && (th.op.SetAll? || th.op.Clear?)
    case Swap(_) => th.Ready?
    case Return(_) => th.Finished?
  }

  function Do(s: State, step: Step): State
    requires Enabled(s, step)
  {
    var t := step.t;
    var th := s.threads[t];
    match step
    case Invoke(_, op) =>
      s.(threads := s.threads[t := Called(op)], hist := s.hist + [Inv(t, op)])
    case Load(_) =>
      var list := Current(s);
      var prepared := Prepare(th.op, list);
      if prepared.Early? then
        var ret := Result(th.op, list);
        s.(threads := s.threads[t := Finished(th.op, ret)], hist := s.hist + [Lin(t, th.op, ret)])
      else
        var box := FreshBox(s);
        s.(boxes := s.boxes[box := prepared.ids],
           threads := s.threads[t := Ready(th.op, s.ptr, box, s.publishes)])
    case Store(_) =>
      var box := if th.op.Clear? then 0 else FreshBox(s);
      s.(boxes := if th.op.Clear? then s.boxes else s.boxes[box := th.op.ids],
         ptr := box,
         publishes := s.publishes + 1,
         publishedAt := s.publishedAt[box := s.publishes + 1],
         threads := s.threads[t := Finished(th.op, Done)],
         hist := s.hist + [Lin(t, th.op, Done)])
    case Swap(_) =>
      if s.ptr == th.loaded then
        s.(ptr := th.box,
           publishes := s.publishes + 1,
           publishedAt := s.publishedAt[th.box := s.publishes + 1],
           threads := s.threads[t := Finished(th.op, Done)],
           hist := s.hist + [Lin(t, th.op, Done)])
      else
        s.(failures := s.failures + 1, threads := s.threads[t := Called(th.op)])
    case Return(_) =>
      s.(threads := s.threads[t := Idle], hist := s.hist + [Res(t, th.ret)])
  }

  function Init(n: nat): State {
    State(0, map[], seq(n, i => Idle), 0, 0, map[], [])
  }

  /** All steps of the run are enabled when their turn comes. */
  ghost predicate IsRun(n: nat, steps: seq<Step>) {
    steps == [] ||
    (IsRun(n, steps[..|steps| - 1]) && Enabled(After(n, steps[..|steps| - 1]), steps[|steps| - 1]))
  }

  ghost function After(n: nat, steps: seq<Step>): State {
    if steps == [] then Init(n) else
    var s := After(n, steps[..|steps| - 1]);
    if Enabled(s, steps[|steps| - 1]) then Do(s, steps[|steps| - 1]) else s
  }

  // ---------- histories ----------

  /** The list after replaying the linearization points one after the other. */
  ghost function Replay(hist: seq<Event>): seq<string> {
    if hist == [] then [] else
    var before := Replay(hist[..|hist| - 1]);
    match hist[|hist| - 1]
    case Lin(_, op, _) => Apply(op, before)
    case _ => before
  }

  /** Every linearization point returns what the sequential set would return there. */
  ghost predicate Legal(hist: seq<Event>) {
    hist == [] ||
    (Legal(hist[..|hist| - 1]) &&
     match hist[|hist| - 1]
     case Lin(_, op, ret) => ret == Result(op, Replay(hist[..|hist| - 1]))
     case _ => true)
  }

  datatype Phase = Outside | Pending(op: Op) | Decided(op: Op, ret: Ret) | Broken

  ghost function NextPhase(before: Phase, e: Event): Phase {
    match e
    case Inv(_, op) => if before.Outside? then Pending(op) else Broken
    case Lin(_, op, ret) => if before == Pending(op) then Decided(op, ret) else Broken
    case Res(_, ret) => if before.Decided? && before.ret == ret then Outside else Broken
  }

  /** Where thread `t` is according to the history alone: invocation, one linearization point of the
      invoked operation, response with its result, and so on; anything else is Broken. */
  ghost function PhaseOf(hist: seq<Event>, t: nat): Phase {
    if hist == [] then Outside else
    var before := PhaseOf(hist[..|hist| - 1], t);
    var e := hist[|hist| - 1];
    if e.t == t then NextPhase(before, e) else before
  }

  // ---------- sequential facts ----------

  lemma {:induction false} RemoveAtIndex(list: seq<string>, id: string)
    ensures RemoveFirst(list, id) ==
            if IndexOf(list, id) == |list| then list else list[..IndexOf(list, id)] + list[IndexOf(list, id) + 1..]
  {
    if list != [] && list[0] != id {
      RemoveAtIndex(list[1..], id);
    }
  }

  /** Preparing a list from the current one is the sequential operation. */
  lemma PrepareIsApply(op: Op, list: seq<string>)
    requires op.Add? || op.Remove? || op.GetIDs?
    ensures Apply(op, list) == match Prepare(op, list) { case Early => list case Fresh(ids) => ids }
  {
    if op.Remove? {
      RemoveAtIndex(list, op.id);
    }
  }

  lemma {:induction false} RemoveFirstKeepsDistinct(list: seq<string>, id: string)
    requires Distinct(list)
    ensures Distinct(RemoveFirst(list, id))
    ensures forall x :: x in RemoveFirst(list, id) <==> x in list && x != id
  {
    if list != [] {
      assert list == [list[0]] + list[1..];
      RemoveFirstKeepsDistinct(list[1..], id);
      assert list[0] !in list[1..];
      assert list[0] != id ==> list[0] !in RemoveFirst(list[1..], id);
    }
  }

  /** Membership after an operation on a set. */
  predicate MemberAfter(op: Op, list: seq<string>, x: string) {
    match op
    case Add(id) => x in list || x == id
    case Remove(id) => x in list && x != id
    case SetAll(ids) => x in ids
    case Clear => false
    case GetIDs => x in list
  }

  /** On a list without duplicates every operation is the set operation of its name, and the result
      has no duplicates exactly when a Set argument has none. */
  lemma ApplyIsSetOperation(op: Op, list: seq<string>)
    requires Distinct(list)
    ensures Distinct(Apply(op, list)) <==> (op.SetAll? ==> Distinct(op.ids))
    ensures forall x :: x in Apply(op, list) <==> MemberAfter(op, list, x)
  {
    if op.Remove? {
      RemoveFirstKeepsDistinct(list, op.id);
    }
  }

  // ---------- the invariant ----------

  /** A thread's control state agrees with where the history says it is. */
  ghost predicate PhaseFits(th: Thread, ph: Phase) {
    match th
    case Idle => ph == Outside
    case Called(op) => ph == Pending(op)
    case Ready(op, _, _, _) => ph == Pending(op)
    case Finished(op, ret) => ph == Decided(op, ret)
  }

  ghost predicate Phased(threads: seq<Thread>, hist: seq<Event>) {
    forall t: nat | t < |threads| :: PhaseFits(threads[t], PhaseOf(hist, t))
  }

  /** The history replays to the current list. */
  ghost predicate Replays(s: State) {
    Replay(s.hist) == Current(s) && Legal(s.hist)
  }

  /** Boxes are numbered from 1; the pointer is nil or the box of the latest publish. */
  ghost predicate BoxesOk(s: State) {
    && (forall b :: b in s.boxes <==> 1 <= b <= |s.boxes|)
    && (forall b | b in s.publishedAt && b != 0 :: b in s.boxes && s.publishedAt[b] <= s.publishes)
    && (s.ptr != 0 ==> s.ptr in s.publishedAt && s.publishedAt[s.ptr] == s.publishes)
  }

  /** A thread about to swap has prepared an unpublished box from the list it loaded, and a pointer
      that has not been published over since is still the one it loaded. */
  ghost predicate SwapReady(s: State, th: Thread) {
    th.Ready? ==>
      && (th.op.Add? || th.op.Remove?)
      && th.epoch <= s.publishes
      && (th.epoch == s.publishes ==> s.ptr == th.loaded)
      && (th.loaded != 0 ==> th.loaded in s.boxes && th.loaded in s.publishedAt && s.publishedAt[th.loaded] <= th.epoch)
      && th.box != 0 && th.box in s.boxes && th.box !in s.publishedAt
      && Prepare(th.op, if th.loaded == 0 then [] else s.boxes[th.loaded]) == Fresh(s.boxes[th.box])
  }

  ghost predicate BoxesApart(threads: seq<Thread>) {
    forall t: nat, u: nat | t < |threads| && u < |threads| && t != u && threads[t].Ready? && threads[u].Ready? ::
      threads[t].box != threads[u].box
  }

  ghost predicate Consistent(s: State) {
    && BoxesOk(s)
    && (forall t: nat | t < |s.threads| :: SwapReady(s, s.threads[t]))
    && BoxesApart(s.threads)
    && Phased(s.threads, s.hist)
    && Replays(s)
  }

  lemma HistoryStep(hist: seq<Event>, e: Event)
    ensures Replay(hist + [e]) == if e.Lin? then Apply(e.op, Replay(hist)) else Replay(hist)
    ensures Legal(hist + [e]) <==> Legal(hist) && (e.Lin? ==> e.ret == Result(e.op, Replay(hist)))
  {
    assert (hist + [e])[..|hist|] == hist;
  }

  /** An event of thread `t` moves that thread only. */
  lemma PhasedStep(threads: seq<Thread>, hist: seq<Event>, e: Event, th: Thread)
    requires Phased(threads, hist) && e.t < |threads|
    requires PhaseFits(th, NextPhase(PhaseOf(hist, e.t), e))
    ensures Phased(threads[e.t := th], hist + [e])
  {
    assert (hist + [e])[..|hist|] == hist;
    var threads' := threads[e.t := th];
    forall u: nat | u < |threads'|
      ensures PhaseFits(threads'[u], PhaseOf(hist + [e], u))
    {
      assert PhaseFits(threads[u], PhaseOf(hist, u));
    }
  }

  lemma InitConsistent(n: nat)
    ensures Consistent(Init(n))
  {
  }

  lemma InvokeKeeps(s: State, t: nat, op: Op)
    requires Consistent(s) && Enabled(s, Invoke(t, op))
    ensures Consistent(Do(s, Invoke(t, op)))
  {
    assert PhaseFits(s.threads[t], PhaseOf(s.hist, t));
    HistoryStep(s.hist, Inv(t, op));
    PhasedStep(s.threads, s.hist, Inv(t, op), Called(op));
  }

  lemma ReturnKeeps(s: State, t: nat)
    requires Consistent(s) && Enabled(s, Return(t))
    ensures Consistent(Do(s, Return(t)))
  {
    var e := Res(t, s.threads[t].ret);
    assert PhaseFits(s.threads[t], PhaseOf(s.hist, t));
    HistoryStep(s.hist, e);
    PhasedStep(s.threads, s.hist, e, Idle);
  }

  lemma LoadKeeps(s: State, t: nat)
    requires Consistent(s) && Enabled(s, Load(t))
    ensures Consistent(Do(s, Load(t)))
  {
    var op := s.threads[t].op;
    assert PhaseFits(s.threads[t], PhaseOf(s.hist, t));
    if Prepare(op, Current(s)).Early? {
      PrepareIsApply(op, Current(s));
      var ret := Result(op, Current(s));
      HistoryStep(s.hist, Lin(t, op, ret));
      PhasedStep(s.threads, s.hist, Lin(t, op, ret), Finished(op, ret));
    } else {
      LoadPrepares(s, t);
      LoadPhases(s, t);
    }
  }

  lemma LoadPhases(s: State, t: nat)
    requires Consistent(s) && Enabled(s, Load(t)) && Prepare(s.threads[t].op, Current(s)).Fresh?
    ensures Phased(Do(s, Load(t)).threads, s.hist)
    ensures BoxesApart(Do(s, Load(t)).threads)
  {
    forall u: nat | u < |s.threads|
      ensures s.threads[u].Ready? ==> s.threads[u].box != FreshBox(s)
    {
      assert SwapReady(s, s.threads[u]);
    }
    assert PhaseFits(s.threads[t], PhaseOf(s.hist, t));
  }

  /** A new box joins the others; what threads prepared earlier is untouched. */
  lemma LoadPrepares(s: State, t: nat)
    requires Consistent(s) && Enabled(s, Load(t)) && Prepare(s.threads[t].op, Current(s)).Fresh?
    ensures var s' := Do(s, Load(t));
      BoxesOk(s') && Current(s') == Current(s) && forall u: nat | u < |s'.threads| :: SwapReady(s', s'.threads[u])
  {
    var s' := Do(s, Load(t));
    assert FreshBox(s) !in s.boxes && FreshBox(s) !in s.publishedAt;
    assert |s'.boxes| == |s.boxes| + 1;
    forall u: nat | u < |s'.threads|
      ensures SwapReady(s', s'.threads[u])
    {
      assert SwapReady(s, s.threads[u]);
    }
  }

  /** Publishing box `b`, or nil, on behalf of thread `t`. */
  lemma Publishes(s: State, s': State, t: nat, b: BoxId, ret: Ret)
    requires BoxesOk(s) && t < |s.threads| && BoxesApart(s.threads)
    requires forall u: nat | u < |s.threads| :: SwapReady(s, s.threads[u])
    requires s'.ptr == b && s'.publishes == s.publishes + 1 && s'.publishedAt == s.publishedAt[b := s.publishes + 1]
    requires s.threads[t].Called? || s.threads[t].Ready?
    requires s'.threads == s.threads[t := Finished(s.threads[t].op, ret)]
    requires forall c :: c in s'.boxes <==> 1 <= c <= |s'.boxes|
    requires forall c | c in s.boxes :: c in s'.boxes && s'.boxes[c] == s.boxes[c]
    requires b != 0 ==> b in s'.boxes && b !in s.publishedAt
    requires forall u: nat | u < |s.threads| && u != t && s.threads[u].Ready? :: s.threads[u].box != b
    ensures BoxesOk(s') && BoxesApart(s'.threads)
    ensures forall u: nat | u < |s'.threads| :: SwapReady(s', s'.threads[u])
  {
    forall u: nat | u < |s'.threads|
      ensures SwapReady(s', s'.threads[u])
    {
      assert SwapReady(s, s.threads[u]);
    }
  }

  lemma StoreKeeps(s: State, t: nat)
    requires Consistent(s) && Enabled(s, Store(t))
    ensures Consistent(Do(s, Store(t)))
  {
    var s' := Do(s, Store(t));
    var op := s.threads[t].op;
    assert FreshBox(s) !in s.boxes;
    forall u: nat | u < |s.threads| && u != t && s.threads[u].Ready?
      ensures s.threads[u].box != s'.ptr
    {
      assert SwapReady(s, s.threads[u]);
    }
    Publishes(s, s', t, s'.ptr, Done);
    assert PhaseFits(s.threads[t], PhaseOf(s.hist, t));
    HistoryStep(s.hist, Lin(t, op, Done));
    PhasedStep(s.threads, s.hist, Lin(t, op, Done), Finished(op, Done));
  }

  /** A swap that finds the pointer it loaded installs what the sequential operation would. */
  lemma SwapApplies(s: State, t: nat)
    requires Consistent(s) && Enabled(s, Swap(t)) && s.ptr == s.threads[t].loaded
    ensures Replays(Do(s, Swap(t)))
  {
    var th := s.threads[t];
    assert SwapReady(s, th);
    PrepareIsApply(th.op, Current(s));
    HistoryStep(s.hist, Lin(t, th.op, Done));
  }

  lemma SwapKeeps(s: State, t: nat)
    requires Consistent(s) && Enabled(s, Swap(t))
    ensures Consistent(Do(s, Swap(t)))
  {
    var s' := Do(s, Swap(t));
    var th := s.threads[t];
    assert SwapReady(s, th);
    assert PhaseFits(th, PhaseOf(s.hist, t));
    if s.ptr == th.loaded {
      Publishes(s, s', t, th.box, Done);
      SwapApplies(s, t);
      PhasedStep(s.threads, s.hist, Lin(t, th.op, Done), Finished(th.op, Done));
    }
  }

  /** Every state of every run is consistent. */
  lemma {:induction false} AlwaysConsistent(n: nat, steps: seq<Step>)
    requires IsRun(n, steps)
    ensures Consistent(After(n, steps))
  {
    if steps == [] {
      InitConsistent(n);
    } else {
      var s := After(n, steps[..|steps| - 1]);
      AlwaysConsistent(n, steps[..|steps| - 1]);
      match steps[|steps| - 1]
      case Invoke(t, op) => InvokeKeeps(s, t, op);
      case Load(t) => LoadKeeps(s, t);
      case Store(t) => StoreKeeps(s, t);
      case Swap(t) => SwapKeeps(s, t);
      case Return(t) => ReturnKeeps(s, t);
    }
  }

  // ---------- linearizability ----------

  lemma {:induction false} ThreadsAreFixed(n: nat, steps: seq<Step>)
    requires IsRun(n, steps)
    ensures |After(n, steps).threads| == n
    ensures forall e | e in After(n, steps).hist :: e.t < n
  {
    if steps != [] {
      ThreadsAreFixed(n, steps[..|steps| - 1]);
    }
  }

  /** In every interleaving: the linearization points, replayed one after the other, produce the current
      list; each returns what the sequential set returns there; and every thread's events go invocation,
      one linearization point of that operation, response with that result. */
  lemma Linearizable(n: nat, steps: seq<Step>)
    requires IsRun(n, steps)
    ensures Replay(After(n, steps).hist) == Current(After(n, steps))
    ensures Legal(After(n, steps).hist)
    ensures forall t: nat | t < n :: PhaseOf(After(n, steps).hist, t) != Broken
  {
    AlwaysConsistent(n, steps);
    ThreadsAreFixed(n, steps);
    var s := After(n, steps);
    forall t: nat | t < n
      ensures PhaseOf(s.hist, t) != Broken
    {
      assert PhaseFits(s.threads[t], PhaseOf(s.hist, t));
    }
  }

  /** No event of thread `t` at positions from `lo` to before `hi`. */
  ghost predicate Silent(hist: seq<Event>, t: nat, lo: nat, hi: nat)
    requires hi <= |hist|
  {
    forall j: nat | lo <= j < hi :: hist[j].t != t
  }

  lemma {:induction false} PendingSince(hist: seq<Event>, t: nat) returns (i: nat)
    requires PhaseOf(hist, t).Pending?
    ensures i < |hist| && hist[i] == Inv(t, PhaseOf(hist, t).op) && Silent(hist, t, i + 1, |hist|)
  {
    var last := |hist| - 1;
    if hist[last].t == t {
      i := last;
    } else {
      i := PendingSince(hist[..last], t);
    }
  }

  lemma {:induction false} DecidedSince(hist: seq<Event>, t: nat) returns (i: nat, l: nat)
    requires PhaseOf(hist, t).Decided?
    ensures i < l < |hist| && hist[i] == Inv(t, PhaseOf(hist, t).op)
    ensures hist[l] == Lin(t, PhaseOf(hist, t).op, PhaseOf(hist, t).ret)
    ensures Silent(hist, t, i + 1, l) && Silent(hist, t, l + 1, |hist|)
  {
    var last := |hist| - 1;
    if hist[last].t == t {
      l := last;
      i := PendingSince(hist[..last], t);
    } else {
      i, l := DecidedSince(hist[..last], t);
    }
  }

  /** Every response answers exactly one linearization point, and that point lies between the
      invocation and the response. */
  lemma ResponseHasOnePoint(hist: seq<Event>, r: nat) returns (i: nat, l: nat)
    requires r < |hist| && hist[r].Res? && PhaseOf(hist[..r + 1], hist[r].t) != Broken
    ensures i < l < r && hist[i].Inv? && hist[l] == Lin(hist[r].t, hist[i].op, hist[r].ret) && hist[i].t == hist[r].t
    ensures Silent(hist, hist[r].t, i + 1, l) && Silent(hist, hist[r].t, l + 1, r)
  {
    assert hist[..r + 1][..r] == hist[..r];
    i, l := DecidedSince(hist[..r], hist[r].t);
  }

  lemma {:induction false} LegalAt(hist: seq<Event>, k: nat)
    requires Legal(hist) && k < |hist| && hist[k].Lin?
    ensures hist[k].ret == if hist[k].op.GetIDs? then List(Replay(hist[..k])) else Done
  {
    var last := |hist| - 1;
    if k < last {
      assert hist[..last][..k] == hist[..k];
      LegalAt(hist[..last], k);
    }
  }

  /** In every run the point of IDs carries the list that all points before it leave behind, and no other point
      carries a list. */
  lemma PointsAnswer(n: nat, steps: seq<Step>, k: nat)
    requires IsRun(n, steps) && k < |After(n, steps).hist| && After(n, steps).hist[k].Lin?
    ensures var hist := After(n, steps).hist;
            hist[k].ret == if hist[k].op.GetIDs? then List(Replay(hist[..k])) else Done
  {
    Linearizable(n, steps);
    LegalAt(After(n, steps).hist, k);
  }

  lemma {:induction false} NotBrokenBefore(hist: seq<Event>, t: nat, k: nat)
    requires PhaseOf(hist, t) != Broken && k <= |hist|
    ensures PhaseOf(hist[..k], t) != Broken
  {
    if k < |hist| {
      assert hist[..|hist| - 1][..k] == hist[..k];
      NotBrokenBefore(hist[..|hist| - 1], t, k);
    } else {
      assert hist[..k] == hist;
    }
  }

  /** In every run the response to IDs is the list at a moment between invocation and response; every other call
      answers nothing. */
  lemma ResponsesAnswer(n: nat, steps: seq<Step>, r: nat) returns (i: nat, l: nat)
    requires IsRun(n, steps) && r < |After(n, steps).hist| && After(n, steps).hist[r].Res?
    ensures var hist := After(n, steps).hist;
            && i < l < r && hist[i].Inv? && hist[l].Lin? && hist[i].t == hist[l].t == hist[r].t
            && hist[l].op == hist[i].op && Silent(hist, hist[r].t, i + 1, l) && Silent(hist, hist[r].t, l + 1, r)
            && hist[r].ret == if hist[i].op.GetIDs? then List(Replay(hist[..l])) else Done
  {
    UnbrokenAt(n, steps, r);
    i, l := ResponseHasOnePoint(After(n, steps).hist, r);
    PointsAnswer(n, steps, l);
  }

  lemma UnbrokenAt(n: nat, steps: seq<Step>, r: nat)
    requires IsRun(n, steps) && r < |After(n, steps).hist|
    ensures PhaseOf(After(n, steps).hist[..r + 1], After(n, steps).hist[r].t) != Broken
  {
    var hist := After(n, steps).hist;
    Linearizable(n, steps);
    ThreadsAreFixed(n, steps);
    assert hist[r] in hist;
    NotBrokenBefore(hist, hist[r].t, r + 1);
  }

  // ---------- no ABA, bounded retries, no duplicates ----------

  /** A swap that is about to succeed publishes the operation applied to the list of that moment. It saw no publish
      at all since its load, unless the pointer is nil: nil is the one pointer that comes back, and it always means
      the empty list. */
  lemma NoAba(n: nat, steps: seq<Step>, t: nat)
    requires IsRun(n, steps) && t < |After(n, steps).threads|
    requires After(n, steps).threads[t].Ready? && After(n, steps).ptr == After(n, steps).threads[t].loaded
    ensures var s := After(n, steps);
            && (s.threads[t].epoch == s.publishes || s.ptr == 0)
            && s.threads[t].box in s.boxes
            && Prepare(s.threads[t].op, Current(s)) == Fresh(s.boxes[s.threads[t].box])
  {
    AlwaysConsistent(n, steps);
    var s := After(n, steps);
    assert SwapReady(s, s.threads[t]);
  }

  /** From nil a swap can succeed although another thread has cleared the set since the load. */
  lemma NilComesBack() returns (steps: seq<Step>)
    ensures IsRun(2, steps)
    ensures var s := After(2, steps);
            s.threads[0].Ready? && s.ptr == s.threads[0].loaded && s.threads[0].epoch < s.publishes
  {
    var s1 := [Invoke(0, Add("a"))];
    var s2 := s1 + [Load(0)];
    var s3 := s2 + [Invoke(1, Clear)];
    steps := s3 + [Store(1)];
    assert s1[..0] == [] && s2[..1] == s1 && s3[..2] == s2 && steps[..3] == s3;
    assert IsRun(2, s1);
    assert IsRun(2, s2);
    assert IsRun(2, s3);
  }

  /** Threads whose swap is bound to fail if they try it now. */
  ghost function Stale(s: State): set<nat> {
    set t: nat | t < |s.threads| && s.threads[t].Ready? && s.threads[t].epoch < s.publishes
  }

  lemma {:induction false} UpTo(n: nat, a: set<nat>)
    requires forall t | t in a :: t < n
    ensures |a| <= n
  {
    if n > 0 {
      UpTo(n - 1, a - {n - 1});
    }
  }

  lemma StaleBound(s: State, t: nat, n: nat)
    requires |s.threads| == n && t < n && !s.threads[t].Ready?
    ensures |Stale(s)| <= n - 1
  {
    UpTo(n, Stale(s) + {t});
    assert t !in Stale(s);
  }

  lemma OnePublishMore(publishes: nat, n: nat)
    requires n > 0
    ensures (publishes + 1) * (n - 1) == publishes * (n - 1) + (n - 1)
  {
  }

  /** A step that publishes nothing turns a stale thread into a failure at most. */
  lemma QuietStep(s: State, step: Step)
    requires Enabled(s, step) && SwapReady(s, s.threads[step.t]) && Do(s, step).publishes == s.publishes
    ensures Do(s, step).failures + |Stale(Do(s, step))| <= s.failures + |Stale(s)|
  {
    var t, s' := step.t, Do(s, step);
    if step.Swap? {
      assert t in Stale(s);
      assert Stale(s') == Stale(s) - {t};
    } else {
      assert Stale(s') == Stale(s);
    }
  }

  /** A publish leaves every other thread stale at worst. */
  lemma PublishStep(s: State, step: Step, n: nat)
    requires Enabled(s, step) && |s.threads| == n && Do(s, step).publishes != s.publishes
    ensures Do(s, step).publishes == s.publishes + 1 && Do(s, step).failures == s.failures
    ensures |Stale(Do(s, step))| <= n - 1
  {
    StaleBound(Do(s, step), step.t, n);
  }

  /** Failed swaps are paid for by publishes of other threads: at most n - 1 for each publish. */
  lemma {:induction false} FailuresAreBounded(n: nat, steps: seq<Step>)
    requires IsRun(n, steps) && n > 0
    ensures After(n, steps).failures + |Stale(After(n, steps))| <= After(n, steps).publishes * (n - 1)
  {
    if steps == [] {
      assert Stale(Init(n)) == {};
    } else {
      var before, step := steps[..|steps| - 1], steps[|steps| - 1];
      var s := After(n, before);
      FailuresAreBounded(n, before);
      AlwaysConsistent(n, before);
      ThreadsAreFixed(n, before);
      if Do(s, step).publishes == s.publishes {
        QuietStep(s, step);
      } else {
        PublishStep(s, step, n);
        OnePublishMore(s.publishes, n);
      }
    }
  }

  ghost predicate SetsAreDistinct(steps: seq<Step>) {
    forall step | step in steps && step.Invoke? && step.op.SetAll? :: Distinct(step.op.ids)
  }

  lemma {:induction false} InvokedBySteps(n: nat, steps: seq<Step>)
    requires IsRun(n, steps)
    ensures forall e | e in After(n, steps).hist && e.Inv? :: Invoke(e.t, e.op) in steps
  {
    if steps != [] {
      InvokedBySteps(n, steps[..|steps| - 1]);
    }
  }

  lemma {:induction false} ReplayIsDistinct(hist: seq<Event>, n: nat)
    requires forall e | e in hist :: e.t < n
    requires forall t: nat | t < n :: PhaseOf(hist, t) != Broken
    requires forall e | e in hist && e.Inv? && e.op.SetAll? :: Distinct(e.op.ids)
    ensures Distinct(Replay(hist))
  {
    if hist != [] {
      var before, e := hist[..|hist| - 1], hist[|hist| - 1];
      forall t: nat | t < n ensures PhaseOf(before, t) != Broken {
        assert PhaseOf(hist, t) != Broken;
      }
      ReplayIsDistinct(before, n);
      if e.Lin? {
        assert PhaseOf(hist, e.t) != Broken;
        var i := PendingSince(before, e.t);
        assert hist[i] in hist;
        ApplyIsSetOperation(e.op, Replay(before));
      }
    }
  }

  /** As long as every Set argument is free of duplicates, so is the set, in every interleaving. */
  lemma NoDuplicates(n: nat, steps: seq<Step>)
    requires IsRun(n, steps) && SetsAreDistinct(steps)
    ensures Distinct(Current(After(n, steps)))
  {
    Linearizable(n, steps);
    ThreadsAreFixed(n, steps);
    InvokedBySteps(n, steps);
    ReplayIsDistinct(After(n, steps).hist, n);
  }

  // ---------- what a thread does by itself ----------

  /** The failed swaps of a run: the thread goes back to loading. */
  ghost function FailedSwaps(n: nat, steps: seq<Step>): nat {
    if steps == [] then 0 else
    var front, step := steps[..|steps| - 1], steps[|steps| - 1];
    FailedSwaps(n, front) +
    if step.Swap? && step.t < |After(n, steps).threads| && After(n, steps).threads[step.t].Called? then 1 else 0
  }

  /** The stores and successful swaps. */
  ghost function Published(n: nat, steps: seq<Step>): nat {
    if steps == [] then 0 else
    var front, step := steps[..|steps| - 1], steps[|steps| - 1];
    Published(n, front) +
    if (step.Swap? || step.Store?) && step.t < |After(n, steps).threads| && After(n, steps).threads[step.t].Finished? then 1 else 0
  }

  lemma {:induction false} CountsAreSteps(n: nat, steps: seq<Step>)
    requires IsRun(n, steps)
    ensures After(n, steps).failures == FailedSwaps(n, steps) && After(n, steps).publishes == Published(n, steps)
  {
    if steps != [] {
      CountsAreSteps(n, steps[..|steps| - 1]);
    }
  }

  /** In every run failed swaps number at most the publishes times the other threads. */
  lemma SwapsRarelyFail(n: nat, steps: seq<Step>)
    requires IsRun(n, steps) && n > 0
    ensures FailedSwaps(n, steps) <= Published(n, steps) * (n - 1)
  {
    CountsAreSteps(n, steps);
    FailuresAreBounded(n, steps);
  }

  /** Nobody waits for anybody: every thread can always take a step. */
  lemma NobodyWaits(n: nat, steps: seq<Step>, t: nat)
    requires IsRun(n, steps) && t < n
    ensures exists step: Step :: step.t == t && Enabled(After(n, steps), step)
  {
    ThreadsAreFixed(n, steps);
    var s := After(n, steps);
    var th := s.threads[t];
    var step := match th
      case Idle => Invoke(t, GetIDs)
      case Called(op) => if op.SetAll? || op.Clear? then Store(t) else Load(t)
      case Ready(_, _, _, _) => Swap(t)
      case Finished(_, _) => Return(t);
    assert step.t == t && Enabled(s, step);
  }

  lemma OneMore(n: nat, steps: seq<Step>, step: Step)
    requires IsRun(n, steps) && Enabled(After(n, steps), step)
    ensures IsRun(n, steps + [step]) && After(n, steps + [step]) == Do(After(n, steps), step)
  {
    assert (steps + [step])[..|steps|] == steps;
  }

  function AnswerOf(op: Op, list: seq<string>): Ret {
    if op.GetIDs? then List(list) else Done
  }

  /** Thread `t` has carried out its operation on the list of `s`, and nothing else has changed for anybody. */
  ghost predicate CarriedOut(s: State, e: State, t: nat, op: Op) {
    && t < |s.threads| && e.threads == s.threads[t := Finished(op, AnswerOf(op, Current(s)))]
    && e.failures == s.failures && Current(e) == Apply(op, Current(s))
  }

  lemma StoresAlone(s: State, t: nat)
    requires Consistent(s) && Enabled(s, Store(t))
    ensures CarriedOut(s, Do(s, Store(t)), t, s.threads[t].op)
  {}

  lemma LoadsAlone(s: State, t: nat)
    requires Consistent(s) && Enabled(s, Load(t))
    ensures var n := Do(s, Load(t));
            if n.threads[t].Ready? then Enabled(n, Swap(t)) && CarriedOut(s, Do(n, Swap(t)), t, s.threads[t].op)
            else CarriedOut(s, n, t, s.threads[t].op)
  {
    var op, n := s.threads[t].op, Do(s, Load(t));
    PrepareIsApply(op, Current(s));
    LoadKeeps(s, t);
    if n.threads[t].Ready? {
      assert SwapReady(n, n.threads[t]);
      assert n.boxes[FreshBox(s)] == Apply(op, Current(s));
      assert n.threads[t := Finished(op, Done)] == s.threads[t := Finished(op, Done)];
    }
  }

  lemma Carries(n: nat, steps: seq<Step>, t: nat) returns (more: seq<Step>)
    requires IsRun(n, steps) && t < |After(n, steps).threads| && After(n, steps).threads[t].Called?
    ensures IsRun(n, more) && steps <= more && forall i | |steps| <= i < |more| :: more[i].t == t
    ensures CarriedOut(After(n, steps), After(n, more), t, After(n, steps).threads[t].op)
  {
    var s := After(n, steps);
    AlwaysConsistent(n, steps);
    if s.threads[t].op.SetAll? || s.threads[t].op.Clear? {
      OneMore(n, steps, Store(t));
      StoresAlone(s, t);
      more := steps + [Store(t)];
    } else {
      OneMore(n, steps, Load(t));
      LoadsAlone(s, t);
      more := steps + [Load(t)];
      if After(n, more).threads[t].Ready? {
        OneMore(n, more, Swap(t));
        more := more + [Swap(t)];
      }
    }
  }

  lemma InvokesAndCarries(n: nat, steps: seq<Step>, t: nat, op: Op) returns (more: seq<Step>)
    requires IsRun(n, steps) && t < |After(n, steps).threads| && After(n, steps).threads[t].Idle?
    ensures IsRun(n, more) && steps <= more && forall i | |steps| <= i < |more| :: more[i].t == t
    ensures CarriedOut(After(n, steps), After(n, more), t, op)
  {
    var s := After(n, steps);
    OneMore(n, steps, Invoke(t, op));
    InvokesAlone(s, t, op);
    more := Carries(n, steps + [Invoke(t, op)], t);
    assert s.threads[t := Called(op)][t := Finished(op, AnswerOf(op, Current(s)))] ==
           s.threads[t := Finished(op, AnswerOf(op, Current(s)))];
  }

  /** From any reachable state an idle thread that runs alone completes its operation with one try: the list becomes what
      the sequential set makes of it, and IDs answers the list. */
  lemma RunsAlone(n: nat, steps: seq<Step>, t: nat, op: Op) returns (more: seq<Step>)
    requires IsRun(n, steps) && t < |After(n, steps).threads| && After(n, steps).threads[t].Idle?
    ensures IsRun(n, more) && steps <= more && forall i | |steps| <= i < |more| :: more[i].t == t
    ensures After(n, more).threads == After(n, steps).threads && After(n, more).failures == After(n, steps).failures
    ensures Current(After(n, more)) == Apply(op, Current(After(n, steps)))
    ensures |After(n, more).hist| > 0
    ensures After(n, more).hist[|After(n, more).hist| - 1] == Res(t, AnswerOf(op, Current(After(n, steps))))
  {
    var s := After(n, steps);
    var carried := InvokesAndCarries(n, steps, t, op);
    OneMore(n, carried, Return(t));
    ReturnsAlone(After(n, carried), t);
    more := carried + [Return(t)];
    assert s.threads[t := Idle] == s.threads;
  }

  lemma InvokesAlone(s: State, t: nat, op: Op)
    requires Enabled(s, Invoke(t, op))
    ensures var n := Do(s, Invoke(t, op));
            n.threads == s.threads[t := Called(op)] && n.failures == s.failures && Current(n) == Current(s)
  {}

  lemma ReturnsAlone(s: State, t: nat)
    requires t < |s.threads| && s.threads[t].Finished?
    ensures Enabled(s, Return(t))
    ensures var n := Do(s, Return(t));
            && n.threads == s.threads[t := Idle] && n.failures == s.failures && Current(n) == Current(s)
            && n.hist == s.hist + [Res(t, s.threads[t].ret)]
  {}
}
