/** Component ID allocation: any number of threads register types with a lock-free fast path, an
    atomic counter and LoadOrStore. The counter is 32 bits wide, the ID one byte, and the limit is
    checked on the byte. */
module ComponentIDs {
  import opened Basics

  type TypeId = nat

  datatype Thread =
    | Idle
    | Called(t: TypeId)
    | Missed(t: TypeId)                 // the fast path found nothing
    | Allocated(t: TypeId, id: nat)     // holds a new ID
    | Stored(t: TypeId, id: nat)        // has published the mapping, not yet the arrays
    | Returning(t: TypeId, id: nat)
    | Panicked

  datatype State = State(
    types: map<TypeId, nat>,
    typesArr: map<nat, TypeId>,
    nextID: nat,
    threads: seq<Thread>,
    answers: set<(TypeId, nat)>)

  datatype Step =
    | Call(th: nat, t: TypeId) | Load(th: nat) | Allocate(th: nat) | LoadOrStore(th: nat) | WriteArrays(th: nat)
    | Return(th: nat)

  predicate Enabled(s: State, step: Step) {
    step.th < |s.threads| &&
    var thread := s.threads[step.th];
    match step
    case Call(_, _) => thread.Idle?
    case Load(_) => thread.Called?
    case Allocate(_) => thread.Missed?
    case LoadOrStore(_) => thread.Allocated?
    case WriteArrays(_) => thread.Stored?
    case Return(_) => thread.Returning? || thread.Panicked?
  }

  function Do(s: State, step: Step): State
    requires Enabled(s, step)
  {
    var th := step.th;
    var thread := s.threads[th];
    match step
    case Call(_, t) => s.(threads := s.threads[th := Called(t)])
    case Load(_) =>
      s.(threads := s.threads[th := if thread.t in s.types then Returning(thread.t, s.types[thread.t]) else Missed(thread.t)])
    case Allocate(_) =>
      var newID := s.nextID % 256;   // the byte conversion comes before the limit check
      s.(nextID := s.nextID + 1,
         threads := s.threads[th := if newID >= MAX_COMPONENTS then Panicked else Allocated(thread.t, newID)])
    case LoadOrStore(_) =>
      if thread.t in s.types then
        s.(threads := s.threads[th := Returning(thread.t, s.types[thread.t])])
      else
        s.(types := s.types[thread.t := thread.id], threads := s.threads[th := Stored(thread.t, thread.id)])
    case WriteArrays(_) =>
      s.(typesArr := s.typesArr[thread.id := thread.t], threads := s.threads[th := Returning(thread.t, thread.id)])
    case Return(_) =>
      s.(answers := if thread.Panicked? then s.answers else s.answers + {(thread.t, thread.id)},
         threads := s.threads[th := Idle])
  }

  function Init(n: nat): State {
    State(map[], map[], 0, seq(n, i => Idle), {})
  }

  ghost predicate IsRun(n: nat, steps: seq<Step>) {
    steps == [] ||
    (IsRun(n, steps[..|steps| - 1]) && Enabled(After(n, steps[..|steps| - 1]), steps[|steps| - 1]))
  }

  ghost function After(n: nat, steps: seq<Step>): State {
    if steps == [] then Init(n) else
    var s := After(n, steps[..|steps| - 1]);
    if Enabled(s, steps[|steps| - 1]) then Do(s, steps[|steps| - 1]) else s
  }

  // ---------- without any limit ----------

  /** A mapping never changes, in any step. */
  lemma MappingIsStable(s: State, step: Step, t: TypeId)
    requires Enabled(s, step) && t in s.types
    ensures t in Do(s, step).types && Do(s, step).types[t] == s.types[t]
  {
  }

  /** What threads are about to return, and what they returned, is what is mapped. */
  ghost predicate ReturnsMapped(s: State) {
    && (forall th: nat | th < |s.threads| && (s.threads[th].Stored? || s.threads[th].Returning?) ::
          s.threads[th].t in s.types && s.types[s.threads[th].t] == s.threads[th].id)
    && (forall r | r in s.answers :: r.0 in s.types && s.types[r.0] == r.1)
  }

  lemma {:induction false} AlwaysReturnsMapped(n: nat, steps: seq<Step>)
    requires IsRun(n, steps)
    ensures ReturnsMapped(After(n, steps))
  {
    if steps != [] {
      AlwaysReturnsMapped(n, steps[..|steps| - 1]);
    }
  }

  /** All calls for one type return the same ID, in any interleaving, past the limit or not. */
  lemma SameTypeSameID(n: nat, steps: seq<Step>, t: TypeId, i: nat, j: nat)
    requires IsRun(n, steps) && (t, i) in After(n, steps).answers && (t, j) in After(n, steps).answers
    ensures i == j
  {
    AlwaysReturnsMapped(n, steps);
  }

  // ---------- up to 256 allocations ----------

  ghost predicate Injective(types: map<TypeId, nat>) {
    forall t, u | t in types && u in types && types[t] == types[u] :: t == u
  }

  ghost predicate Unmapped(types: map<TypeId, nat>, id: nat) {
    forall t | t in types :: types[t] != id
  }

  /** Some thread is about to fill in the arrays for `t`. */
  ghost predicate BeingWritten(threads: seq<Thread>, t: TypeId, id: nat) {
    Stored(t, id) in threads
  }

  ghost predicate Unwrapped(s: State) {
    && Injective(s.types)
    && (forall t | t in s.types :: s.types[t] < s.nextID && s.types[t] < MAX_COMPONENTS)
    && (forall th: nat | th < |s.threads| && s.threads[th].Allocated? ::
          s.threads[th].id < s.nextID && s.threads[th].id < MAX_COMPONENTS && Unmapped(s.types, s.threads[th].id))
    && (forall th: nat, oh: nat | th < |s.threads| && oh < |s.threads| && th != oh
                                  && s.threads[th].Allocated? && s.threads[oh].Allocated? ::
          s.threads[th].id != s.threads[oh].id)
  }

  /** The arrays describe the mapping: an entry is unset or names the type with that ID, and it is set
      except while the thread that mapped the type has yet to write it. */
  ghost predicate ArraysAgree(s: State) {
    && (forall id | id in s.typesArr :: s.typesArr[id] in s.types && s.types[s.typesArr[id]] == id)
    && (forall t | t in s.types :: (s.types[t] in s.typesArr && s.typesArr[s.types[t]] == t)
                                   || BeingWritten(s.threads, t, s.types[t]))
  }

  lemma AllocateStep(s: State, th: nat)
    requires Unwrapped(s) && Enabled(s, Allocate(th)) && s.nextID < 256
    ensures Unwrapped(Do(s, Allocate(th)))
  {
    assert s.nextID % 256 == s.nextID;
  }

  lemma StoreStep(s: State, th: nat)
    requires Unwrapped(s) && Enabled(s, LoadOrStore(th))
    ensures Unwrapped(Do(s, LoadOrStore(th)))
  {
  }

  lemma OtherStep(s: State, step: Step)
    requires Unwrapped(s) && Enabled(s, step) && !step.Allocate? && !step.LoadOrStore?
    ensures Unwrapped(Do(s, step))
  {
    var s' := Do(s, step);
    assert forall th: nat | th < |s'.threads| && s'.threads[th].Allocated? :: s'.threads[th] == s.threads[th];
  }

  lemma UnwrappedStep(s: State, step: Step)
    requires Unwrapped(s) && Enabled(s, step) && Do(s, step).nextID <= 256
    ensures Unwrapped(Do(s, step))
  {
    if step.Allocate? {
      AllocateStep(s, step.th);
    } else if step.LoadOrStore? {
      StoreStep(s, step.th);
    } else {
      OtherStep(s, step);
    }
  }

  /** A thread that moves on, other than by writing the arrays, keeps every pending write pending. */
  lemma StillWritten(threads: seq<Thread>, th: nat, thread: Thread, t: TypeId, id: nat)
    requires th < |threads| && BeingWritten(threads, t, id)
    ensures BeingWritten(threads[th := thread], t, id) || threads[th] == Stored(t, id)
  {
    var k :| 0 <= k < |threads| && threads[k] == Stored(t, id);
    if k != th {
      assert threads[th := thread][k] == Stored(t, id);
    }
  }

  lemma ArraysStep(s: State, step: Step)
    requires Injective(s.types) && ReturnsMapped(s) && ArraysAgree(s) && Enabled(s, step)
    ensures ArraysAgree(Do(s, step))
  {
    var s', th := Do(s, step), step.th;
    forall t | t in s'.types
      ensures (s'.types[t] in s'.typesArr && s'.typesArr[s'.types[t]] == t) || BeingWritten(s'.threads, t, s'.types[t])
    {
      if t in s.types {
        if BeingWritten(s.threads, t, s.types[t]) {
          StillWritten(s.threads, th, s'.threads[th], t, s.types[t]);
        }
      } else {
        assert s'.threads[th] == Stored(t, s'.types[t]);
      }
    }
  }

  lemma {:induction false} WithinLimit(n: nat, steps: seq<Step>)
    requires IsRun(n, steps) && After(n, steps).nextID <= 256
    ensures Unwrapped(After(n, steps)) && ArraysAgree(After(n, steps))
  {
    if steps != [] {
      var before, step := steps[..|steps| - 1], steps[|steps| - 1];
      WithinLimit(n, before);
      AlwaysReturnsMapped(n, before);
      UnwrappedStep(After(n, before), step);
      ArraysStep(After(n, before), step);
    }
  }

  /** Up to 256 allocations: distinct types never share an ID, the arrays agree with the mapping, and
      they are set for a type once the call that mapped it has returned. */
  lemma DistinctTypesDistinctIDs(n: nat, steps: seq<Step>)
    requires IsRun(n, steps) && After(n, steps).nextID <= 256
    ensures Injective(After(n, steps).types)
    ensures ArraysAgree(After(n, steps))
    ensures forall t, id | (t, id) in After(n, steps).answers && !BeingWritten(After(n, steps).threads, t, id) ::
              id in After(n, steps).typesArr && After(n, steps).typesArr[id] == t
  {
    WithinLimit(n, steps);
    AlwaysReturnsMapped(n, steps);
  }

  /** Drawn, but neither mapped nor held by a thread that could still map it. */
  ghost predicate Wasted(s: State, id: nat) {
    id < s.nextID && Unmapped(s.types, id) && forall t :: Allocated(t, id) !in s.threads
  }

  /** The loser of LoadOrStore wastes its ID. */
  lemma LosingWastes(s: State, th: nat)
    requires Unwrapped(s) && Enabled(s, LoadOrStore(th)) && s.threads[th].t in s.types
    ensures Wasted(Do(s, LoadOrStore(th)), s.threads[th].id)
  {
    var id := s.threads[th].id;
    forall t ensures Allocated(t, id) !in Do(s, LoadOrStore(th)).threads {
      forall k: nat | k < |s.threads| && k != th ensures s.threads[k] != Allocated(t, id) {
      }
    }
  }

  /** A wasted ID is never mapped afterwards, as long as the counter has not wrapped. */
  lemma WastedForGood(s: State, step: Step, id: nat)
    requires Unwrapped(s) && Wasted(s, id) && Enabled(s, step) && Do(s, step).nextID <= 256
    ensures Wasted(Do(s, step), id)
  {
    var s', th := Do(s, step), step.th;
    forall t ensures Allocated(t, id) !in s'.threads {
      forall k: nat | k < |s'.threads| ensures s'.threads[k] != Allocated(t, id) {
        assert s.threads[k] in s.threads;
      }
    }
  }

  lemma {:induction false} StartOfRun(n: nat, steps: seq<Step>, k: nat)
    requires IsRun(n, steps) && k <= |steps|
    ensures IsRun(n, steps[..k]) && After(n, steps[..k]).nextID <= After(n, steps).nextID
  {
    if k < |steps| {
      StartOfRun(n, steps[..|steps| - 1], k);
      assert steps[..|steps| - 1][..k] == steps[..k];
    } else {
      assert steps[..k] == steps;
    }
  }

  /** In every run of at most 256 draws: a call that finds its type mapped by somebody else wastes the ID it has
      drawn, and the ID is never mapped in the rest of the run. */
  lemma LoserIDNeverMapped(n: nat, steps: seq<Step>, k: nat, th: nat)
    requires IsRun(n, steps) && After(n, steps).nextID <= 256 && k < |steps| && steps[k] == LoadOrStore(th)
    requires th < |After(n, steps[..k]).threads| && After(n, steps[..k]).threads[th].Allocated?
    requires After(n, steps[..k]).threads[th].t in After(n, steps[..k]).types
    ensures Wasted(After(n, steps), After(n, steps[..k]).threads[th].id)
    ensures Unmapped(After(n, steps).types, After(n, steps[..k]).threads[th].id)
  {
    var s := After(n, steps[..k]);
    StartOfRun(n, steps, k);
    StartOfRun(n, steps, k + 1);
    WithinLimit(n, steps[..k]);
    LosingWastes(s, th);
    assert steps[..k + 1][..k] == steps[..k];
    assert After(n, steps[..k + 1]) == Do(s, LoadOrStore(th));
    StaysWasted(n, steps, k + 1, s.threads[th].id);
  }

  lemma {:induction false} StaysWasted(n: nat, steps: seq<Step>, k: nat, id: nat)
    requires IsRun(n, steps) && After(n, steps).nextID <= 256 && k <= |steps| && Wasted(After(n, steps[..k]), id)
    ensures Wasted(After(n, steps), id)
  {
    if k == |steps| {
      assert steps[..k] == steps;
    } else {
      var front := steps[..|steps| - 1];
      assert front[..k] == steps[..k];
      StartOfRun(n, steps, |steps| - 1);
      StaysWasted(n, front, k, id);
      WithinLimit(n, front);
      WastedForGood(After(n, front), steps[|steps| - 1], id);
    }
  }

  // ---------- past 256 allocations ----------

  /** One whole call on thread 0 while nobody else runs. */
  function Register(s: State, t: TypeId): State
    requires |s.threads| == 1 && s.threads[0].Idle? && t !in s.types
  {
    var a := Do(Do(Do(s, Call(0, t)), Load(0)), Allocate(0));
    if a.threads[0].Panicked? then Do(a, Return(0))
    else Do(Do(Do(a, LoadOrStore(0)), WriteArrays(0)), Return(0))
  }

  lemma Append(steps: seq<Step>, step: Step) returns (more: seq<Step>)
    requires IsRun(1, steps) && Enabled(After(1, steps), step)
    ensures IsRun(1, more) && After(1, more) == Do(After(1, steps), step)
  {
    more := steps + [step];
    assert more[..|more| - 1] == steps;
  }

  lemma RegisterEffect(s: State, t: TypeId)
    requires |s.threads| == 1 && s.threads[0].Idle? && t !in s.types
    ensures |Register(s, t).threads| == 1 && Register(s, t).threads[0].Idle?
    ensures Register(s, t).nextID == s.nextID + 1
    ensures Register(s, t).types ==
            if s.nextID % 256 >= MAX_COMPONENTS then s.types else s.types[t := s.nextID % 256]
    ensures Register(s, t).answers ==
            if s.nextID % 256 >= MAX_COMPONENTS then s.answers else s.answers + {(t, s.nextID % 256)}
  {
  }

  /** A call for a mapped type returns its ID without drawing another; alone it takes three steps. */
  lemma RegisterAgain(s: State, th: nat, t: TypeId)
    requires th < |s.threads| && s.threads[th].Idle? && t in s.types
    ensures Enabled(s, Call(th, t)) && Enabled(Do(s, Call(th, t)), Load(th))
    ensures Enabled(Do(Do(s, Call(th, t)), Load(th)), Return(th))
    ensures var n := Do(Do(Do(s, Call(th, t)), Load(th)), Return(th));
            n == s.(answers := s.answers + {(t, s.types[t])})
  {
    assert s.threads[th := Idle] == s.threads;
  }

  lemma RegisterIsRun(steps: seq<Step>, t: TypeId) returns (more: seq<Step>)
    requires IsRun(1, steps)
    requires |After(1, steps).threads| == 1 && After(1, steps).threads[0].Idle? && t !in After(1, steps).types
    ensures IsRun(1, more) && After(1, more) == Register(After(1, steps), t)
  {
    more := Append(steps, Call(0, t));
    more := Append(more, Load(0));
    more := Append(more, Allocate(0));
    if !After(1, more).threads[0].Panicked? {
      more := Append(more, LoadOrStore(0));
      more := Append(more, WriteArrays(0));
    }
    more := Append(more, Return(0));
  }

  ghost predicate Registered(s: State, n: nat) {
    && |s.threads| == 1 && s.threads[0].Idle? && s.nextID == n
    && (forall t | t in s.types :: t < n)
    && (n > 0 ==> 0 in s.types && s.types[0] == 0)
    && (n > 256 ==> 256 in s.types && s.types[256] == 0)
  }

  lemma RegisterNext(s: State, n: nat)
    requires Registered(s, n)
    ensures n !in s.types && Registered(Register(s, n), n + 1)
  {
    RegisterEffect(s, n);
  }

  lemma RegisterOneMore(steps: seq<Step>, n: nat) returns (more: seq<Step>)
    requires IsRun(1, steps) && Registered(After(1, steps), n)
    ensures IsRun(1, more) && Registered(After(1, more), n + 1)
  {
    RegisterNext(After(1, steps), n);
    more := RegisterIsRun(steps, n);
  }

  /** Registering the types 0, 1, .., n - 1 one after the other: the counter says n, and from the 257th
      registration on, type 256 shares the ID of type 0. */
  lemma {:induction false} RegisterMany(n: nat) returns (steps: seq<Step>)
    ensures IsRun(1, steps) && Registered(After(1, steps), n)
  {
    if n == 0 {
      steps := [];
    } else {
      steps := RegisterMany(n - 1);
      steps := RegisterOneMore(steps, n - 1);
    }
  }

  /** A run that draws `n` IDs and leaves two types with the same one. */
  ghost predicate SharesID(threads: nat, steps: seq<Step>, n: nat) {
    IsRun(threads, steps) && After(threads, steps).nextID == n && !Injective(After(threads, steps).types)
  }

  /** A call panics exactly when the byte it draws is 255: the first 255 draws and those after the 256th pass. */
  lemma PanicsIff(s: State, th: nat)
    requires Enabled(s, Allocate(th))
    ensures Do(s, Allocate(th)).threads[th].Panicked? <==> s.nextID % 256 == 255
    ensures !Do(s, Allocate(th)).threads[th].Panicked? ==>
              Do(s, Allocate(th)).threads[th] == Allocated(s.threads[th].t, s.nextID % 256)
  {}

  /** Some call of the run has panicked on the limit. */
  ghost predicate HasPanicked(n: nat, steps: seq<Step>) {
    exists k, th: nat :: 0 <= k <= |steps| && th < |After(n, steps[..k]).threads| && After(n, steps[..k]).threads[th].Panicked?
  }

  /** Nobody draws past the limit before a call has panicked there. */
  lemma {:induction false} LimitPanics(n: nat, steps: seq<Step>)
    requires IsRun(n, steps) && After(n, steps).nextID >= 256
    ensures HasPanicked(n, steps)
  {
    if steps != [] {
      var m := |steps| - 1;
      var front := steps[..m];
      if After(n, front).nextID >= 256 {
        LimitPanics(n, front);
        var k, th: nat :| 0 <= k <= m && th < |After(n, front[..k]).threads| && After(n, front[..k]).threads[th].Panicked?;
        assert front[..k] == steps[..k];
      } else {
        assert steps[..|steps|] == steps;
        assert After(n, steps[..|steps|]).threads[steps[m].th].Panicked?;
      }
    }
  }

  /** While no call has panicked, the mapping is injective: types share an ID only in a program that recovers from the
      panic and goes on registering. */
  lemma SharingFollowsPanic(n: nat, steps: seq<Step>)
    requires IsRun(n, steps) && !Injective(After(n, steps).types)
    ensures HasPanicked(n, steps)
  {
    if After(n, steps).nextID < 256 {
      WithinLimit(n, steps);
    } else {
      LimitPanics(n, steps);
    }
  }

  /** Two types can end up with one ID exactly when more than 256 IDs have been drawn: the byte conversion
      wraps before the limit check, so the check stops only the draw that lands on 255. */
  lemma SharedIDIffWrapped(n: nat)
    ensures (exists threads: nat, steps: seq<Step> :: SharesID(threads, steps, n)) <==> n > 256
  {
    if threads: nat, steps: seq<Step> :| SharesID(threads, steps, n) {
      if n <= 256 { WithinLimit(threads, steps); }
    }
    if n > 256 {
      var steps := RegisterMany(n);
      var types := After(1, steps).types;
      assert 0 in types && 256 in types && types[0] == types[256];
      assert !Injective(types);
      assert SharesID(1, steps, n);
    }
  }

  // ---------- nobody waits ----------

  /** Registration is lock-free in the strongest sense: every thread can always take a step. */
  lemma NobodyWaits(s: State, th: nat)
    requires th < |s.threads|
    ensures exists step: Step :: step.th == th && Enabled(s, step)
  {
    var step := match s.threads[th]
      case Idle => Call(th, 0)
      case Called(_) => Load(th)
      case Missed(_) => Allocate(th)
      case Allocated(_, _) => LoadOrStore(th)
      case Stored(_, _) => WriteArrays(th)
      case _ => Return(th);
    assert step.th == th && Enabled(s, step);
  }
}
