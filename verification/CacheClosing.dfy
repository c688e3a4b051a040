/** Closing one cache entry: when a close can be lost, what is left of the entry then, and when the clean-up can
    happen again. */
module CacheClosings {
  import opened CacheEntries

  // ---------- runs ----------

  lemma {:induction false} Concat(s: State, a: seq<Step>, b: seq<Step>)
    requires IsRun(s, a) && IsRun(After(s, a), b)
    ensures IsRun(s, a + b) && After(s, a + b) == After(After(s, a), b)
    decreases |a|
  {
    if a == [] {
      assert a + b == b;
    } else {
      assert (a + b)[1..] == a[1..] + b;
      Concat(Do(s, a[0]), a[1..], b);
    }
  }

  lemma One(s: State, step: Step)
    requires Enabled(s, step)
    ensures IsRun(s, [step]) && After(s, [step]) == Do(s, step)
  {
    assert [step][1..] == [];
    assert After(Do(s, step), []) == Do(s, step);
  }

  /** No step starts another close on thread `t`. */
  ghost predicate NoCloseBy(steps: seq<Step>, t: nat) {
    forall step | step in steps :: step != Close(t)
  }

  /** The close on thread `t` comes to its last swap and finds an entry that is neither in the error state nor closing. */
  ghost predicate Lost(s: State, t: nat) {
    t < |s.threads| && s.threads[t].TryError? && s.status != Error && s.status != Closing
  }

  /** That is a close that gives up and leaves the entry open. */
  lemma LostGivesUp(s: State, t: nat)
    requires t < |s.threads| && s.threads[t].TryError?
    ensures Lost(s, t) <==> Do(s, TrySwap(t)).threads[t] == Closed(t) && Do(s, TrySwap(t)).status != Closing
    ensures Lost(s, t) ==> Do(s, TrySwap(t)).missed == s.missed + 1 && Do(s, TrySwap(t)).cleanups == s.cleanups
  {}

  ghost predicate CanBeLost(s: State, t: nat) {
    exists steps :: IsRun(s, steps) && NoCloseBy(steps, t) && Lost(After(s, steps), t)
  }

  // ---------- when a close cannot be lost ----------

  /** The thread has the entry and may fetch it if it is pending when the thread comes to look. */
  predicate InHand(th: Thread) {
    match th
    case Found => true
    case Loaded(st) => st == Pending
    case WantLock => true
    case Locked => true
    case Fetching => true
    case BatchFound => true
    case BatchWant => true
    case BatchLocked => true
    case Installing => true
    case _ => false
  }

  /** The thread has the entry and may retry it if it is in the error state. */
  predicate MayRetry(th: Thread) {
    th.Found? || th == Loaded(Error)
  }

  /** A resolving thread that can bring a pending entry to an outcome: it has the entry, or finds it in the map. */
  predicate CanFetch(s: State, u: nat) {
    u < |s.threads| && !IsCloser(u) && (s.present || InHand(s.threads[u]))
  }

  /** A resolving thread that can bring an entry from the error state back to pending. */
  predicate CanRetry(s: State, u: nat) {
    u < |s.threads| && !IsCloser(u) && (s.present || MayRetry(s.threads[u]))
  }

  ghost predicate Dead(s: State) {
    s.status == Closing && !SomeBusy(s.threads)
  }

  /** Whatever happens, the close on thread `t` will not be lost. */
  ghost predicate Settled(s: State, t: nat) {
    && t < |s.threads|
    && match s.status
       case Closing => !SomeBusy(s.threads)
       case Ready => s.threads[t].TryReady?
       case Pending => (s.threads[t].TryReady? || s.threads[t].TryPending?) && forall u: nat :: !CanFetch(s, u)
       case Error => MidClose(s.threads[t]) && forall u: nat :: !CanRetry(s, u)
  }

  /** A closing entry that nobody is fetching stays so. */
  lemma DeadStep(s: State, step: Step)
    requires Dead(s) && Enabled(s, step)
    ensures Dead(Do(s, step)) && Do(s, step).cleanups == s.cleanups
  {
    assert s.threads[step.t] in s.threads;
    BusyAfter(s.threads, step.t, Do(s, step).threads[step.t]);
  }

  lemma NobodyFetches(s: State)
    requires Roles(s) && forall u: nat :: !CanFetch(s, u)
    ensures !SomeBusy(s.threads)
  {
    forall th | th in s.threads
      ensures !Busy(th)
    {
      var u :| 0 <= u < |s.threads| && s.threads[u] == th;
      assert !CanFetch(s, u);
    }
  }

  lemma NobodyComesToFetch(s: State, step: Step)
    requires Disciplined(s) && s.status == Pending && (forall u: nat :: !CanFetch(s, u)) && Enabled(s, step)
    ensures forall u: nat :: !CanFetch(Do(s, step), u)
  {
    GoesByRole(s, step);
    assert !CanFetch(s, step.t);
    assert !CanFetch(Do(s, step), step.t);
    forall u: nat | u != step.t
      ensures !CanFetch(Do(s, step), u)
    {
      assert !CanFetch(s, u);
    }
  }

  lemma NobodyComesToRetry(s: State, step: Step)
    requires Disciplined(s) && s.status == Error && (forall u: nat :: !CanRetry(s, u)) && Enabled(s, step)
    ensures forall u: nat :: !CanRetry(Do(s, step), u)
  {
    GoesByRole(s, step);
    assert !CanRetry(s, step.t);
    assert !CanRetry(Do(s, step), step.t);
    forall u: nat | u != step.t
      ensures !CanRetry(Do(s, step), u)
    {
      assert !CanRetry(s, u);
    }
  }

  lemma SettledStep(s: State, t: nat, step: Step)
    requires Disciplined(s) && Settled(s, t) && Enabled(s, step)
    ensures Settled(Do(s, step), t)
  {
    var n := Do(s, step);
    GoesByRole(s, step);
    assert s.threads[step.t] in s.threads;
    BusyAfter(s.threads, step.t, n.threads[step.t]);
    match s.status
    case Closing => DeadStep(s, step);
    case Ready =>
    case Pending =>
      NobodyFetches(s);
      NobodyComesToFetch(s, step);
      assert !CanFetch(s, step.t);
    case Error =>
      NobodyComesToRetry(s, step);
      assert !CanRetry(s, step.t);
  }

  lemma {:induction false} StaysSettled(s: State, t: nat, steps: seq<Step>)
    requires Disciplined(s) && Settled(s, t) && IsRun(s, steps)
    ensures Settled(After(s, steps), t)
    decreases |steps|
  {
    if steps != [] {
      SettledStep(s, t, steps[0]);
      StepKeepsDiscipline(s, steps[0]);
      StaysSettled(Do(s, steps[0]), t, steps[1..]);
    }
  }

  // ---------- when it can ----------

  /** The next step of a thread that wants to get at the entry. */
  function Onward(th: Thread, a: nat, retry: bool): Step {
    match th
    case Idle => Resolve(a)
    case Found => Read(a)
    case Loaded(_) => Proceed(a, retry)
    case BatchFound => BatchRead(a, true)
    case WantLock => Lock(a)
    case BatchWant => Lock(a)
    case Locked => Check(a)
    case BatchLocked => BatchCheck(a, true)
    case Fetching => FetchEnd(a, true)
    case Installing => Install(a, true)
    case _ => Unlock(a)
  }

  /** Steps left until a fetch or an install ends on a pending entry. */
  function ToReady(th: Thread): nat {
    match th
    case Fetching => 1
    case Installing => 1
    case Locked => 2
    case BatchLocked => 2
    case WantLock => 3
    case BatchWant => 3
    case BatchFound => 4
    case Loaded(st) => if st == Pending then 4 else 7
    case Found => 5
    case Idle => 6
    case _ => 7
  }

  /** Steps left until a retry on an entry in the error state. */
  function ToRetry(th: Thread): nat {
    match th
    case Loaded(st) => if st == Error then 1 else if st == Pending then 7 else 4
    case Found => 2
    case Idle => 3
    case Unlocking => 4
    case BatchFound => 4
    case Locked => 5
    case BatchLocked => 5
    case _ => 6
  }

  /** Thread `a` can act: nobody else holds the lock. */
  ghost predicate Free(s: State, a: nat) {
    a < |s.threads| && (s.lock == {} || Holds(s.threads[a]))
  }

  /** Steps of others, after which the entry is in `status` and the close on `t` is where it was. */
  ghost predicate Brings(s: State, t: nat, steps: seq<Step>, status: Status) {
    && t < |s.threads| && IsRun(s, steps) && NoCloseBy(steps, t)
    && |After(s, steps).threads| == |s.threads|
    && After(s, steps).status == status && After(s, steps).threads[t] == s.threads[t]
  }

  lemma Add(s: State, t: nat, step: Step, rest: seq<Step>, status: Status)
    requires Enabled(s, step) && step.t != t && t < |s.threads| && Brings(Do(s, step), t, rest, status)
    ensures Brings(s, t, [step] + rest, status)
  {
    assert ([step] + rest)[1..] == rest;
  }

  lemma {:induction false} BringReady(s: State, t: nat, a: nat) returns (steps: seq<Step>)
    requires Disciplined(s) && s.status == Pending && t < |s.threads| && IsCloser(t)
    requires Free(s, a) && CanFetch(s, a)
    ensures Brings(s, t, steps, Ready)
    decreases ToReady(s.threads[a])
  {
    var step := Onward(s.threads[a], a, false);
    var next := Do(s, step);
    StepKeepsDiscipline(s, step);
    if Busy(s.threads[a]) {
      steps := [];
    } else {
      steps := BringReady(next, t, a);
    }
    Add(s, t, step, steps, Ready);
    steps := [step] + steps;
  }

  lemma {:induction false} BringPending(s: State, t: nat, a: nat) returns (steps: seq<Step>)
    requires Disciplined(s) && s.status == Error && t < |s.threads| && IsCloser(t)
    requires CanRetry(s, a) && (MayRetry(s.threads[a]) || Free(s, a))
    ensures Brings(s, t, steps, Pending)
    decreases ToRetry(s.threads[a])
  {
    assert !Busy(s.threads[a]) by {
      assert s.threads[a] in s.threads;
    }
    var step := Onward(s.threads[a], a, true);
    var next := Do(s, step);
    StepKeepsDiscipline(s, step);
    if s.threads[a] == Loaded(Error) {
      steps := [];
    } else {
      steps := BringPending(next, t, a);
    }
    Add(s, t, step, steps, Pending);
    steps := [step] + steps;
  }

  /** Whoever holds the lock either does it itself or lets go. */
  lemma HelpFetch(s: State, t: nat, u: nat) returns (steps: seq<Step>)
    requires Disciplined(s) && s.status == Pending && t < |s.threads| && IsCloser(t) && CanFetch(s, u)
    ensures Brings(s, t, steps, Ready)
  {
    if s.lock == {} {
      steps := BringReady(s, t, u);
    } else {
      var h :| h in s.lock;
      if CanFetch(s, h) {
        steps := BringReady(s, t, h);
      } else {
        StepKeepsDiscipline(s, Unlock(h));
        steps := BringReady(Do(s, Unlock(h)), t, u);
        Add(s, t, Unlock(h), steps, Ready);
        steps := [Unlock(h)] + steps;
      }
    }
  }

  lemma HelpRetry(s: State, t: nat, u: nat) returns (steps: seq<Step>)
    requires Disciplined(s) && s.status == Error && t < |s.threads| && IsCloser(t) && CanRetry(s, u)
    ensures Brings(s, t, steps, Pending)
  {
    if MayRetry(s.threads[u]) || s.lock == {} {
      steps := BringPending(s, t, u);
    } else {
      var h :| h in s.lock;
      steps := BringPending(s, t, h);
    }
  }

  /** What thread `t` does by itself at the start of a close that misses twice. */
  lemma MissTwice(s: State, t: nat)
    requires t < |s.threads| && s.threads[t].TryReady? && s.status != Ready && s.status != Pending
    ensures IsRun(s, [TrySwap(t), TrySwap(t)]) && NoCloseBy([TrySwap(t), TrySwap(t)], t)
    ensures After(s, [TrySwap(t), TrySwap(t)]) == s.(threads := s.threads[t := TryError])
  {
    var next := s.(threads := s.threads[t := TryPending]);
    One(s, TrySwap(t));
    assert Do(s, TrySwap(t)) == next;
    One(next, TrySwap(t));
    assert Do(next, TrySwap(t)).threads == s.threads[t := TryError];
    Concat(s, [TrySwap(t)], [TrySwap(t)]);
    assert [TrySwap(t)] + [TrySwap(t)] == [TrySwap(t), TrySwap(t)];
  }

  /** The state of a swap that misses: only the thread moves on. */
  lemma MoveKeepsDiscipline(s: State, t: nat, th: Thread)
    requires Disciplined(s) && t < |s.threads| && MidClose(s.threads[t]) && MidClose(th)
    ensures Disciplined(s.(threads := s.threads[t := th]))
  {
    BusyAfter(s.threads, t, th);
  }

  /** A pending entry: the close misses once, somebody fetches, and it misses the other two. */
  lemma LosePending(s: State, t: nat, u: nat) returns (steps: seq<Step>)
    requires Disciplined(s) && s.status == Pending && t < |s.threads| && s.threads[t].TryReady? && CanFetch(s, u)
    ensures IsRun(s, steps) && NoCloseBy(steps, t) && Lost(After(s, steps), t)
  {
    var first := Do(s, TrySwap(t));
    StepKeepsDiscipline(s, TrySwap(t));
    var bring := HelpFetch(first, t, u);
    var there := After(first, bring);
    One(s, TrySwap(t));
    One(there, TrySwap(t));
    Concat(s, [TrySwap(t)], bring);
    Concat(s, [TrySwap(t)] + bring, [TrySwap(t)]);
    steps := [TrySwap(t)] + bring + [TrySwap(t)];
  }

  /** An entry in the error state: the close misses twice, somebody retries, and it misses the third. */
  lemma LoseError(s: State, t: nat, u: nat) returns (steps: seq<Step>)
    requires Disciplined(s) && s.status == Error && t < |s.threads| && s.threads[t].TryReady? && CanRetry(s, u)
    ensures IsRun(s, steps) && NoCloseBy(steps, t) && Lost(After(s, steps), t)
  {
    var next := s.(threads := s.threads[t := TryError]);
    MissTwice(s, t);
    MoveKeepsDiscipline(s, t, TryError);
    var bring := HelpRetry(next, t, u);
    Concat(s, [TrySwap(t), TrySwap(t)], bring);
    steps := [TrySwap(t), TrySwap(t)] + bring;
  }

  /** A closing entry that is being fetched: the close misses twice, and the fetch reopens the entry. */
  lemma LoseClosing(s: State, t: nat) returns (steps: seq<Step>)
    requires Disciplined(s) && s.status == Closing && SomeBusy(s.threads) && t < |s.threads| && s.threads[t].TryReady?
    ensures IsRun(s, steps) && NoCloseBy(steps, t) && Lost(After(s, steps), t)
  {
    var next := s.(threads := s.threads[t := TryError]);
    MissTwice(s, t);
    var b :| 0 <= b < |s.threads| && Busy(s.threads[b]);
    var step := Onward(s.threads[b], b, false);
    One(next, step);
    Concat(s, [TrySwap(t), TrySwap(t)], [step]);
    steps := [TrySwap(t), TrySwap(t)] + [step];
  }

  /** A close that has just begun can be lost, in some continuation, exactly when the entry is pending and some thread
      can still fetch it, or it is in the error state and some thread can still retry it, or it is closing but still
      being fetched. A ready entry is never lost. */
  lemma CloseCanBeLostIff(s: State, t: nat)
    requires Disciplined(s) && t < |s.threads| && s.threads[t].TryReady?
    ensures CanBeLost(s, t) <==>
            match s.status
            case Ready => false
            case Closing => SomeBusy(s.threads)
            case Pending => exists u: nat :: CanFetch(s, u)
            case Error => exists u: nat :: CanRetry(s, u)
  {
    if Settled(s, t) {
      if steps :| IsRun(s, steps) && NoCloseBy(steps, t) && Lost(After(s, steps), t) {
        StaysSettled(s, t, steps);
      }
    } else {
      match s.status
      case Ready =>
      case Closing => var steps := LoseClosing(s, t);
      case Pending =>
        var u: nat :| CanFetch(s, u);
        var steps := LosePending(s, t, u);
      case Error =>
        var u: nat :| CanRetry(s, u);
        var steps := LoseError(s, t, u);
    }
  }

  // ---------- who is left to close ----------

  /** A close is under way, or a closer can still come to the entry. */
  ghost predicate CloserLeft(s: State) {
    exists c: nat :: c < |s.threads| && (MidClose(s.threads[c]) || CanClose(s, c))
  }

  lemma NoCloserStep(s: State, step: Step)
    requires Disciplined(s) && !CloserLeft(s) && Enabled(s, step)
    ensures !CloserLeft(Do(s, step)) && Do(s, step).cleanups == s.cleanups
    ensures s.status != Closing ==> Do(s, step).status != Closing
  {
    var n := Do(s, step);
    GoesByRole(s, step);
    assert !(MidClose(s.threads[step.t]) || CanClose(s, step.t));
    forall c: nat | c < |n.threads|
      ensures !(MidClose(n.threads[c]) || CanClose(n, c))
    {
      assert !(MidClose(s.threads[c]) || CanClose(s, c));
    }
  }

  /** With nobody left to close it, an entry that is open stays open for good, and is not cleaned up again. */
  lemma {:induction false} NeverClosedAgain(s: State, steps: seq<Step>)
    requires Disciplined(s) && !CloserLeft(s) && IsRun(s, steps)
    ensures After(s, steps).cleanups == s.cleanups
    ensures s.status != Closing ==> After(s, steps).status != Closing
    decreases |steps|
  {
    if steps != [] {
      NoCloserStep(s, steps[0]);
      StepKeepsDiscipline(s, steps[0]);
      NeverClosedAgain(Do(s, steps[0]), steps[1..]);
    }
  }

  /** A new entry that its only resolving thread has come to fetch. */
  const FETCHING: State := State(Pending, {2}, [Idle, Idle, Fetching], 1, 0, 0, 0, 0, 0, true, false)

  lemma FirstFetch(rest: seq<Step>) returns (steps: seq<Step>)
    requires IsRun(FETCHING, rest)
    ensures IsRun(Init(1), steps) && After(Init(1), steps) == After(FETCHING, rest)
  {
    var s0 := Init(1);
    assert s0.threads == [Idle, Idle, Idle];
    var s3 := s0.(threads := [Idle, Idle, WantLock]);
    var s4 := s0.(lock := {2}, threads := [Idle, Idle, Locked]);
    steps := Prepend(s4, Check(2), FETCHING, rest);
    steps := Prepend(s3, Lock(2), s4, steps);
    steps := FirstLook(s3, steps);
  }

  lemma FirstLook(s3: State, rest: seq<Step>) returns (steps: seq<Step>)
    requires s3 == Init(1).(threads := [Idle, Idle, WantLock]) && IsRun(s3, rest)
    ensures IsRun(Init(1), steps) && After(Init(1), steps) == After(s3, rest)
  {
    var s0 := Init(1);
    assert s0.threads == [Idle, Idle, Idle];
    var s1 := s0.(threads := [Idle, Idle, Found]);
    var s2 := s0.(threads := [Idle, Idle, Loaded(Pending)]);
    steps := Prepend(s2, Proceed(2, false), s3, rest);
    steps := Prepend(s1, Read(2), s2, steps);
    steps := Prepend(s0, Resolve(2), s1, steps);
  }

  const LEAKED: State := State(Ready, {2}, [Idle, Idle, Unlocking], 1, 0, 0, 1, 0, 0, false, false)

  lemma SweepMisses(rest: seq<Step>) returns (steps: seq<Step>)
    requires IsRun(LEAKED, rest)
    ensures IsRun(FETCHING.(status := Ready, threads := [TryPending, Idle, Unlocking]), steps)
    ensures After(FETCHING.(status := Ready, threads := [TryPending, Idle, Unlocking]), steps) == After(LEAKED, rest)
  {
    var s3 := FETCHING.(status := Ready, threads := [TryPending, Idle, Unlocking]);
    var s4 := s3.(threads := [TryError, Idle, Unlocking]);
    var s5 := s4.(threads := [Deleting, Idle, Unlocking], missed := 1);
    steps := Prepend(s5, Delete(SWEEPER), LEAKED, rest);
    steps := Prepend(s4, TrySwap(SWEEPER), s5, steps);
    steps := Prepend(s3, TrySwap(SWEEPER), s4, steps);
  }

  lemma SweepUnderFetch(rest: seq<Step>) returns (steps: seq<Step>)
    requires IsRun(FETCHING.(threads := [TryPending, Idle, Fetching]), rest)
    ensures IsRun(FETCHING, steps) && After(FETCHING, steps) == After(FETCHING.(threads := [TryPending, Idle, Fetching]), rest)
  {
    var s1 := FETCHING.(threads := [TryReady, Idle, Fetching]);
    var s2 := FETCHING.(threads := [TryPending, Idle, Fetching]);
    steps := Prepend(s1, TrySwap(SWEEPER), s2, rest);
    steps := Prepend(FETCHING, Close(SWEEPER), s1, steps);
  }

  lemma SweepLost() returns (steps: seq<Step>)
    ensures IsRun(Init(1), steps) && After(Init(1), steps) == LEAKED
  {
    var s2 := FETCHING.(threads := [TryPending, Idle, Fetching]);
    steps := SweepMisses([]);
    steps := Prepend(s2, FetchEnd(2, true), FETCHING.(status := Ready, threads := [TryPending, Idle, Unlocking]), steps);
    steps := SweepUnderFetch(steps);
    steps := FirstFetch(steps);
  }

  /** The clean-up loop loses its close to a fetch and deletes the entry all the same: nobody finds the entry any more,
      and it is never closed. */
  lemma LostSweepLeaks(more: seq<Step>) returns (steps: seq<Step>)
    requires IsRun(LEAKED, more)
    ensures IsRun(Init(1), steps) && After(Init(1), steps) == LEAKED
    ensures After(LEAKED, more).status != Closing && After(LEAKED, more).cleanups == 0
  {
    steps := SweepLost();
    InitIsDisciplined(1);
    FetchesArePaidFor(Init(1), steps);
    NeverClosedAgain(LEAKED, more);
  }

  // ---------- cleaning up again ----------

  /** Each clean-up but the last has been undone by an outcome stored over Closing; the clean-up loop and stop clean up
      once each at most. */
  ghost predicate CleanupsPaid(s: State) {
    && |s.threads| >= 2
    && s.cleanups == s.reopened + (if s.status == Closing then 1 else 0)
    && s.cleanups <= (if s.present && !s.threads[SWEEPER].Cleaning? && !s.threads[SWEEPER].Deleting? then 0 else 1)
                     + (if s.stopped && !MidClose(s.threads[STOPPER]) then 1 else 0)
  }

  lemma CleanupsStep(s: State, step: Step)
    requires Roles(s) && CleanupsPaid(s) && Enabled(s, step)
    ensures CleanupsPaid(Do(s, step))
  {
    GoesByRole(s, step);
  }

  /** Over every run the update channel is closed at most twice, once more than the entry was reopened if it is closing
      and as often if it is not. */
  lemma {:induction false} CleanupsAreFew(s: State, steps: seq<Step>)
    requires Disciplined(s) && CleanupsPaid(s) && IsRun(s, steps)
    ensures CleanupsPaid(After(s, steps)) && After(s, steps).cleanups <= 2
    decreases |steps|
  {
    if steps != [] {
      CleanupsStep(s, steps[0]);
      StepKeepsDiscipline(s, steps[0]);
      CleanupsAreFew(Do(s, steps[0]), steps[1..]);
    }
  }

  lemma {:induction false} StaysDead(s: State, steps: seq<Step>)
    requires Dead(s) && IsRun(s, steps)
    ensures After(s, steps).cleanups == s.cleanups
    decreases |steps|
  {
    if steps != [] {
      DeadStep(s, steps[0]);
      StaysDead(Do(s, steps[0]), steps[1..]);
    }
  }

  /** In the error state a close that is under way wins by the last swap. */
  lemma {:induction false} SwapOn(s: State, c: nat) returns (steps: seq<Step>)
    requires c < |s.threads| && MidClose(s.threads[c]) && s.status == Error
    ensures IsRun(s, steps) && After(s, steps).cleanups == s.cleanups + 1
    decreases if s.threads[c].TryReady? then 2 else if s.threads[c].TryPending? then 1 else 0
  {
    var next := Do(s, TrySwap(c));
    if s.threads[c].TryError? {
      steps := [];
    } else {
      steps := SwapOn(next, c);
    }
    steps := Prepend(s, TrySwap(c), next, steps);
  }

  /** The busy thread fails, and the other closer closes the entry again. */
  lemma CleanAgain(s: State, b: nat, c: nat) returns (steps: seq<Step>)
    requires Disciplined(s) && s.status == Closing && b < |s.threads| && Busy(s.threads[b])
    requires c < |s.threads| && (MidClose(s.threads[c]) || CanClose(s, c))
    ensures IsRun(s, steps) && After(s, steps).cleanups == s.cleanups + 1
  {
    var begun := if MidClose(s.threads[c]) then s else Do(s, Close(c));
    var fail := if s.threads[b].Fetching? then FetchEnd(b, false) else Install(b, false);
    var failed := Do(begun, fail);
    steps := SwapOn(failed, c);
    steps := Prepend(begun, fail, failed, steps);
    if begun != s {
      steps := Prepend(s, Close(c), begun, steps);
    }
  }

  ghost predicate CanBeCleanedAgain(s: State) {
    exists steps :: IsRun(s, steps) && After(s, steps).cleanups > s.cleanups
  }

  /** Once an entry is closing, its clean-up can happen again exactly when somebody is still fetching it and another
      close is under way or a closer can still find it in the map. */
  lemma CleanupRepeatsIff(s: State)
    requires Disciplined(s) && s.status == Closing
    ensures CanBeCleanedAgain(s) <==> SomeBusy(s.threads) && CloserLeft(s)
  {
    if SomeBusy(s.threads) && CloserLeft(s) {
      var b :| 0 <= b < |s.threads| && Busy(s.threads[b]);
      var c: nat :| c < |s.threads| && (MidClose(s.threads[c]) || CanClose(s, c));
      var steps := CleanAgain(s, b, c);
    } else if steps :| IsRun(s, steps) && After(s, steps).cleanups > s.cleanups {
      if SomeBusy(s.threads) {
        NeverClosedAgain(s, steps);
      } else {
        StaysDead(s, steps);
      }
    }
  }

  /** A fetch, the clean-up loop and stop: the loop closes the entry under the fetch, stop comes to it before it is
      deleted, the fetch ends, and stop closes the entry again. */
  lemma CleanedTwice() returns (steps: seq<Step>)
    ensures IsRun(Init(1), steps) && After(Init(1), steps).cleanups == 2
  {
    var s2 := FETCHING.(threads := [TryPending, Idle, Fetching]);
    var s3 := FETCHING.(status := Closing, threads := [Cleaning, Idle, Fetching], cleanups := 1);
    var first := Prepend(s2, TrySwap(SWEEPER), s3, []);
    first := SweepUnderFetch(first);
    first := FirstFetch(first);
    InitIsDisciplined(1);
    FetchesArePaidFor(Init(1), first);
    var again := CleanAgain(s3, 2, STOPPER);
    Concat(Init(1), first, again);
    steps := first + again;
  }
}
