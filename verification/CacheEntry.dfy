/** One peer cache entry under any interleaving of resolvers, batch fetchers, the clean-up loop and stop. The
    status word is read and written atomically without the lock; the lock only guards fetching. */
module CacheEntries {
  import opened Basics
  import CowSets

  datatype Status = Pending | Ready | Error | Closing

  /** The clean-up loop and the call of stop; every other thread resolves. */
  const SWEEPER: nat := 0
  const STOPPER: nat := 1

  /** Where a thread is inside resolve, resolveMany or close. */
  datatype Thread =
    | Idle
    | Found                    // resolve: has got the entry from the map
    | Loaded(status: Status)   // resolve: has read the status
    | WantLock                 // resolve: about to lock
    | Locked                   // resolve: about to check again
    | Fetching                 // resolve: inside fetchAndSubscribe
    | Unlocking                // resolve or batchFetch: about to unlock
    | BatchFound               // resolveMany: has got the entry from the map
    | BatchWant                // batchFetch: about to lock
    | BatchLocked              // batchFetch: about to check again
    | Installing               // batchFetch: about to store the outcome
    | TryReady | TryPending | TryError   // close: about to swap that status for Closing
    | Cleaning                 // close: has won a swap
    | Deleting                 // cleanup: close has returned, about to delete the entry from the map

  datatype State = State(
    status: Status,
    lock: set<nat>,       // the thread that holds the entry's mutex, if any
    threads: seq<Thread>,
    fetches: nat,         // calls of fetchAndSubscribe
    installs: nat,        // outcomes stored by a batch
    retries: nat,         // successful swaps of Error for Pending
    missed: nat,          // close calls that gave up
    cleanups: nat,        // close calls that won a swap; each closes the update channel
    reopened: nat,        // outcomes stored over Closing
    present: bool,        // the entry is in the map
    stopped: bool)        // stop has come to the entry

  datatype Step =
    | Resolve(t: nat)                // resolve starts and finds the entry
    | Read(t: nat)                   // reads the status
    | Proceed(t: nat, retry: bool)   // act on what was read; `retry`: the retry delay has passed
    | Lock(t: nat)
    | Check(t: nat)                  // read the status again under the lock
    | FetchEnd(t: nat, ok: bool)
    | Unlock(t: nat)
    | Batch(t: nat)                  // resolveMany starts and finds the entry
    | BatchRead(t: nat, served: bool) // reads the status; `served`: the type has a provider
    | BatchCheck(t: nat, answered: bool) // `answered`: some provider answered the batch
    | Install(t: nat, ok: bool)
    | Close(t: nat)                  // cleanup or stop comes to the entry in the map
    | TrySwap(t: nat)
    | Cleaned(t: nat)
    | Delete(t: nat)

  predicate IsCloser(t: nat) {
    t == SWEEPER || t == STOPPER
  }

  /** The clean-up loop comes to the entry as long as it is in the map, stop only once. */
  predicate CanClose(s: State, t: nat) {
    t < |s.threads| && s.threads[t].Idle? && s.present && (t == SWEEPER || (t == STOPPER && !s.stopped))
  }

  predicate MidClose(th: Thread) {
    th.TryReady? || th.TryPending? || th.TryError?
  }

  /** After close, the clean-up loop deletes the entry, whether close won a swap or not. */
  function Closed(t: nat): Thread {
    if t == SWEEPER then Deleting else Idle
  }

  predicate Enabled(s: State, step: Step) {
    step.t < |s.threads| &&
    var th := s.threads[step.t];
    match step
    case Resolve(_) => th.Idle? && s.present && !IsCloser(step.t)
    case Read(_) => th.Found?
    case Proceed(_, _) => th.Loaded?
    case Lock(_) => (th.WantLock? || th.BatchWant?) && s.lock == {}
    case Check(_) => th.Locked?
    case FetchEnd(_, _) => th.Fetching?
    case Unlock(_) => th.Unlocking?
    case Batch(_) => th.Idle? && s.present && !IsCloser(step.t)
    case BatchRead(_, _) => th.BatchFound?
    case BatchCheck(_, _) => th.BatchLocked?
    case Install(_, _) => th.Installing?
    case Close(_) => CanClose(s, step.t)
    case TrySwap(_) => MidClose(th)
    case Cleaned(_) => th.Cleaning?
    case Delete(_) => th.Deleting?
  }

  /** Where the thread goes. */
  function Goes(s: State, step: Step): Thread
    requires Enabled(s, step)
  {
    var th := s.threads[step.t];
    match step
    case Resolve(_) => Found
    case Read(_) => Loaded(s.status)
    case Proceed(_, retry) =>
      if th.status == Error && retry then if s.status == Error then WantLock else Idle
      else if th.status == Pending then WantLock else Idle
    case Lock(_) => if th.WantLock? then Locked else BatchLocked
    case Check(_) => if s.status == Pending then Fetching else Unlocking
    case FetchEnd(_, _) => Unlocking
    case Unlock(_) => Idle
    case Batch(_) => BatchFound
    case BatchRead(_, served) => if s.status == Pending && served then BatchWant else Idle
    case BatchCheck(_, answered) => if answered && s.status == Pending then Installing else Unlocking
    case Install(_, _) => Unlocking
    case Close(_) => TryReady
    case TrySwap(t) =>
      if s.status == Expected(th) then Cleaning
      else if th.TryReady? then TryPending
      else if th.TryPending? then TryError
      else Closed(t)
    case Cleaned(t) => Closed(t)
    case Delete(_) => Idle
  }

  predicate Retries(s: State, step: Step)
    requires Enabled(s, step)
  {
    step.Proceed? && step.retry && s.threads[step.t].status == Error && s.status == Error
  }

  predicate Wins(s: State, step: Step)
    requires Enabled(s, step)
  {
    step.TrySwap? && s.status == Expected(s.threads[step.t])
  }

  /** The outcome of a fetch or an install is stored whatever the status is. */
  function StatusAfter(s: State, step: Step): Status
    requires Enabled(s, step)
  {
    if step.FetchEnd? || step.Install? then (if step.ok then Ready else Error)
    else if Retries(s, step) then Pending
    else if Wins(s, step) then Closing
    else s.status
  }

  function Do(s: State, step: Step): State
    requires Enabled(s, step)
  {
    var to := Goes(s, step);
    s.(status := StatusAfter(s, step),
       lock := if step.Lock? then {step.t} else if step.Unlock? then {} else s.lock,
       threads := s.threads[step.t := to],
       fetches := if to.Fetching? then s.fetches + 1 else s.fetches,
       installs := if to.Installing? then s.installs + 1 else s.installs,
       retries := if Retries(s, step) then s.retries + 1 else s.retries,
       missed := if step.TrySwap? && !MidClose(to) && !to.Cleaning? then s.missed + 1 else s.missed,
       cleanups := if Wins(s, step) then s.cleanups + 1 else s.cleanups,
       reopened := if (step.FetchEnd? || step.Install?) && s.status == Closing then s.reopened + 1 else s.reopened,
       present := s.present && !step.Delete?,
       stopped := s.stopped || (step.Close? && step.t == STOPPER))
  }

  /** The status a closing swap expects. */
  function Expected(th: Thread): Status {
    if th.TryReady? then Ready else if th.TryPending? then Pending else Error
  }

  /** A new entry, with `n` resolving threads beside the two that close. */
  function Init(n: nat): State {
    State(Pending, {}, seq(n + 2, i => Idle), 0, 0, 0, 0, 0, 0, true, false)
  }

  ghost predicate IsRun(s: State, steps: seq<Step>)
    decreases |steps|
  {
    steps == [] || (Enabled(s, steps[0]) && IsRun(Do(s, steps[0]), steps[1..]))
  }

  ghost function After(s: State, steps: seq<Step>): State
    decreases |steps|
  {
    if steps == [] || !Enabled(s, steps[0]) then s else After(Do(s, steps[0]), steps[1..])
  }

  // ---------- the fetch discipline ----------

  predicate Holds(th: Thread) {
    th.Locked? || th.Fetching? || th.Unlocking? || th.BatchLocked? || th.Installing?
  }

  predicate Busy(th: Thread) {
    th.Fetching? || th.Installing?
  }

  ghost predicate SomeBusy(threads: seq<Thread>) {
    exists th | th in threads :: Busy(th)
  }

  /** Closing is left to the closers; the clean-up loop deletes the entry only after closing it; stop comes once. */
  ghost predicate Roles(s: State) {
    && |s.threads| >= 2
    && (forall t: nat | t < |s.threads| :: if IsCloser(t) then s.threads[t].Idle? || Closes(s.threads[t]) else !Closes(s.threads[t]))
    && (!s.threads[SWEEPER].Idle? ==> s.present)
    && (!s.threads[STOPPER].Idle? ==> s.stopped)
    && !s.threads[STOPPER].Deleting?
  }

  /** The mutex admits one holder. */
  ghost predicate LockHeld(s: State) {
    && (forall t: nat | t < |s.threads| && Holds(s.threads[t]) :: s.lock == {t})
    && (forall t | t in s.lock :: t < |s.threads| && Holds(s.threads[t]))
  }

  /** While a holder is busy the status is Pending or Closing; and every fetch or install beyond the first has been
      paid for by a retry, a Pending status nobody is serving being one fetch still owed. */
  ghost predicate Budgeted(s: State) {
    && (SomeBusy(s.threads) ==> s.status == Pending || s.status == Closing)
    && s.fetches + s.installs + (if s.status == Pending && !SomeBusy(s.threads) then 1 else 0) <= 1 + s.retries
  }

  ghost predicate Disciplined(s: State) {
    Roles(s) && LockHeld(s) && Budgeted(s)
  }

  lemma BusyAfter(threads: seq<Thread>, t: nat, th: Thread)
    requires t < |threads|
    ensures Busy(th) ==> SomeBusy(threads[t := th])
    ensures SomeBusy(threads[t := th]) ==> Busy(th) || SomeBusy(threads)
    ensures SomeBusy(threads) ==> Busy(threads[t]) || SomeBusy(threads[t := th])
  {
    var after := threads[t := th];
    assert after[t] == th;
    if SomeBusy(threads) && !Busy(threads[t]) {
      var j :| 0 <= j < |threads| && Busy(threads[j]);
      assert after[j] == threads[j];
    }
  }

  lemma HolderIsOnlyBusy(s: State, t: nat)
    requires Disciplined(s) && t < |s.threads| && Holds(s.threads[t])
    ensures forall u: nat | u < |s.threads| && u != t :: !Holds(s.threads[u])
    ensures SomeBusy(s.threads) <==> Busy(s.threads[t])
  {
    assert t in s.lock && s.lock == {t};
    forall u: nat | u < |s.threads| && u != t ensures !Holds(s.threads[u]) {
      assert u !in s.lock;
    }
    assert s.threads[t] in s.threads;
  }

  /** The states of a thread that closes. */
  predicate Closes(th: Thread) {
    MidClose(th) || th.Cleaning? || th.Deleting?
  }

  lemma GoesByRole(s: State, step: Step)
    requires Roles(s) && Enabled(s, step)
    ensures var to := Goes(s, step);
            && (IsCloser(step.t) <==> Closes(s.threads[step.t]) || step.Close?)
            && (if IsCloser(step.t) then to.Idle? || Closes(to) else !Closes(to))
            && (to.Deleting? ==> step.t == SWEEPER)
            && (step.Delete? ==> step.t == SWEEPER && to.Idle?)
            && (step.Close? ==> s.present)
  {}

  lemma RolesStep(s: State, step: Step)
    requires Roles(s) && Enabled(s, step)
    ensures Roles(Do(s, step))
  {
    GoesByRole(s, step);
    var n := Do(s, step);
    assert forall t: nat | t < |n.threads| && t != step.t :: n.threads[t] == s.threads[t];
  }

  lemma LockStep(s: State, step: Step)
    requires LockHeld(s) && Enabled(s, step)
    ensures LockHeld(Do(s, step))
  {
    var n := Do(s, step);
    GoesByLock(s, step);
    assert forall t: nat | t < |n.threads| && t != step.t :: n.threads[t] == s.threads[t];
  }

  lemma GoesByLock(s: State, step: Step)
    requires Enabled(s, step)
    ensures Holds(Goes(s, step)) <==> step.Lock? || (Holds(s.threads[step.t]) && !step.Unlock?)
    ensures step.Lock? ==> s.lock == {}
    ensures step.Unlock? ==> Holds(s.threads[step.t])
  {}

  /** What a step does to the fetch budget, by the thread that takes it. */
  lemma BudgetStep(s: State, step: Step)
    requires LockHeld(s) && Budgeted(s) && Enabled(s, step)
    requires Busy(s.threads[step.t]) ==> !SomeBusy(Do(s, step).threads)
    ensures Budgeted(Do(s, step))
  {
    assert s.threads[step.t] in s.threads;
    BusyAfter(s.threads, step.t, Do(s, step).threads[step.t]);
  }

  lemma StepKeepsDiscipline(s: State, step: Step)
    requires Disciplined(s) && Enabled(s, step)
    ensures Disciplined(Do(s, step))
  {
    RolesStep(s, step);
    LockStep(s, step);
    if Busy(s.threads[step.t]) {
      BusyEnds(s, step);
    }
    BudgetStep(s, step);
  }

  lemma BusyEnds(s: State, step: Step)
    requires Disciplined(s) && Enabled(s, step) && Busy(s.threads[step.t])
    ensures !SomeBusy(Do(s, step).threads)
  {
    HolderIsOnlyBusy(s, step.t);
    forall th | th in Do(s, step).threads
      ensures !Busy(th)
    {
      var j :| 0 <= j < |s.threads| && Do(s, step).threads[j] == th;
    }
  }

  /** Fetches and batch installs never exceed one plus the number of retries, in any interleaving. */
  lemma {:induction false} FetchesArePaidFor(s: State, steps: seq<Step>)
    requires Disciplined(s) && IsRun(s, steps)
    ensures Disciplined(After(s, steps))
    ensures After(s, steps).fetches + After(s, steps).installs <= 1 + After(s, steps).retries
    decreases |steps|
  {
    if steps != [] {
      StepKeepsDiscipline(s, steps[0]);
      FetchesArePaidFor(Do(s, steps[0]), steps[1..]);
    }
  }

  lemma InitIsDisciplined(n: nat)
    ensures Disciplined(Init(n))
  {
  }

  /** Two threads are never inside a fetch or an install at the same time. */
  lemma OneFetchAtATime(n: nat, steps: seq<Step>, t: nat, u: nat)
    requires IsRun(Init(n), steps)
    requires t < |After(Init(n), steps).threads| && u < |After(Init(n), steps).threads|
    requires Busy(After(Init(n), steps).threads[t]) && Busy(After(Init(n), steps).threads[u])
    ensures t == u
  {
    InitIsDisciplined(n);
    FetchesArePaidFor(Init(n), steps);
    HolderIsOnlyBusy(After(Init(n), steps), t);
  }

  lemma Prepend(s: State, step: Step, next: State, rest: seq<Step>) returns (steps: seq<Step>)
    requires Enabled(s, step) && Do(s, step).threads == next.threads && Do(s, step) == next
    requires IsRun(next, rest)
    ensures IsRun(s, steps) && After(s, steps) == After(next, rest)
  {
    steps := [step] + rest;
    assert steps[1..] == rest;
  }

  // ---------- counting the steps of a run ----------

  /** The steps by which a thread begins a fetch or an install. */
  ghost function Began(s: State, steps: seq<Step>): nat
    requires IsRun(s, steps)
    decreases |steps|
  {
    if steps == [] then 0 else
    (if Busy(Do(s, steps[0]).threads[steps[0].t]) then 1 else 0) + Began(Do(s, steps[0]), steps[1..])
  }

  /** The steps by which the status goes from one to another. */
  ghost function Turned(s: State, steps: seq<Step>, a: Status, b: Status): nat
    requires IsRun(s, steps)
    decreases |steps|
  {
    if steps == [] then 0 else
    (if s.status == a && Do(s, steps[0]).status == b then 1 else 0) + Turned(Do(s, steps[0]), steps[1..], a, b)
  }

  /** The steps by which a close comes to clean up. */
  ghost function WonBy(s: State, steps: seq<Step>): nat
    requires IsRun(s, steps)
    decreases |steps|
  {
    if steps == [] then 0 else
    (if Do(s, steps[0]).threads[steps[0].t].Cleaning? then 1 else 0) + WonBy(Do(s, steps[0]), steps[1..])
  }

  lemma {:induction false} CountsAreSteps(s: State, steps: seq<Step>)
    requires IsRun(s, steps)
    ensures var n := After(s, steps);
            && n.fetches + n.installs == s.fetches + s.installs + Began(s, steps)
            && n.retries == s.retries + Turned(s, steps, Error, Pending)
            && n.cleanups == s.cleanups + WonBy(s, steps)
            && n.reopened == s.reopened + Turned(s, steps, Closing, Ready) + Turned(s, steps, Closing, Error)
    decreases |steps|
  {
    if steps != [] {
      CountsAreSteps(Do(s, steps[0]), steps[1..]);
    }
  }

  /** In every run of a new entry fetches and installs begin at most once more often than the error state is left for
      another try. */
  lemma FetchesFollowRetries(n: nat, steps: seq<Step>)
    requires IsRun(Init(n), steps)
    ensures Began(Init(n), steps) <= 1 + Turned(Init(n), steps, Error, Pending)
  {
    InitIsDisciplined(n);
    FetchesArePaidFor(Init(n), steps);
    CountsAreSteps(Init(n), steps);
  }

  /** A thread waits only for the lock, and only while another thread holds it; idle threads wait for the entry to be in
      the map. */
  lemma WaitsOnlyForLock(s: State, t: nat)
    requires Disciplined(s) && t < |s.threads|
    ensures (exists step: Step :: step.t == t && Enabled(s, step)) <==>
            if s.threads[t].Idle? then (if IsCloser(t) then CanClose(s, t) else s.present)
            else (s.threads[t].WantLock? || s.threads[t].BatchWant?) ==> s.lock == {}
  {
    var step := match s.threads[t]
      case Idle => if IsCloser(t) then Close(t) else Resolve(t)
      case Found => Read(t)
      case Loaded(_) => Proceed(t, false)
      case BatchFound => BatchRead(t, false)
      case WantLock => Lock(t)
      case BatchWant => Lock(t)
      case Locked => Check(t)
      case BatchLocked => BatchCheck(t, false)
      case Fetching => FetchEnd(t, true)
      case Installing => Install(t, true)
      case Unlocking => Unlock(t)
      case Cleaning => Cleaned(t)
      case Deleting => Delete(t)
      case _ => TrySwap(t);
    assert step.t == t;
  }

  /** Once it has the lock of a pending entry, a resolver fetches and a batch installs, and the outcome is stored. */
  lemma LockedGoesThrough(s: State, t: nat, ok: bool)
    requires t < |s.threads| && s.lock == {} && s.status == Pending && (s.threads[t].WantLock? || s.threads[t].BatchWant?)
    ensures Enabled(s, Lock(t))
    ensures var locked := Do(s, Lock(t));
            if s.threads[t].WantLock? then
              && Enabled(locked, Check(t)) && Do(locked, Check(t)).threads[t] == Fetching
              && Enabled(Do(locked, Check(t)), FetchEnd(t, ok))
              && Do(Do(locked, Check(t)), FetchEnd(t, ok)).status == if ok then Ready else Error
            else
              && Enabled(locked, BatchCheck(t, true)) && Do(locked, BatchCheck(t, true)).threads[t] == Installing
              && Enabled(Do(locked, BatchCheck(t, true)), Install(t, ok))
              && Do(Do(locked, BatchCheck(t, true)), Install(t, ok)).status == if ok then Ready else Error
  {}

  /** Both ways to an entry are open as long as it is in the map. */
  lemma ResolversFind(s: State, t: nat)
    requires s.present && t < |s.threads| && !IsCloser(t) && s.threads[t].Idle?
    ensures Enabled(s, Resolve(t)) && Do(s, Resolve(t)).threads[t] == Found
    ensures Enabled(s, Batch(t)) && Do(s, Batch(t)).threads[t] == BatchFound
  {}

  // ---------- locking a batch ----------

  datatype Outcome = Held(ids: set<string>) | Blocked

  /** A batch locks its entries one after the other, in the order of the IDs it was given. The mutex is
      not reentrant: meeting an entry it already holds blocks the batch for ever, even when it is alone. */
  function LockAll(ids: seq<string>, held: set<string>): Outcome {
    if ids == [] then Held(held)
    else if ids[0] in held then Blocked
    else LockAll(ids[1..], held + {ids[0]})
  }

  lemma {:induction false} LocksFrom(ids: seq<string>, held: set<string>)
    ensures LockAll(ids, held).Held? <==> Distinct(ids) && forall x | x in ids :: x !in held
    ensures LockAll(ids, held).Held? ==> LockAll(ids, held).ids == held + set x | x in ids
  {
    if ids != [] {
      assert ids == [ids[0]] + ids[1..];
      if ids[0] !in held {
        LocksFrom(ids[1..], held + {ids[0]});
      }
    }
  }

  /** A batch alone gets all its locks exactly when no ID occurs twice. */
  lemma BatchLocksIffDistinct(ids: seq<string>)
    ensures LockAll(ids, {}).Held? <==> Distinct(ids)
  {
    LocksFrom(ids, {});
  }

  /** The IDs that are remote and still pending, in order. */
  function Keep(ids: seq<string>, pending: set<string>): seq<string> {
    if ids == [] then [] else (if ids[0] in pending then [ids[0]] else []) + Keep(ids[1..], pending)
  }

  lemma {:induction false} KeepIsDistinct(ids: seq<string>, pending: set<string>)
    requires Distinct(ids)
    ensures Distinct(Keep(ids, pending)) && forall x | x in Keep(ids, pending) :: x in ids
  {
    if ids != [] {
      KeepIsDistinct(ids[1..], pending);
      assert ids[0] !in ids[1..];
      assert ids[0] !in Keep(ids[1..], pending);
    }
  }

  /** Keep drops the other IDs and nothing else. */
  lemma {:induction false} KeepsPending(ids: seq<string>, pending: set<string>, x: string)
    ensures x in Keep(ids, pending) <==> x in ids && x in pending
    ensures multiset(Keep(ids, pending))[x] == if x in pending then multiset(ids)[x] else 0
  {
    if ids != [] {
      assert ids == [ids[0]] + ids[1..];
      KeepsPending(ids[1..], pending, x);
    }
  }

  /** It leaves the order: what is kept of a list is what is kept of its parts, one after the other. */
  lemma {:induction false} KeepInOrder(a: seq<string>, b: seq<string>, pending: set<string>)
    ensures Keep(a + b, pending) == Keep(a, pending) + Keep(b, pending)
  {
    if a == [] {
      assert a + b == b;
    } else {
      assert (a + b)[1..] == a[1..] + b;
      KeepInOrder(a[1..], b, pending);
    }
  }

  /** The IDs of a peer set that was never given duplicates can always be locked by a batch. */
  lemma PeerSetBatchLocks(n: nat, steps: seq<CowSets.Step>, pending: set<string>)
    requires CowSets.IsRun(n, steps) && CowSets.SetsAreDistinct(steps)
    ensures LockAll(Keep(CowSets.Current(CowSets.After(n, steps)), pending), {}).Held?
  {
    CowSets.NoDuplicates(n, steps);
    KeepIsDistinct(CowSets.Current(CowSets.After(n, steps)), pending);
    BatchLocksIffDistinct(Keep(CowSets.Current(CowSets.After(n, steps)), pending));
  }
}
