/** Drift-free loop timing: when a loop may run again, and how guarded runs are spaced. */
module LoopTimers {

  /** The next run after running at `now`: one interval later, or one interval from now when behind. */
  function NextRun(interval: int, nextRun: int, now: int): int {
    if interval > 0 then
      if nextRun + interval < now then now + interval else nextRun + interval
    else nextRun
  }

  class LoopState {
    const interval: int
    var lastRun: int
    var nextRun: int

    constructor (interval: int, now: int)
      ensures this.interval == interval && nextRun == now
    {
      this.interval := interval;
      lastRun, nextRun := 0, now;
    }

    predicate ShouldRun(now: int)
      reads this
    {
      if interval == 0 then true else !(now < nextRun)
    }

    method MarkRun(now: int)
      modifies this
      ensures lastRun == now && nextRun == NextRun(interval, old(nextRun), now)
    {
      lastRun := now;
      if interval > 0 {
        nextRun := nextRun + interval;
        if nextRun < now {
          nextRun := now + interval;
        }
      }
    }

    /** One tick over several worlds, one after the other: each world asks, runs and marks the shared
        state. With a positive interval the first world takes the turn; a second one follows only when
        the run was late by exactly one interval, and a third never does. */
    method Tick(now: int, worlds: nat) returns (ran: nat)
      modifies this
      ensures interval <= 0 && (interval == 0 || old(nextRun) <= now) ==> ran == worlds
      ensures interval > 0 && old(nextRun) <= now && now != old(nextRun) + interval ==> ran == if worlds < 1 then worlds else 1
      ensures interval > 0 && old(nextRun) <= now && now == old(nextRun) + interval ==> ran == if worlds < 2 then worlds else 2
      ensures interval != 0 && now < old(nextRun) ==> ran == 0 && nextRun == old(nextRun)
      ensures ran == 1 ==> nextRun == NextRun(interval, old(nextRun), now)
      ensures ran > 0 ==> lastRun == now
    {
      ran := 0;
      for w := 0 to worlds
        invariant interval <= 0 ==> nextRun == old(nextRun)
        invariant interval <= 0 && (interval == 0 || old(nextRun) <= now) ==> ran == w
        invariant interval != 0 && now < old(nextRun) ==> ran == 0 && nextRun == old(nextRun)
        invariant ran == 0 ==> nextRun == old(nextRun)
        invariant ran == 1 ==> nextRun == NextRun(interval, old(nextRun), now)
        invariant ran > 0 ==> lastRun == now
        invariant interval > 0 && old(nextRun) <= now && now != old(nextRun) + interval ==>
                    if w == 0 then ran == 0 && nextRun == old(nextRun) else ran == 1 && nextRun > now
        invariant interval > 0 && old(nextRun) <= now && now == old(nextRun) + interval ==>
                    if w == 0 then ran == 0 && nextRun == old(nextRun)
                    else if w == 1 then ran == 1 && nextRun == now
                    else ran == 2 && nextRun > now
      {
        if ShouldRun(now) {
          MarkRun(now);
          ran := ran + 1;
        }
      }
    }
  }

  // ---------- any sequence of guarded runs ----------

  /** The next-run time after the first `k` runs of a loop added at `start`. */
  ghost function After(interval: int, start: int, runs: seq<int>, k: nat): int
    requires k <= |runs|
  {
    if k == 0 then start else NextRun(interval, After(interval, start, runs, k - 1), runs[k - 1])
  }

  /** Run `k` was allowed by ShouldRun. */
  ghost predicate AllowedAt(interval: int, start: int, runs: seq<int>, k: nat)
    requires k < |runs|
  {
    After(interval, start, runs, k) <= runs[k]
  }

  ghost predicate Guarded(interval: int, start: int, runs: seq<int>) {
    interval > 0 && forall k: nat | k < |runs| :: AllowedAt(interval, start, runs, k)
  }

  /** A loop is never due before the run it just made, and always within one interval of it. */
  lemma DueWithinInterval(interval: int, start: int, runs: seq<int>, k: nat)
    requires Guarded(interval, start, runs) && 0 < k <= |runs|
    ensures runs[k - 1] <= After(interval, start, runs, k) <= runs[k - 1] + interval
  {
    assert AllowedAt(interval, start, runs, k - 1);
  }

  /** `m` intervals, added up. */
  ghost function Span(m: nat, interval: int): int {
    if m == 0 then 0 else Span(m - 1, interval) + interval
  }

  lemma {:induction false} SpanIsProduct(m: nat, interval: int)
    ensures Span(m, interval) == m * interval
  {
    if m > 0 {
      SpanIsProduct(m - 1, interval);
      assert m * interval == (m - 1) * interval + interval;
    }
  }

  /** A guarded run moves the schedule by at least one interval, and by exactly one when on time. */
  lemma OneRun(interval: int, start: int, runs: seq<int>, k: nat)
    requires Guarded(interval, start, runs) && k < |runs|
    ensures After(interval, start, runs, k + 1) >= After(interval, start, runs, k) + interval
    ensures After(interval, start, runs, k + 1) == After(interval, start, runs, k) + interval <==>
            runs[k] - After(interval, start, runs, k) <= interval
  {
    assert AllowedAt(interval, start, runs, k);
  }

  /** Exactly when a run is more than one interval late the next is one interval after it, off the old grid; otherwise
      the next is one interval after the time the run was due. */
  lemma NextAfterRun(interval: int, start: int, runs: seq<int>, k: nat)
    requires Guarded(interval, start, runs) && k < |runs|
    ensures After(interval, start, runs, k + 1) ==
            if LateAt(interval, start, runs, k) then runs[k] + interval else After(interval, start, runs, k) + interval
  {
    assert AllowedAt(interval, start, runs, k);
  }

  lemma {:induction false} AtLeastIntervals(interval: int, start: int, runs: seq<int>, i: nat, m: nat)
    requires Guarded(interval, start, runs) && i + m <= |runs|
    ensures After(interval, start, runs, i + m) >= After(interval, start, runs, i) + Span(m, interval)
  {
    if m > 0 {
      AtLeastIntervals(interval, start, runs, i, m - 1);
      OneRun(interval, start, runs, i + m - 1);
    }
  }

  /** Run number `k` (from 0) happens no earlier than `k` intervals after the start. */
  lemma NoEarlyRun(interval: int, start: int, runs: seq<int>, k: nat)
    requires Guarded(interval, start, runs) && k < |runs|
    ensures runs[k] >= start + k * interval
  {
    AtLeastIntervals(interval, start, runs, 0, k);
    SpanIsProduct(k, interval);
    assert AllowedAt(interval, start, runs, k);
  }

  /** Runs `i` and `i + m + 1` are at least `m` intervals apart. */
  lemma RunsApart(interval: int, start: int, runs: seq<int>, i: nat, m: nat)
    requires Guarded(interval, start, runs) && i + m + 1 < |runs|
    ensures runs[i + m + 1] >= runs[i] + m * interval
  {
    DueWithinInterval(interval, start, runs, i + 1);
    AtLeastIntervals(interval, start, runs, i + 1, m);
    SpanIsProduct(m, interval);
    assert AllowedAt(interval, start, runs, i + m + 1);
  }

  ghost predicate LateAt(interval: int, start: int, runs: seq<int>, k: nat)
    requires k < |runs|
  {
    runs[k] - After(interval, start, runs, k) > interval
  }

  /** None of the first `k` runs was more than one interval late. */
  ghost predicate OnTime(interval: int, start: int, runs: seq<int>, k: nat)
    requires k <= |runs|
  {
    forall j: nat | j < k :: !LateAt(interval, start, runs, j)
  }

  lemma {:induction false} OnSpanIffOnTime(interval: int, start: int, runs: seq<int>, k: nat)
    requires Guarded(interval, start, runs) && k <= |runs|
    ensures After(interval, start, runs, k) == start + Span(k, interval) <==> OnTime(interval, start, runs, k)
  {
    if k > 0 {
      OnSpanIffOnTime(interval, start, runs, k - 1);
      AtLeastIntervals(interval, start, runs, 0, k - 1);
      OneRun(interval, start, runs, k - 1);
      assert OnTime(interval, start, runs, k) <==> OnTime(interval, start, runs, k - 1) && !LateAt(interval, start, runs, k - 1);
    }
  }

  /** The schedule is still on its original grid exactly when no run was more than one interval late. */
  lemma OnGridIffOnTime(interval: int, start: int, runs: seq<int>, k: nat)
    requires Guarded(interval, start, runs) && k <= |runs|
    ensures After(interval, start, runs, k) == start + k * interval <==> OnTime(interval, start, runs, k)
  {
    OnSpanIffOnTime(interval, start, runs, k);
    SpanIsProduct(k, interval);
  }
}
