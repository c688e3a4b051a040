/** The deadline queue: a binary heap of scheduled tasks with intrusive indexes, lazy
    cancellation through a flag, and compaction by an in-place filter followed by a
    bottom-up heapify. Times are integers; sessions and tasks are objects that point at
    each other, as in the runtime. */
module TaskQueues {
  import opened Basics

  /** The part of a session that scheduling touches. Managers and worlds are positive numbers; 0 is nil. */
  class Session {
    const manager: nat
    var closed: bool
    var world: nat
    var pendingTasks: seq<ScheduledTask>

    constructor (manager: nat, w: nat)
      ensures this.manager == manager && !closed && world == w && pendingTasks == []
    {
      this.manager := manager;
      closed, world, pendingTasks := false, w, [];
    }
  }

  class ScheduledTask {
    const executeAt: int
    const stage: nat
    const sessions: seq<Session>
    var cancelled: bool
    var index: int

    constructor (at: int, stage: nat, sessions: seq<Session>)
      ensures executeAt == at && this.stage == stage && this.sessions == sessions
      ensures !cancelled
    {
      executeAt, this.stage, this.sessions := at, stage, sessions;
      cancelled, index := false, 0;
    }

    /** TaskHandle.Cancel: raises the flag; the heap is left alone. */
    method Cancel()
      modifies this`cancelled
      ensures cancelled
    {
      cancelled := true;
    }
  }

  // ---------- heap order ----------

  /** The parent position; the runtime's `(i - 1) / 2` truncates towards zero, so 0 is its own parent. */
  function Parent(i: nat): nat {
    if i == 0 then 0 else (i - 1) / 2
  }

  /** Position `j` respects its parent. */
  ghost predicate OrderedAt(h: seq<ScheduledTask>, j: nat)
    requires j < |h|
  {
    h[Parent(j)].executeAt <= h[j].executeAt
  }

  ghost predicate HeapOrdered(h: seq<ScheduledTask>) {
    forall j: nat | j < |h| :: OrderedAt(h, j)
  }

  ghost predicate SortedByDeadline(s: seq<ScheduledTask>) {
    forall i, j | 0 <= i < j < |s| :: s[i].executeAt <= s[j].executeAt
  }

  /** The root of a heap has the earliest deadline. */
  lemma {:induction false} RootIsEarliest(h: seq<ScheduledTask>, j: nat)
    requires HeapOrdered(h) && j < |h|
    ensures h[0].executeAt <= h[j].executeAt
  {
    if j > 0 {
      RootIsEarliest(h, Parent(j));
      assert OrderedAt(h, j);
    }
  }

  ghost function Swapped<T>(s: seq<T>, i: nat, j: nat): seq<T>
    requires i < |s| && j < |s|
  {
    s[i := s[j]][j := s[i]]
  }

  /** `t` has the elements of `s`, below `n` as well as overall, and agrees with `s` from `n` on. */
  ghost predicate Rearranged<T>(s: seq<T>, t: seq<T>, n: nat) {
    && n <= |s| == |t| && t[n..] == s[n..]
    && Elements(t[..n]) == Elements(s[..n])
    && Elements(t) == Elements(s)
  }

  lemma SwapRearranges<T>(origin: seq<T>, s: seq<T>, i: nat, j: nat, n: nat)
    requires i < n && j < n && Rearranged(origin, s, n)
    ensures Rearranged(origin, Swapped(s, i, j), n)
  {
    var t := Swapped(s, i, j);
    assert s == s[..n] + s[n..] && t == t[..n] + t[n..];
    forall x | x in s[..n] ensures x in t[..n] {
      var k :| 0 <= k < n && s[k] == x;
      assert t[if k == i then j else if k == j then i else k] == x;
    }
  }

  /** While sifting up, only position `i` may break the order, and its children respect its parent. */
  ghost predicate RisingAt(h: seq<ScheduledTask>, i: nat) {
    && i < |h|
    && (forall j: nat | j < |h| && j != i :: OrderedAt(h, j))
    && (forall j: nat | 0 < j < |h| && Parent(j) == i :: h[Parent(i)].executeAt <= h[j].executeAt)
  }

  lemma RiseOnce(h: seq<ScheduledTask>, i: nat)
    requires RisingAt(h, i) && h[i].executeAt < h[Parent(i)].executeAt
    ensures RisingAt(Swapped(h, i, Parent(i)), Parent(i))
  {
    var p := Parent(i);
    var t := Swapped(h, i, p);
    assert p > 0 ==> OrderedAt(h, p);
    forall j: nat | j < |t| && j != p
      ensures OrderedAt(t, j)
    {
      assert j != i ==> OrderedAt(h, j);
    }
    forall j: nat | 0 < j < |t| && Parent(j) == p
      ensures t[Parent(p)].executeAt <= t[j].executeAt
    {
      assert j != i ==> OrderedAt(h, j);
    }
  }

  /** Every position below `n` whose parent is at `lo` or later respects its parent. */
  ghost predicate OrderedFrom(h: seq<ScheduledTask>, lo: nat, n: nat) {
    n <= |h| && forall j: nat | 0 < j < n && Parent(j) >= lo :: OrderedAt(h, j)
  }

  /** While sifting down, only the children of `i` may break the order, and they respect its parent. */
  ghost predicate SinkingAt(h: seq<ScheduledTask>, lo: nat, i: nat, n: nat) {
    && lo <= i <= n <= |h|
    && (forall j: nat | 0 < j < n && Parent(j) >= lo && Parent(j) != i :: OrderedAt(h, j))
    && (forall j: nat | 0 < j < n && Parent(j) == i && 0 < i && Parent(i) >= lo ::
          h[Parent(i)].executeAt <= h[j].executeAt)
  }

  /** The smaller child of `i` among the first `n` positions. */
  function Child(h: seq<ScheduledTask>, i: nat, n: nat): (c: nat)
    requires 2 * i + 1 < n <= |h|
    ensures 0 < c < n && Parent(c) == i
    ensures forall j: nat | 0 < j < n && Parent(j) == i :: h[c].executeAt <= h[j].executeAt
  {
    var left := 2 * i + 1;
    var right := left + 1;
    assert forall j: nat | 0 < j < n && Parent(j) == i :: j == left || j == right;
    if right < n && h[right].executeAt < h[left].executeAt then right else left
  }

  lemma Settled(h: seq<ScheduledTask>, lo: nat, i: nat, n: nat)
    requires SinkingAt(h, lo, i, n)
    requires 2 * i + 1 < n ==> h[i].executeAt <= h[Child(h, i, n)].executeAt
    ensures OrderedFrom(h, lo, n)
  {
    forall j: nat | 0 < j < n && Parent(j) >= lo
      ensures OrderedAt(h, j)
    {
      if Parent(j) == i { assert 2 * i + 1 <= j; }
    }
  }

  lemma SinkOnce(h: seq<ScheduledTask>, lo: nat, i: nat, n: nat, c: nat)
    requires SinkingAt(h, lo, i, n) && 0 < c < n && Parent(c) == i
    requires h[c].executeAt < h[i].executeAt
    requires forall j: nat | 0 < j < n && Parent(j) == i :: h[c].executeAt <= h[j].executeAt
    ensures SinkingAt(Swapped(h, i, c), lo, c, n)
  {
    var t := Swapped(h, i, c);
    forall j: nat | 0 < j < n && Parent(j) >= lo && Parent(j) != c
      ensures OrderedAt(t, j)
    {
      assert Parent(j) != i ==> OrderedAt(h, j);
    }
    forall j: nat | 0 < j < n && Parent(j) == c
      ensures t[Parent(c)].executeAt <= t[j].executeAt
    {
      assert OrderedAt(h, j);
    }
  }

  // ---------- the queue as a set of tasks ----------

  /** What the queue holds: tasks still to run, and cancelled tasks not yet discarded. */
  datatype QueueState = QueueState(live: set<ScheduledTask>, dead: set<ScheduledTask>)

  /** Compaction may throw away every cancelled task, and nothing else. */
  ghost predicate MayCompact(q: QueueState, q': QueueState) {
    q'.live == q.live && (q'.dead == q.dead || q'.dead == {})
  }

  /** A task whose flag is already up is pushed like any other. */
  ghost predicate PushStep(q: QueueState, task: ScheduledTask, cancelled: bool, q': QueueState) {
    if cancelled then q'.live == q.live && (q'.dead == q.dead + {task} || q'.dead == {task})
    else MayCompact(QueueState(q.live + {task}, q.dead), q')
  }

  ghost predicate CancelStep(q: QueueState, task: ScheduledTask, q': QueueState) {
    q' == if task in q.live then QueueState(q.live - {task}, q.dead + {task}) else q
  }

  /** The due tasks leave the queue: the live ones are returned by deadline, the cancelled ones vanish. */
  ghost predicate PopDueStep(q: QueueState, now: int, due: seq<ScheduledTask>, q': QueueState) {
    && Distinct(due)
    && SortedByDeadline(due)
    && Elements(due) == DueOf(q.live, now)
    && MayCompact(QueueState(q.live - DueOf(q.live, now), q.dead - DueOf(q.dead, now)), q')
  }

  ghost function DueOf(s: set<ScheduledTask>, now: int): set<ScheduledTask> {
    set t | t in s && t.executeAt <= now
  }

  class TaskQueue {
    var heap: seq<ScheduledTask>

    ghost predicate Indexed()
      reads this, heap
    {
      forall i: nat | i < |heap| :: heap[i].index == i
    }

    ghost predicate Valid()
      reads this, heap
    {
      Indexed() && HeapOrdered(heap)
    }

    ghost function Abs(): QueueState
      reads this, heap
    {
      QueueState(set t | t in heap && !t.cancelled, set t | t in heap && t.cancelled)
    }

    constructor ()
      ensures Valid() && heap == []
    {
      heap := [];
    }

    method Swap(i: nat, j: nat)
      requires Indexed() && i < |heap| && j < |heap|
      modifies this, Elements(heap)`index
      ensures heap == Swapped(old(heap), i, j)
      ensures Indexed()
    {
      heap := heap[i := heap[j]][j := heap[i]];
      heap[i].index := i;
      heap[j].index := j;
    }

    /** Sift the task at `i0` towards the root. */
    method Up(i0: nat)
      requires Indexed() && RisingAt(heap, i0)
      modifies this, Elements(heap)`index
      ensures Valid()
      ensures Rearranged(old(heap), heap, |old(heap)|)
    {
      var i := i0;
      while true
        invariant Rearranged(old(heap), heap, |old(heap)|)
        invariant Indexed() && RisingAt(heap, i)
        decreases i
      {
        var parent := Parent(i);
        if parent == i || !(heap[i].executeAt < heap[parent].executeAt) {
          break;
        }
        ghost var before := heap;
        Swap(i, parent);
        SwapRearranges(old(heap), before, i, parent, |before|);
        RiseOnce(before, i);
        i := parent;
      }
      assert OrderedAt(heap, i);
    }

    /** Sift the task at `i0` towards the leaves of the first `n` positions. */
    method Down(i0: nat, n: nat)
      requires Indexed() && i0 <= n <= |heap| && OrderedFrom(heap, i0 + 1, n)
      modifies this, Elements(heap)`index
      ensures Rearranged(old(heap), heap, n)
      ensures Indexed() && OrderedFrom(heap, i0, n)
    {
      var i := i0;
      while true
        invariant Rearranged(old(heap), heap, n)
        invariant Indexed() && SinkingAt(heap, i0, i, n)
        decreases n - i
      {
        ghost var before := heap;
        var j, done := SinkBelow(i, n, i0);
        if done {
          break;
        }
        SwapRearranges(old(heap), before, i, j, n);
        i := j;
      }
    }

    /** One round of that loop: swaps the task with its smaller child, unless it has none or is no later. */
    method SinkBelow(i: nat, n: nat, ghost lo: nat) returns (j: nat, done: bool)
      requires Indexed() && SinkingAt(heap, lo, i, n)
      modifies this, Elements(heap)`index
      ensures Indexed()
      ensures done ==> heap == old(heap) && OrderedFrom(heap, lo, n)
      ensures !done ==> i < j < n && heap == Swapped(old(heap), i, j) && SinkingAt(heap, lo, j, n)
    {
      var left := 2 * i + 1;
      if left >= n {
        Settled(heap, lo, i, n);
        return i, true;
      }
      j := left;
      var right := left + 1;
      if right < n && heap[right].executeAt < heap[left].executeAt {
        j := right;
      }
      assert j == Child(heap, i, n);
      if !(heap[j].executeAt < heap[i].executeAt) {
        Settled(heap, lo, i, n);
        return j, true;
      }
      SinkOnce(heap, lo, i, n, j);
      Swap(i, j);
      return j, false;
    }

    /** Adds a task that the heap does not hold. */
    method PushTask(task: ScheduledTask)
      requires Valid() && task !in heap
      modifies this, Elements(heap)`index, task`index
      ensures Valid()
      ensures Elements(heap) == old(Elements(heap)) + {task}
    {
      ghost var h := heap;
      task.index := |heap|;
      heap := heap + [task];
      assert Elements(heap) == Elements(h) + {task};
      forall j: nat | j < |h|
        ensures OrderedAt(heap, j)
      {
        assert OrderedAt(h, j);
      }
      Up(task.index);
    }

    /** Removes the root. */
    method Pop() returns (task: ScheduledTask)
      requires Valid() && heap != []
      modifies this, Elements(heap)`index
      ensures task == old(heap[0]) && task.index == -1
      ensures Valid() && task !in heap && |heap| == old(|heap|) - 1
      ensures Elements(heap) == old(Elements(heap)) - {task}
    {
      assert Distinct(heap);
      var n := |heap| - 1;
      Swap(0, n);
      forall j: nat | 0 < j < n && Parent(j) >= 1
        ensures OrderedAt(heap, j)
      {
        assert OrderedAt(old(heap), j);
      }
      ghost var swapped := heap;
      Down(0, n);
      task := heap[n];
      assert task == heap[n..][0] == swapped[n..][0];
      RootLeaves(old(heap), swapped);
      heap := heap[..n];
      assert Indexed();
      task.index := -1;
    }

    /** The removed root is no later than what stays. */
    method PopEarliest() returns (task: ScheduledTask)
      requires Valid() && heap != []
      modifies this, Elements(heap)`index
      ensures task == old(heap[0]) && Valid() && |heap| < old(|heap|)
      ensures task !in heap && task in old(heap) && Elements(heap) == old(Elements(heap)) - {task}
      ensures forall u | u in heap :: task.executeAt <= u.executeAt
    {
      ghost var h := heap;
      task := Pop();
      PoppedIsEarliest(h, heap);
    }

    /** Drops the cancelled tasks and rebuilds the heap order. */
    method CompactHeap()
      requires Valid()
      modifies this, Elements(heap)`index
      ensures Valid()
      ensures Elements(heap) == set t | t in old(heap) && !t.cancelled
    {
      FilterLive(set t | t in heap && t.cancelled);
      Heapify();
    }

    /** The first loop of compaction: moves the uncancelled tasks to the front, in order, and cuts the rest. */
    method FilterLive(ghost cancelled: set<ScheduledTask>)
      requires Indexed() && cancelled == set t | t in heap && t.cancelled
      modifies this, Elements(heap)`index
      ensures Indexed()
      ensures heap == Without(old(heap), cancelled)
      ensures Elements(heap) == old(Elements(heap)) - cancelled
    {
      ghost var h := heap;
      assert Distinct(h);
      var write := 0;
      for read := 0 to |heap|
        invariant KeptSoFar(h, heap, write, read, cancelled)
        invariant forall k: nat | k < write :: heap[k].index == k
        modifies this`heap, Elements(h)`index
      {
        KeepOneMore(h, heap, write, read, cancelled);
        if !heap[read].cancelled {
          MoveTo(write, read, h);
          write := write + 1;
        }
      }
      WithoutElements(h, cancelled);
      assert h[..|h|] == h;
      heap := heap[..write];
    }

    /** The body of that loop for a task that stays. */
    method MoveTo(write: nat, read: nat, ghost h: seq<ScheduledTask>)
      requires write <= read < |heap| && heap[read] in h && heap[read] !in heap[..write]
      requires forall k: nat | k < write :: heap[k].index == k
      modifies this`heap, Elements(h)`index
      ensures heap == old(heap)[write := old(heap)[read]]
      ensures forall k: nat | k <= write :: heap[k].index == k
    {
      var task := heap[read];
      assert forall k: nat | k < write :: heap[..write][k] != task;
      heap := heap[write := task];
      task.index := write;
    }

    /** The second loop of compaction: bottom-up heap construction from any order. */
    method Heapify()
      requires Indexed()
      modifies this, Elements(heap)`index
      ensures Valid()
      ensures |heap| == old(|heap|) && Elements(heap) == old(Elements(heap))
    {
      var i := |heap| / 2 - 1;
      while i >= 0
        invariant -1 <= i && |heap| == old(|heap|)
        invariant Elements(heap) == old(Elements(heap))
        invariant Indexed() && OrderedFrom(heap, i + 1, |heap|)
      {
        Down(i, |heap|);
        i := i - 1;
      }
    }

    /** Pushes a task, compacting first whenever the size passes a multiple of a hundred. */
    method Push(task: ScheduledTask)
      requires Valid() && task !in heap
      modifies this, Elements(heap)`index, task`index
      ensures Valid()
      ensures PushStep(old(Abs()), task, task.cancelled, Abs())
      ensures Abs().dead == (if old(|heap|) > 100 && old(|heap|) % 100 == 0 then {} else old(Abs().dead))
                            + if task.cancelled then {task} else {}
    {
      if |heap| > 100 && |heap| % 100 == 0 {
        CompactHeap();
        assert task !in Elements(heap);
      }
      PushTask(task);
      assert forall t :: t in heap <==> t in Elements(heap);
    }

    /** Removes every task due at `now`; returns the uncancelled ones by deadline. */
    method PopDue(now: int) returns (due: seq<ScheduledTask>)
      requires Valid()
      modifies this, Elements(heap)`index
      ensures Valid()
      ensures PopDueStep(old(Abs()), now, due, Abs())
      ensures Abs().dead == if |DueOf(old(Abs().dead), now)| > 50 then {} else old(Abs().dead) - DueOf(old(Abs().dead), now)
    {
      var cancelledCount;
      due, cancelledCount := TakeDue(now);
      ghost var rest := Elements(heap);
      if cancelledCount > 50 && |heap| > 0 {
        CompactHeap();
        assert Elements(heap) == set t | t in rest && !t.cancelled;
      }
      Leftover(old(heap), now, rest);
      assert forall t :: t in heap <==> t in Elements(heap);
    }

    /** Takes the due tasks off the heap, and counts the cancelled ones among them. */
    method TakeDue(now: int) returns (due: seq<ScheduledTask>, cancelledCount: nat)
      requires Valid()
      modifies this, Elements(heap)`index
      ensures Valid() && Elements(heap) == set t | t in old(Elements(heap)) && t.executeAt > now
      ensures Distinct(due) && SortedByDeadline(due) && Elements(due) == DueOf(old(Abs().live), now)
      ensures cancelledCount == |DueOf(old(Abs().dead), now)|
    {
      ghost var h, live, dead := heap, Abs().live, Abs().dead;
      ghost var gone;
      due, cancelledCount, gone := PopWhileDue(now);
      assert gone == DueOf(Elements(h), now);
      GoneIsDue(h, gone, now);
      assert dead == (set t | t in h && t.cancelled) && live == (set t | t in h && !t.cancelled);
    }

    /** The loop of PopDue. */
    method PopWhileDue(now: int) returns (due: seq<ScheduledTask>, cancelledCount: nat, ghost gone: set<ScheduledTask>)
      requires Valid()
      modifies this, Elements(heap)`index
      ensures Valid() && gone !! Elements(heap) && gone + Elements(heap) == old(Elements(heap))
      ensures (forall t | t in gone :: t.executeAt <= now) && (forall u | u in heap :: u.executeAt > now)
      ensures SplitByFlag(due, cancelledCount, gone)
    {
      due, cancelledCount, gone := [], 0, {};
      while |heap| > 0 && !(heap[0].executeAt > now)
        invariant Valid()
        invariant gone !! Elements(heap) && gone + Elements(heap) == old(Elements(heap))
        invariant forall t, u | t in gone && u in heap :: t.executeAt <= u.executeAt
        invariant forall t | t in gone :: t.executeAt <= now
        invariant SplitByFlag(due, cancelledCount, gone)
        decreases |heap|
      {
        var task := PopEarliest();
        OneMoreGone(due, cancelledCount, gone, task);
        if !task.cancelled {
          due := due + [task];
        } else {
          cancelledCount := cancelledCount + 1;
        }
        gone := gone + {task};
      }
      NothingDue(heap, now);
    }

    static lemma GoneIsDue(h: seq<ScheduledTask>, gone: set<ScheduledTask>, now: int)
      requires gone == DueOf(Elements(h), now)
      ensures Live(gone) == DueOf((set t | t in h && !t.cancelled), now)
      ensures Cancelled(gone) == DueOf((set t | t in h && t.cancelled), now)
    {}

    static ghost function Live(tasks: set<ScheduledTask>): set<ScheduledTask>
      reads tasks
    {
      set t | t in tasks && !t.cancelled
    }

    static ghost function Cancelled(tasks: set<ScheduledTask>): set<ScheduledTask>
      reads tasks
    {
      set t | t in tasks && t.cancelled
    }

    /** What has been popped: the live tasks, by deadline, and the number of the cancelled ones. */
    static ghost predicate SplitByFlag(due: seq<ScheduledTask>, cancelledCount: nat, gone: set<ScheduledTask>)
      reads gone
    {
      && Distinct(due) && SortedByDeadline(due)
      && Elements(due) == Live(gone) && cancelledCount == |Cancelled(gone)|
    }

    static lemma OneMoreGone(due: seq<ScheduledTask>, cancelledCount: nat, gone: set<ScheduledTask>, task: ScheduledTask)
      requires SplitByFlag(due, cancelledCount, gone) && task !in gone
      requires forall t | t in gone :: t.executeAt <= task.executeAt
      ensures if task.cancelled then SplitByFlag(due, cancelledCount + 1, gone + {task})
              else SplitByFlag(due + [task], cancelledCount, gone + {task})
    {
      var more := gone + {task};
      if task.cancelled {
        assert Cancelled(more) == Cancelled(gone) + {task};
        assert Live(more) == Live(gone);
      } else {
        assert Cancelled(more) == Cancelled(gone);
        assert Live(more) == Live(gone) + {task};
        assert forall t | t in due :: t in Elements(due);
        assert Elements(due + [task]) == Elements(due) + {task};
      }
    }

    /** Splitting off what is due commutes with splitting by the cancellation flag. */
    static lemma Leftover(h: seq<ScheduledTask>, now: int, rest: set<ScheduledTask>)
      requires rest == set t | t in Elements(h) && t.executeAt > now
      ensures (set t | t in rest && !t.cancelled) == (set t | t in h && !t.cancelled) - DueOf((set t | t in h && !t.cancelled), now)
      ensures (set t | t in rest && t.cancelled) == (set t | t in h && t.cancelled) - DueOf((set t | t in h && t.cancelled), now)
    {
    }

    /** Removing a task only cancels it. */
    method Remove(task: ScheduledTask)
      requires Valid()
      modifies task`cancelled
      ensures Valid() && CancelStep(old(Abs()), task, Abs())
    {
      task.cancelled := true;
    }

    /** The next deadline, cancelled tasks included. */
    method Peek() returns (at: int, ok: bool)
      requires Valid()
      ensures ok <==> heap != []
      ensures ok ==> exists t :: t in heap && t.executeAt == at
      ensures ok ==> forall t | t in heap :: at <= t.executeAt
    {
      if |heap| == 0 {
        return 0, false;
      }
      forall u | u in heap
        ensures heap[0].executeAt <= u.executeAt
      {
        var j: nat :| j < |heap| && heap[j] == u;
        RootIsEarliest(heap, j);
      }
      return heap[0].executeAt, true;
    }

    method Clear()
      modifies this
      ensures Valid() && Abs() == QueueState({}, {})
    {
      heap := heap[..0];
    }
  }

  ghost function Without<T>(s: seq<T>, drop: set<T>): seq<T> {
    if s == [] then []
    else Without(s[..|s| - 1], drop) + if s[|s| - 1] in drop then [] else [s[|s| - 1]]
  }

  /** Filtering one more element: nothing kept earlier equals it. */
  lemma WithoutOneMore<T>(s: seq<T>, k: nat, drop: set<T>)
    requires k < |s| && Distinct(s)
    ensures Without(s[..k + 1], drop) == Without(s[..k], drop) + if s[k] in drop then [] else [s[k]]
    ensures s[k] !in Without(s[..k], drop)
  {
    assert s[..k + 1][..k] == s[..k];
    WithoutElements(s[..k], drop);
    assert s[k] !in Elements(s[..k]);
    assert s[k] !in Elements(Without(s[..k], drop));
  }

  /** The first `read` elements of `h` have been filtered into the first `write` of `cur`; the others are still there. */
  ghost predicate KeptSoFar<T>(h: seq<T>, cur: seq<T>, write: nat, read: nat, drop: set<T>) {
    write <= read <= |h| == |cur| && cur[read..] == h[read..] && cur[..write] == Without(h[..read], drop)
  }

  /** What happens to the next element: it moves up, or is passed over. */
  lemma KeepOneMore<T>(h: seq<T>, cur: seq<T>, write: nat, read: nat, drop: set<T>)
    requires Distinct(h) && KeptSoFar(h, cur, write, read, drop) && read < |h|
    ensures cur[read] == h[read] && cur[read] !in cur[..write]
    ensures if cur[read] in drop then KeptSoFar(h, cur, write, read + 1, drop)
            else KeptSoFar(h, cur[write := cur[read]], write + 1, read + 1, drop)
  {
    WithoutOneMore(h, read, drop);
    assert cur[read] == cur[read..][0] == h[read..][0];
    var next := cur[write := cur[read]];
    assert cur[read + 1..] == cur[read..][1..] && h[read + 1..] == h[read..][1..];
    assert next[read + 1..] == cur[read + 1..];
    assert next[..write + 1] == cur[..write] + [cur[read]];
  }

  lemma {:induction false} WithoutElements<T>(s: seq<T>, drop: set<T>)
    ensures Elements(Without(s, drop)) == Elements(s) - drop
  {
    if s != [] {
      var front, last := s[..|s| - 1], s[|s| - 1];
      WithoutElements(front, drop);
      assert s == front + [last];
      assert Elements(s) == Elements(front) + {last};
      assert Elements(Without(s, drop)) == Elements(Without(front, drop)) + if last in drop then {} else {last};
    }
  }

  lemma NothingDue(h: seq<ScheduledTask>, now: int)
    requires HeapOrdered(h) && (h != [] ==> h[0].executeAt > now)
    ensures forall u | u in h :: u.executeAt > now
  {
    forall u | u in h
      ensures u.executeAt > now
    {
      var j: nat :| j < |h| && h[j] == u;
      RootIsEarliest(h, j);
    }
  }

  lemma PoppedIsEarliest(h: seq<ScheduledTask>, rest: seq<ScheduledTask>)
    requires h != [] && HeapOrdered(h) && Elements(rest) <= Elements(h)
    ensures forall u | u in rest :: h[0].executeAt <= u.executeAt
  {
    forall u | u in rest
      ensures h[0].executeAt <= u.executeAt
    {
      assert u in Elements(rest);
      var j: nat :| j < |h| && h[j] == u;
      RootIsEarliest(h, j);
    }
  }

  /** Moving the root of a duplicate-free heap to the end and cutting the end removes just the root. */
  lemma RootLeaves<T>(h: seq<T>, swapped: seq<T>)
    requires Distinct(h) && h != [] && swapped == Swapped(h, 0, |h| - 1)
    ensures Elements(swapped[..|h| - 1]) == Elements(h) - {h[0]}
  {
    forall x | x in h && x != h[0]
      ensures x in swapped[..|h| - 1]
    {
      var k :| 0 <= k < |h| && h[k] == x;
      assert swapped[if k == |h| - 1 then 0 else k] == x;
    }
  }
}
