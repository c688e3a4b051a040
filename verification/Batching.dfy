/** Execution batches: the loops of a stage, sorted by name, are placed round by round; a round
    takes every remaining loop that conflicts with nothing the round has taken already. The
    result is the online first-fit colouring of the conflict graph. */
module Batching {
  import opened Basics
  import opened Access

  class Loop {
    const name: string
    const access: AccessMeta

    constructor (name: string, access: AccessMeta)
      ensures this.name == name && this.access == access
    {
      this.name, this.access := name, access;
    }
  }

  /** Lexicographic order of names. */
  predicate NameLeq(a: string, b: string) {
    a == [] || (b != [] && (a[0] < b[0] || (a[0] == b[0] && NameLeq(a[1..], b[1..]))))
  }

  ghost predicate SortedByName(loops: seq<Loop>) {
    forall i, j | 0 <= i < j < |loops| :: NameLeq(loops[i].name, loops[j].name)
  }

  ghost predicate Clash(a: Loop, b: Loop) {
    Conflict(a.access, b.access)
  }

  // ---------- first-fit colours ----------

  /** No earlier loop of colour `c` conflicts with loop `i`. */
  ghost predicate Free(loops: seq<Loop>, i: nat, c: nat)
    requires i < |loops|
    decreases i, 0
  {
    forall j: nat | j < i && Colour(loops, j) == c :: !Clash(loops[i], loops[j])
  }

  /** The smallest colour that is free for loop `i`. */
  ghost function Colour(loops: seq<Loop>, i: nat): (c: nat)
    requires i < |loops|
    ensures c <= i
    decreases i, 2, 0
  {
    Fit(loops, i, 0)
  }

  ghost function Fit(loops: seq<Loop>, i: nat, c: nat): (r: nat)
    requires i < |loops| && c <= i
    ensures c <= r <= i
    decreases i, 1, i - c
  {
    if c == i || Free(loops, i, c) then c else Fit(loops, i, c + 1)
  }

  lemma {:induction false} FitIsLeast(loops: seq<Loop>, i: nat, c: nat)
    requires i < |loops| && c <= i
    ensures Free(loops, i, Fit(loops, i, c))
    ensures forall b: nat | c <= b < Fit(loops, i, c) :: !Free(loops, i, b)
    decreases i - c
  {
    if c < i && !Free(loops, i, c) {
      FitIsLeast(loops, i, c + 1);
    }
  }

  /** Loop `i` takes the smallest colour none of whose earlier loops conflicts with it. */
  lemma ColourIsFirstFit(loops: seq<Loop>, i: nat)
    requires i < |loops|
    ensures Free(loops, i, Colour(loops, i))
    ensures forall b: nat | b < Colour(loops, i) :: !Free(loops, i, b)
  {
    FitIsLeast(loops, i, 0);
  }

  // ---------- the loops of a colour, in sorted order ----------

  ghost function Coloured(loops: seq<Loop>, n: nat, k: nat): seq<Loop>
    requires n <= |loops|
  {
    if n == 0 then [] else
    Coloured(loops, n - 1, k) + if Colour(loops, n - 1) == k then [loops[n - 1]] else []
  }

  ghost function FromColour(loops: seq<Loop>, n: nat, k: nat): seq<Loop>
    requires n <= |loops|
  {
    if n == 0 then [] else
    FromColour(loops, n - 1, k) + if Colour(loops, n - 1) >= k then [loops[n - 1]] else []
  }

  /** The batches are the colour classes, in colour order, and no class is missing. */
  ghost predicate IsFirstFit(loops: seq<Loop>, batches: seq<seq<Loop>>) {
    && (forall k: nat | k < |batches| :: batches[k] == Coloured(loops, |loops|, k) && batches[k] != [])
    && (forall i: nat | i < |loops| :: Colour(loops, i) < |batches|)
  }

  // ---------- one round ----------

  ghost predicate Blocked(x: Loop, batch: seq<Loop>) {
    exists y | y in batch :: Clash(x, y)
  }

  /** One greedy pass: what it takes and what it leaves. */
  ghost function Taken(s: seq<Loop>): seq<Loop> {
    if s == [] then [] else
    var t := Taken(s[..|s| - 1]);
    if Blocked(s[|s| - 1], t) then t else t + [s[|s| - 1]]
  }

  ghost function Left(s: seq<Loop>): seq<Loop> {
    if s == [] then [] else
    var r := Left(s[..|s| - 1]);
    if Blocked(s[|s| - 1], Taken(s[..|s| - 1])) then r + [s[|s| - 1]] else r
  }

  lemma TakenOneMore(s: seq<Loop>, r: nat)
    requires r < |s|
    ensures Taken(s[..r + 1]) == if Blocked(s[r], Taken(s[..r])) then Taken(s[..r]) else Taken(s[..r]) + [s[r]]
    ensures Left(s[..r + 1]) == if Blocked(s[r], Taken(s[..r])) then Left(s[..r]) + [s[r]] else Left(s[..r])
  {
    assert s[..r + 1][..r] == s[..r];
  }

  lemma {:induction false} RoundShrinks(s: seq<Loop>)
    ensures |Taken(s)| + |Left(s)| == |s|
    ensures s != [] ==> Taken(s) != []
  {
    if s != [] {
      RoundShrinks(s[..|s| - 1]);
    }
  }

  lemma {:induction false} ColouredHas(loops: seq<Loop>, n: nat, k: nat, x: Loop)
    requires n <= |loops|
    ensures x in Coloured(loops, n, k) <==> exists j: nat | j < n :: Colour(loops, j) == k && loops[j] == x
  {
    if n > 0 {
      ColouredHas(loops, n - 1, k, x);
      if Colour(loops, n - 1) == k && loops[n - 1] == x { assert x in Coloured(loops, n, k); }
    }
  }

  lemma BlockedIffNotFree(loops: seq<Loop>, i: nat, k: nat)
    requires i < |loops|
    ensures Blocked(loops[i], Coloured(loops, i, k)) <==> !Free(loops, i, k)
  {
    forall x: Loop {
      ColouredHas(loops, i, k, x);
    }
  }

  /** A round on the loops of colour `k` and up takes exactly colour `k`. */
  lemma {:induction false} RoundTakesColour(loops: seq<Loop>, n: nat, k: nat)
    requires n <= |loops|
    ensures Taken(FromColour(loops, n, k)) == Coloured(loops, n, k)
    ensures Left(FromColour(loops, n, k)) == FromColour(loops, n, k + 1)
  {
    if n > 0 {
      var i := n - 1;
      RoundTakesColour(loops, i, k);
      var s := FromColour(loops, n, k);
      if Colour(loops, i) >= k {
        assert s[..|s| - 1] == FromColour(loops, i, k) && s[|s| - 1] == loops[i];
        ColourIsFirstFit(loops, i);
        BlockedIffNotFree(loops, i, k);
      } else {
        assert s == FromColour(loops, i, k);
      }
    }
  }

  // ---------- rebuilding the batches ----------

  lemma {:induction false} FromColourAll(loops: seq<Loop>, n: nat, k: nat)
    requires n <= |loops|
    ensures k == 0 ==> FromColour(loops, n, k) == loops[..n]
    ensures FromColour(loops, n, k) == [] ==> forall i: nat | i < n :: Colour(loops, i) < k
  {
    if n > 0 {
      FromColourAll(loops, n - 1, k);
      assert loops[..n] == loops[..n - 1] + [loops[n - 1]];
    }
  }

  ghost predicate CachesAgree(loops: seq<Loop>)
    reads set l | l in loops :: l.access
  {
    forall l | l in loops :: l.access.CachesAgree()
  }

  lemma {:induction false} RoundKeeps(s: seq<Loop>, x: Loop)
    ensures x in Taken(s) ==> x in s
    ensures x in Left(s) ==> x in s
  {
    if s != [] {
      RoundKeeps(s[..|s| - 1], x);
    }
  }

  /** The innermost loop: does the candidate conflict with anything in the batch? */
  method ConflictsWithBatch(candidate: Loop, batch: seq<Loop>) returns (conflict: bool)
    requires CachesAgree(batch)
    ensures conflict <==> Blocked(candidate, batch)
  {
    conflict := false;
    for e := 0 to |batch|
      invariant !conflict && !Blocked(candidate, batch[..e])
    {
      var existing := batch[e];
      conflict := candidate.access.Conflicts(existing.access);
      if conflict {
        return;
      }
      assert batch[..e + 1] == batch[..e] + [existing];
    }
    assert batch[..|batch|] == batch;
  }

  /** The middle loop: one round over the loops that are not placed yet. */
  method Round(remaining: seq<Loop>) returns (batch: seq<Loop>, nextRemaining: seq<Loop>)
    requires CachesAgree(remaining)
    ensures batch == Taken(remaining) && nextRemaining == Left(remaining)
  {
    batch, nextRemaining := [], [];
    for r := 0 to |remaining|
      invariant batch == Taken(remaining[..r]) && nextRemaining == Left(remaining[..r])
    {
      var candidate := remaining[r];
      forall x: Loop { RoundKeeps(remaining[..r], x); }
      var conflict := ConflictsWithBatch(candidate, batch);
      TakenOneMore(remaining, r);
      if !conflict {
        batch := batch + [candidate];
      } else {
        nextRemaining := nextRemaining + [candidate];
      }
    }
    assert remaining[..|remaining|] == remaining;
  }

  method BuildBatches(loops: seq<Loop>) returns (batches: seq<seq<Loop>>)
    requires CachesAgree(loops)
    ensures IsFirstFit(loops, batches)
  {
    batches := [];
    var remaining := loops;
    FromColourAll(loops, |loops|, 0);
    assert loops[..|loops|] == loops;
    while |remaining| > 0
      invariant forall k: nat | k < |batches| :: batches[k] == Coloured(loops, |loops|, k) && batches[k] != []
      invariant remaining == FromColour(loops, |loops|, |batches|)
      invariant forall l | l in remaining :: l in loops
      decreases |remaining|
    {
      var batch, nextRemaining := Round(remaining);
      RoundShrinks(remaining);
      RoundTakesColour(loops, |loops|, |batches|);
      forall x: Loop { RoundKeeps(remaining, x); }
      batches := batches + [batch];
      remaining := nextRemaining;
    }
    FromColourAll(loops, |loops|, |batches|);
  }

  /** The result of sorting: the same loops, ordered by name. */
  ghost predicate SortOf(sorted: seq<Loop>, loops: seq<Loop>) {
    multiset(sorted) == multiset(loops) && SortedByName(sorted)
  }

  class Scheduler {
    var loops: seq<seq<Loop>>
    var batches: seq<seq<seq<Loop>>>
    var globalLoops: seq<seq<Loop>>
    var globalBatches: seq<seq<seq<Loop>>>

    ghost predicate Shaped()
      reads this
    {
      |loops| == |batches| == |globalLoops| == |globalBatches| == STAGE_COUNT
    }

    /** Every stage is sorted and batched first-fit. */
    ghost predicate Batched()
      reads this
      requires Shaped()
    {
      forall stage: nat | stage < STAGE_COUNT ::
        && SortedByName(loops[stage]) && IsFirstFit(loops[stage], batches[stage])
        && SortedByName(globalLoops[stage]) && IsFirstFit(globalLoops[stage], globalBatches[stage])
    }

    constructor ()
      ensures Shaped() && Batched()
    {
      loops, globalLoops := [[], [], []], [[], [], []];
      batches, globalBatches := [[], [], []], [[], [], []];
    }

    /** Rebuilds one stage; `sorted` is what sorting its loops by name returns. */
    method RebuildBatches(stage: nat, global: bool, sorted: seq<Loop>)
      requires Shaped() && stage < STAGE_COUNT
      requires SortOf(sorted, if global then globalLoops[stage] else loops[stage])
      requires CachesAgree(sorted)
      modifies this
      ensures Shaped()
      ensures loops == if global then old(loops) else old(loops)[stage := sorted]
      ensures globalLoops == if global then old(globalLoops)[stage := sorted] else old(globalLoops)
      ensures batches == if global then old(batches) else old(batches)[stage := batches[stage]]
      ensures globalBatches == if global then old(globalBatches)[stage := globalBatches[stage]] else old(globalBatches)
      ensures IsFirstFit(sorted, if global then globalBatches[stage] else batches[stage])
    {
      var built := BuildBatches(sorted);
      if global {
        globalLoops := globalLoops[stage := sorted];
        globalBatches := globalBatches[stage := built];
      } else {
        loops := loops[stage := sorted];
        batches := batches[stage := built];
      }
    }

    /** Registers a loop and rebuilds its stage. */
    method AddLoop(loop: Loop, stage: nat, global: bool, sorted: seq<Loop>)
      requires Shaped() && Batched() && stage < STAGE_COUNT
      requires SortOf(sorted, (if global then globalLoops[stage] else loops[stage]) + [loop])
      requires CachesAgree(sorted)
      modifies this
      ensures Shaped() && Batched()
      ensures multiset((if global then globalLoops else loops)[stage]) ==
              multiset((if global then old(globalLoops) else old(loops))[stage]) + multiset{loop}
      ensures forall s: nat | s < STAGE_COUNT && s != stage ::
                loops[s] == old(loops[s]) && batches[s] == old(batches[s]) &&
                globalLoops[s] == old(globalLoops[s]) && globalBatches[s] == old(globalBatches[s])
    {
      if global {
        globalLoops := globalLoops[stage := globalLoops[stage] + [loop]];
      } else {
        loops := loops[stage := loops[stage] + [loop]];
      }
      RebuildBatches(stage, global, sorted);
    }
  }

  // ---------- what first fit guarantees ----------

  ghost function Flatten(batches: seq<seq<Loop>>): seq<Loop> {
    if batches == [] then [] else Flatten(batches[..|batches| - 1]) + batches[|batches| - 1]
  }

  lemma {:induction false} ColourSplits(loops: seq<Loop>, n: nat, k: nat)
    requires n <= |loops|
    ensures multiset(FromColour(loops, n, k)) == multiset(Coloured(loops, n, k)) + multiset(FromColour(loops, n, k + 1))
  {
    if n > 0 {
      ColourSplits(loops, n - 1, k);
    }
  }

  lemma {:induction false} BatchesBelow(loops: seq<Loop>, batches: seq<seq<Loop>>, k: nat)
    requires IsFirstFit(loops, batches) && k <= |batches|
    ensures multiset(Flatten(batches[..k])) + multiset(FromColour(loops, |loops|, k)) == multiset(loops)
  {
    if k == 0 {
      FromColourAll(loops, |loops|, 0);
      assert loops[..|loops|] == loops;
    } else {
      BatchesBelow(loops, batches, k - 1);
      ColourSplits(loops, |loops|, k - 1);
      assert batches[..k][..k - 1] == batches[..k - 1];
    }
  }

  lemma {:induction false} NothingBeyond(loops: seq<Loop>, n: nat, k: nat)
    requires n <= |loops| && forall i: nat | i < |loops| :: Colour(loops, i) < k
    ensures FromColour(loops, n, k) == []
  {
    if n > 0 {
      NothingBeyond(loops, n - 1, k);
    }
  }

  /** Every loop of the stage is in exactly one batch, exactly as often as it was registered. */
  lemma BatchesPartition(loops: seq<Loop>, batches: seq<seq<Loop>>)
    requires IsFirstFit(loops, batches)
    ensures multiset(Flatten(batches)) == multiset(loops)
  {
    BatchesBelow(loops, batches, |batches|);
    NothingBeyond(loops, |loops|, |batches|);
    assert batches[..|batches|] == batches;
  }

  lemma {:induction false} ColouredApart(loops: seq<Loop>, n: nat, k: nat)
    requires n <= |loops|
    ensures forall p, q | 0 <= p < q < |Coloured(loops, n, k)| :: !Clash(Coloured(loops, n, k)[q], Coloured(loops, n, k)[p])
  {
    if n > 0 {
      ColouredApart(loops, n - 1, k);
      if Colour(loops, n - 1) == k {
        ColourIsFirstFit(loops, n - 1);
        BlockedIffNotFree(loops, n - 1, k);
      }
    }
  }

  /** No batch holds two loops that conflict, in either direction. */
  lemma NoClashInBatch(loops: seq<Loop>, batches: seq<seq<Loop>>, k: nat, p: nat, q: nat)
    requires IsFirstFit(loops, batches) && k < |batches|
    requires p < |batches[k]| && q < |batches[k]| && p != q
    ensures !Clash(batches[k][p], batches[k][q])
  {
    ColouredApart(loops, |loops|, k);
    ConflictIsSymmetric(batches[k][p].access, batches[k][q].access);
  }

  lemma ClashAt(loops: seq<Loop>, i: nat, c: nat) returns (j: nat)
    requires i < |loops| && c < Colour(loops, i)
    ensures j < i && Colour(loops, j) == c && Clash(loops[i], loops[j])
  {
    ColourIsFirstFit(loops, i);
    assert !Free(loops, i, c);
    j :| j < i && Colour(loops, j) == c && Clash(loops[i], loops[j]);
  }

  /** A loop sits in a later batch only because every earlier batch holds an earlier-sorted loop it conflicts with. */
  lemma EarlierClash(loops: seq<Loop>, batches: seq<seq<Loop>>, i: nat, b: nat) returns (j: nat)
    requires IsFirstFit(loops, batches) && i < |loops| && b < Colour(loops, i)
    ensures loops[i] in batches[Colour(loops, i)]
    ensures j < i && loops[j] in batches[b] && Clash(loops[i], loops[j])
  {
    ColourIsFirstFit(loops, i);
    ColouredHas(loops, |loops|, Colour(loops, i), loops[i]);
    j := ClashAt(loops, i, b);
    ColouredHas(loops, |loops|, b, loops[j]);
  }

  /** The earlier loops of a colour below `c` that loop `i` conflicts with. */
  ghost function ClashesBelow(loops: seq<Loop>, i: nat, c: nat): set<nat>
    requires i < |loops|
  {
    set j: nat | j < i && Clash(loops[i], loops[j]) && Colour(loops, j) < c
  }

  lemma {:induction false} OneClashPerColour(loops: seq<Loop>, i: nat, c: nat)
    requires i < |loops| && c <= Colour(loops, i)
    ensures |ClashesBelow(loops, i, c)| >= c
  {
    if c > 0 {
      OneClashPerColour(loops, i, c - 1);
      var j := ClashAt(loops, i, c - 1);
      assert ClashesBelow(loops, i, c - 1) + {j} <= ClashesBelow(loops, i, c);
      SmallerSet(ClashesBelow(loops, i, c - 1) + {j}, ClashesBelow(loops, i, c));
    }
  }

  lemma SmallerSet(a: set<nat>, b: set<nat>)
    requires a <= b
    ensures |a| <= |b|
  {
    assert b == a + (b - a);
  }

  ghost function Degree(loops: seq<Loop>, i: nat): nat
    requires i < |loops|
  {
    |set j: nat | j < |loops| && j != i && Clash(loops[i], loops[j])|
  }

  /** There are at most one more batches than the largest number of conflicts any loop has. */
  lemma BatchCountBound(loops: seq<Loop>, batches: seq<seq<Loop>>, degree: nat)
    requires IsFirstFit(loops, batches)
    requires forall i: nat | i < |loops| :: Degree(loops, i) <= degree
    ensures |batches| <= degree + 1
  {
    if batches != [] {
      var k := |batches| - 1;
      var x := batches[k][0];
      ColouredHas(loops, |loops|, k, x);
      var i: nat :| i < |loops| && Colour(loops, i) == k && loops[i] == x;
      OneClashPerColour(loops, i, k);
      SmallerSet(ClashesBelow(loops, i, k), set j: nat | j < |loops| && j != i && Clash(loops[i], loops[j]));
      assert Degree(loops, i) <= degree;
    }
  }

  /** From declarations to batches: loops that share a batch declare no race with each other, so no
      component or resource type is mutable in one and declared at all in the other. */
  lemma SharedBatchIsRaceFree(loops: seq<Loop>, batches: seq<seq<Loop>>, k: nat, p: nat, q: nat,
                              d: seq<FieldDecl>, e: seq<FieldDecl>)
    requires IsFirstFit(loops, batches) && k < |batches|
    requires p < |batches[k]| && q < |batches[k]| && p != q
    requires Records(batches[k][p].access, d) && Records(batches[k][q].access, e)
    ensures !Races(d, e) && !Races(e, d)
  {
    NoClashInBatch(loops, batches, k, p, q);
    ConflictIffRaces(batches[k][p].access, batches[k][q].access, d, e);
  }

  // ---------- determinism ----------

  lemma FirstFitIsUnique(loops: seq<Loop>, b: seq<seq<Loop>>, c: seq<seq<Loop>>)
    requires IsFirstFit(loops, b) && IsFirstFit(loops, c)
    ensures b == c
  {
    if |b| < |c| {
      BatchOwner(loops, c, |b|);
    } else if |c| < |b| {
      BatchOwner(loops, b, |c|);
    }
  }

  lemma BatchOwner(loops: seq<Loop>, batches: seq<seq<Loop>>, k: nat)
    requires IsFirstFit(loops, batches) && k < |batches|
    ensures exists i: nat | i < |loops| :: Colour(loops, i) == k
  {
    ColouredHas(loops, |loops|, k, batches[k][0]);
  }

  lemma {:induction false} NameLeqAntisymmetric(a: string, b: string)
    requires NameLeq(a, b) && NameLeq(b, a)
    ensures a == b
  {
    if a != [] && b != [] {
      NameLeqAntisymmetric(a[1..], b[1..]);
      assert a == [a[0]] + a[1..] && b == [b[0]] + b[1..];
    }
  }

  /** Name order is the usual one: a name comes before its extensions, and otherwise the first difference decides. */
  lemma {:induction false} NameOrder(a: string, b: string, k: nat)
    requires k <= |a| && k <= |b| && a[..k] == b[..k]
    ensures k == |a| ==> NameLeq(a, b)
    ensures k == |b| < |a| ==> !NameLeq(a, b)
    ensures k < |a| && k < |b| && a[k] != b[k] ==> (NameLeq(a, b) <==> a[k] < b[k])
  {
    if k > 0 {
      assert a[0] == a[..k][0] == b[..k][0] == b[0];
      assert a[1..][..k - 1] == a[..k][1..] && b[1..][..k - 1] == b[..k][1..];
      NameOrder(a[1..], b[1..], k - 1);
    }
  }

  ghost predicate DistinctNames(loops: seq<Loop>) {
    forall i, j | 0 <= i < j < |loops| :: loops[i].name != loops[j].name
  }

  lemma SortedHeadsAgree(a: seq<Loop>, b: seq<Loop>)
    requires a != [] && b != [] && a[0] in b && b[0] in a
    requires SortedByName(a) && SortedByName(b) && DistinctNames(a)
    ensures a[0] == b[0]
  {
    var q :| 0 <= q < |a| && a[q] == b[0];
    var p :| 0 <= p < |b| && b[p] == a[0];
    if q > 0 && p > 0 {
      NameLeqAntisymmetric(a[0].name, b[0].name);
    }
  }

  lemma {:induction false} SortIsUnique(a: seq<Loop>, b: seq<Loop>)
    requires multiset(a) == multiset(b) && SortedByName(a) && SortedByName(b) && DistinctNames(a)
    ensures a == b
  {
    assert |a| == |multiset(a)| == |multiset(b)| == |b|;
    if a != [] {
      assert b[0] in multiset(a) && a[0] in multiset(b);
      SortedHeadsAgree(a, b);
      assert a == [a[0]] + a[1..] && b == [b[0]] + b[1..];
      assert multiset(a[1..]) == multiset(a) - multiset{a[0]};
      assert multiset(b[1..]) == multiset(b) - multiset{b[0]};
      SortIsUnique(a[1..], b[1..]);
    }
  }

  /** With distinct names, the batches depend only on which loops are registered, not on the order. */
  lemma BatchingIsDeterministic(a: seq<Loop>, b: seq<Loop>, loops: seq<Loop>, again: seq<Loop>,
                                batches: seq<seq<Loop>>, batchesAgain: seq<seq<Loop>>)
    requires SortOf(a, loops) && SortOf(b, again) && multiset(loops) == multiset(again) && DistinctNames(a)
    requires IsFirstFit(a, batches) && IsFirstFit(b, batchesAgain)
    ensures batches == batchesAgain
  {
    SortIsUnique(a, b);
    FirstFitIsUnique(a, batches, batchesAgain);
  }
}
