/** Sizes fixed by the runtime, and notions that several modules share. */
module Basics {
  const STAGE_COUNT: nat := 3

  /** Component types per manager. */
  const MAX_COMPONENTS: nat := 255

  datatype Option<T> = None | Some(value: T)

  ghost predicate Distinct<T>(s: seq<T>) {
    forall i, j | 0 <= i < j < |s| :: s[i] != s[j]
  }

  ghost function Elements<T>(s: seq<T>): set<T> {
    set x | x in s
  }

  /** The sequence lists every element of the set, once. */
  ghost predicate Enumerates<T>(order: seq<T>, s: set<T>) {
    Distinct(order) && (forall x | x in order :: x in s) && (forall x | x in s :: x in order)
  }

  function RemoveFirst<T(==)>(s: seq<T>, x: T): seq<T> {
    if s == [] then [] else if s[0] == x then s[1..] else [s[0]] + RemoveFirst(s[1..], x)
  }

  /** Cutting out the first occurrence is removing it. */
  lemma {:induction false} CutIsRemoveFirst<T>(s: seq<T>, x: T, i: nat)
    requires i < |s| && s[i] == x && x !in s[..i]
    ensures s[..i] + s[i + 1..] == RemoveFirst(s, x)
  {
    if i > 0 {
      assert s[0] == s[..i][0];
      assert s[1..][..i - 1] == s[..i][1..];
      CutIsRemoveFirst(s[1..], x, i - 1);
    }
  }

  lemma {:induction false} RemoveAbsent<T>(s: seq<T>, x: T)
    requires x !in s
    ensures RemoveFirst(s, x) == s
  {
    if s != [] {
      RemoveAbsent(s[1..], x);
    }
  }

  /** Exactly one occurrence goes, if there is one. */
  lemma {:induction false} RemoveFirstCounts<T>(s: seq<T>, x: T)
    ensures multiset(RemoveFirst(s, x)) == multiset(s) - multiset{x}
  {
    if s != [] {
      assert s == [s[0]] + s[1..];
      if s[0] != x {
        RemoveFirstCounts(s[1..], x);
        assert multiset(s) == multiset{s[0]} + multiset(s[1..]);
      }
    }
  }
}
