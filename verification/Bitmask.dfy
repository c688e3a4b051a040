/** The 256-bit component mask: four 64-bit words that stand for a set of component IDs.
    A word is its 64 bits and the word operators act bit by bit, as Go defines them for
    unsigned integers. The lemmas say which set operation each mask operation is, early
    exits included. */
module Bitmasks {

  /** A component ID is one byte. */
  type ComponentID = id: nat | id < 256

  // ---------- 64-bit words ----------

  type Word = w: seq<bool> | |w| == 64 witness seq(64, i => false)

  function Zero(): (w: Word)
    ensures forall i | 0 <= i < 64 :: !w[i]
  {
    seq(64, i => false)
  }

  /** `1 << k` */
  function Bit(k: nat): Word
    requires k < 64
  {
    Zero()[k := true]
  }

  /** `v & w` */
  function Both(v: Word, w: Word): Word {
    seq(64, i requires 0 <= i < 64 => v[i] && w[i])
  }

  /** `v | w` */
  function Either(v: Word, w: Word): Word {
    seq(64, i requires 0 <= i < 64 => v[i] || w[i])
  }

  /** `v &^ w` */
  function Without(v: Word, w: Word): Word {
    seq(64, i requires 0 <= i < 64 => v[i] && !w[i])
  }

  /** The number of one bits below position `k`; OnesCount(w, 64) is bits.OnesCount64(w). */
  function OnesCount(w: Word, k: nat): nat
    requires k <= 64
  {
    if k == 0 then 0 else OnesCount(w, k - 1) + if w[k - 1] then 1 else 0
  }

  // ---------- masks ----------

  /** Four words; bit `id % 64` of word `id / 64` stands for `id`. */
  type Bitmask = m: seq<Word> | |m| == 4 witness [Zero(), Zero(), Zero(), Zero()]

  function Empty(): Bitmask {
    [Zero(), Zero(), Zero(), Zero()]
  }

  function Set(m: Bitmask, id: ComponentID): Bitmask {
    m[id / 64 := Either(m[id / 64], Bit(id % 64))]
  }

  function Clear(m: Bitmask, id: ComponentID): Bitmask {
    m[id / 64 := Without(m[id / 64], Bit(id % 64))]
  }

  predicate Has(m: Bitmask, id: ComponentID) {
    Both(m[id / 64], Bit(id % 64)) != Zero()
  }

  predicate ContainsAll(m: Bitmask, other: Bitmask) {
    if Both(m[0], other[0]) != other[0] then false
    else if other[1] == Zero() && other[2] == Zero() && other[3] == Zero() then true
    else Both(m[1], other[1]) == other[1] && Both(m[2], other[2]) == other[2] && Both(m[3], other[3]) == other[3]
  }

  predicate ContainsAny(m: Bitmask, other: Bitmask) {
    if Both(m[0], other[0]) != Zero() then true
    else if other[1] == Zero() && other[2] == Zero() && other[3] == Zero() then false
    else Both(m[1], other[1]) != Zero() || Both(m[2], other[2]) != Zero() || Both(m[3], other[3]) != Zero()
  }

  function Or(m: Bitmask, other: Bitmask): Bitmask {
    [Either(m[0], other[0]), Either(m[1], other[1]), Either(m[2], other[2]), Either(m[3], other[3])]
  }

  function And(m: Bitmask, other: Bitmask): Bitmask {
    [Both(m[0], other[0]), Both(m[1], other[1]), Both(m[2], other[2]), Both(m[3], other[3])]
  }

  function AndNot(m: Bitmask, other: Bitmask): Bitmask {
    [Without(m[0], other[0]), Without(m[1], other[1]), Without(m[2], other[2]), Without(m[3], other[3])]
  }

  predicate Equals(m: Bitmask, other: Bitmask) {
    m[0] == other[0] && m[1] == other[1] && m[2] == other[2] && m[3] == other[3]
  }

  function Count(m: Bitmask): nat {
    OnesCount(m[0], 64) + OnesCount(m[1], 64) + OnesCount(m[2], 64) + OnesCount(m[3], 64)
  }

  // ---------- the set a mask stands for ----------

  ghost function Ids(m: Bitmask): set<ComponentID> {
    IdsBelow(m, 256)
  }

  ghost function IdsBelow(m: Bitmask, n: nat): set<ComponentID>
    requires n <= 256
  {
    set id: ComponentID | 0 <= id < n && m[id / 64][id % 64]
  }

  /** Has reads exactly the addressed bit. */
  lemma HasIsMember(m: Bitmask, id: ComponentID)
    ensures Has(m, id) <==> id in Ids(m)
  {
    var met := Both(m[id / 64], Bit(id % 64));
    if m[id / 64][id % 64] {
      assert met[id % 64];
    } else {
      assert met == Zero();
    }
  }

  /** Set touches exactly one of the 256 bits. */
  lemma SetAddsOne(m: Bitmask, id: ComponentID)
    ensures Ids(Set(m, id)) == Ids(m) + {id}
  {
    forall x: ComponentID
      ensures Set(m, id)[x / 64][x % 64] <==> x == id || m[x / 64][x % 64]
    {
    }
  }

  /** Clear touches exactly one of the 256 bits. */
  lemma ClearRemovesOne(m: Bitmask, id: ComponentID)
    ensures Ids(Clear(m, id)) == Ids(m) - {id}
  {
    forall x: ComponentID
      ensures Clear(m, id)[x / 64][x % 64] <==> x != id && m[x / 64][x % 64]
    {
    }
  }

  lemma EmptyHasNone()
    ensures Ids(Empty()) == {}
  {
  }

  lemma BitOwner(m: Bitmask, q: nat, j: nat)
    requires q < 4 && j < 64
    ensures q * 64 + j in Ids(m) <==> m[q][j]
  {
    var id: ComponentID := q * 64 + j;
    assert id / 64 == q && id % 64 == j;
  }

  lemma SubsetWord(m: Bitmask, other: Bitmask, q: nat)
    requires q < 4 && Ids(other) <= Ids(m)
    ensures Both(m[q], other[q]) == other[q]
  {
    forall j: nat | j < 64
      ensures other[q][j] ==> m[q][j]
    {
      BitOwner(m, q, j);
      BitOwner(other, q, j);
    }
  }

  /** The early exits of ContainsAll do not change its answer. */
  lemma ContainsAllIsSubset(m: Bitmask, other: Bitmask)
    ensures ContainsAll(m, other) <==> Ids(other) <= Ids(m)
  {
    if Ids(other) <= Ids(m) {
      SubsetWord(m, other, 0); SubsetWord(m, other, 1); SubsetWord(m, other, 2); SubsetWord(m, other, 3);
    }
    if ContainsAll(m, other) {
      forall id: ComponentID | other[id / 64][id % 64]
        ensures m[id / 64][id % 64]
      {
        assert Both(m[id / 64], other[id / 64])[id % 64];
      }
    }
  }

  lemma MeetingBit(v: Word, w: Word) returns (j: nat)
    requires Both(v, w) != Zero()
    ensures j < 64 && v[j] && w[j]
  {
    j :| j < 64 && Both(v, w)[j] != Zero()[j];
  }

  /** The early exits of ContainsAny do not change its answer. */
  lemma ContainsAnyIsOverlap(m: Bitmask, other: Bitmask)
    ensures ContainsAny(m, other) <==> Ids(m) * Ids(other) != {}
  {
    if ContainsAny(m, other) {
      var q := if Both(m[0], other[0]) != Zero() then 0 else if Both(m[1], other[1]) != Zero() then 1
               else if Both(m[2], other[2]) != Zero() then 2 else 3;
      var j := MeetingBit(m[q], other[q]);
      BitOwner(m, q, j);
      BitOwner(other, q, j);
      assert q * 64 + j in Ids(m) * Ids(other);
    }
    if id: ComponentID :| id in Ids(m) * Ids(other) {
      assert Both(m[id / 64], other[id / 64])[id % 64];
      assert other[id / 64] != Zero();
    }
  }

  lemma OrIsUnion(m: Bitmask, other: Bitmask)
    ensures Ids(Or(m, other)) == Ids(m) + Ids(other)
  {
    assert forall x: ComponentID ::
        Or(m, other)[x / 64][x % 64] <==> m[x / 64][x % 64] || other[x / 64][x % 64];
  }

  lemma AndIsIntersection(m: Bitmask, other: Bitmask)
    ensures Ids(And(m, other)) == Ids(m) * Ids(other)
  {
    assert forall x: ComponentID ::
        And(m, other)[x / 64][x % 64] <==> m[x / 64][x % 64] && other[x / 64][x % 64];
  }

  lemma AndNotIsDifference(m: Bitmask, other: Bitmask)
    ensures Ids(AndNot(m, other)) == Ids(m) - Ids(other)
  {
    assert forall x: ComponentID ::
        AndNot(m, other)[x / 64][x % 64] <==> m[x / 64][x % 64] && !other[x / 64][x % 64];
  }

  /** Two masks are equal word by word exactly when they stand for the same set. */
  lemma EqualsIsSameSet(m: Bitmask, other: Bitmask)
    ensures Equals(m, other) <==> Ids(m) == Ids(other)
  {
    if Ids(m) == Ids(other) {
      forall q: nat, j: nat | q < 4 && j < 64
        ensures m[q][j] == other[q][j]
      {
        BitOwner(m, q, j);
        BitOwner(other, q, j);
      }
    }
    if Equals(m, other) { assert m == other; }
  }

  lemma {:induction false} CountWord(m: Bitmask, q: nat, k: nat)
    requires q < 4 && k <= 64
    ensures |IdsBelow(m, q * 64 + k)| == |IdsBelow(m, q * 64)| + OnesCount(m[q], k)
  {
    if k > 0 {
      CountWord(m, q, k - 1);
      var id: ComponentID := q * 64 + (k - 1);
      BitOwner(m, q, k - 1);
      if m[q][k - 1] {
        assert IdsBelow(m, id + 1) == IdsBelow(m, id) + {id};
      } else {
        assert IdsBelow(m, id + 1) == IdsBelow(m, id);
      }
    }
  }

  lemma CountIsCardinality(m: Bitmask)
    ensures Count(m) == |Ids(m)|
  {
    assert IdsBelow(m, 0) == {};
    CountWord(m, 0, 64);
    CountWord(m, 1, 64);
    CountWord(m, 2, 64);
    CountWord(m, 3, 64);
  }
}
