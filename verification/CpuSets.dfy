/** CPU sets and the counting facts about them that every other module leans on. */
module CpuSets {

  type CpuSet = set<int>

  /** A member of a nonempty set. */
  lemma Pick<T>(s: set<T>) returns (x: T)
    requires s != {}
    ensures x in s
  {
    x :| x in s;
  }

  /** Sets are disjoint unless they have a common member. */
  lemma CommonMember<T>(a: set<T>, b: set<T>) returns (x: T)
    requires !(a !! b)
    ensures x in a && x in b
  {
    x :| x in a && x in b;
  }

  /** A member of a set that another one lacks. */
  lemma Missing<T>(a: set<T>, b: set<T>) returns (x: T)
    requires !(a <= b)
    ensures x in a && x !in b
  {
    x :| x in a && x !in b;
  }

  lemma SameMap<K, V>(a: map<K, V>, b: map<K, V>)
    requires forall k :: k in a <==> k in b
    requires forall k :: k in a ==> a[k] == b[k]
    ensures a == b
  {
  }

  lemma SubsetSize<T>(a: set<T>, b: set<T>)
    requires a <= b
    ensures |a| <= |b|
    ensures |b - a| == |b| - |a|
  {
    assert b == a + (b - a);
  }

  lemma SubsetOfSameSize<T>(a: set<T>, b: set<T>)
    requires a <= b && |a| == |b|
    ensures a == b
  {
    SubsetSize(a, b);
  }

  lemma DisjointUnionSize<T>(a: set<T>, b: set<T>)
    requires a !! b
    ensures |a + b| == |a| + |b|
  {
  }

  /** Removing one more piece of `whole` enlarges what has been removed by exactly that piece. */
  lemma RemovePiece<T>(whole: set<T>, left: set<T>, piece: set<T>)
    requires piece <= left <= whole
    ensures whole - (left - piece) == (whole - left) + piece
    ensures |whole - (left - piece)| == |whole - left| + |piece|
  {
    assert whole - (left - piece) == (whole - left) + piece;
    DisjointUnionSize(whole - left, piece);
  }

  /** The smallest member of a set, as `List()[0]` gives it. */
  ghost predicate IsMin(s: set<int>, m: int) {
    m in s && forall x :: x in s ==> m <= x
  }

  lemma {:induction false} MinExists(s: set<int>) returns (m: int)
    requires s != {}
    ensures IsMin(s, m)
  {
    m := Pick(s);
    if s != {m} {
      var n := MinExists(s - {m});
      forall x | x in s ensures (if n < m then n else m) <= x {
        if x != m { assert x in s - {m}; }
      }
      m := if n < m then n else m;
    }
  }

  ghost function MinOf(s: set<int>): (m: int)
    requires s != {}
    ensures IsMin(s, m)
  {
    SomeMin(s);
    var m :| IsMin(s, m);
    m
  }

  lemma SomeMin(s: set<int>)
    requires s != {}
    ensures exists m :: IsMin(s, m)
  {
    var m := MinExists(s);
  }

  /** The smallest member, as a search over the set finds it. */
  method FindMin(s: set<int>) returns (m: int)
    requires s != {}
    ensures m == MinOf(s)
  {
    ghost var w := MinOf(s);
    m :| m in s && forall x | x in s :: m <= x;
  }

  lemma NothingToRemove(a: CpuSet, b: CpuSet)
    requires a * b == {}
    ensures a - b == a
  {
    forall c | c in a ensures c !in b {
      assert c in a * b <==> c in b;
    }
  }
}
