/**
 Lexicographic order on integer vectors: the reference against which every comparison function of
 the CPU allocator is measured. A comparison that agrees in sign with the order of some rank
 vectors is a total preorder, and a strict total order when the ranks tell all elements apart.
 */
module Ranking {
  import opened Sorting

  /** The sign of the first difference; a proper prefix comes first. */
  function LexCmp(a: seq<int>, b: seq<int>): int {
    if a == [] || b == [] then |a| - |b|
    else if a[0] != b[0] then a[0] - b[0]
    else LexCmp(a[1..], b[1..])
  }

  predicate SameSign(x: int, y: int) {
    (x < 0 <==> y < 0) && (x > 0 <==> y > 0)
  }

  lemma {:induction false} LexAntisymmetric(a: seq<int>, b: seq<int>)
    ensures LexCmp(a, b) == -LexCmp(b, a)
  {
    if a != [] && b != [] && a[0] == b[0] {
      LexAntisymmetric(a[1..], b[1..]);
    }
  }

  lemma {:induction false} LexTransitive(a: seq<int>, b: seq<int>, c: seq<int>)
    requires LexCmp(a, b) <= 0 && LexCmp(b, c) <= 0
    ensures LexCmp(a, c) <= 0
  {
    if a != [] && b != [] && c != [] && a[0] == b[0] == c[0] {
      LexTransitive(a[1..], b[1..], c[1..]);
    }
  }

  lemma {:induction false} LexTotal(a: seq<int>, b: seq<int>)
    ensures LexCmp(a, b) == 0 <==> a == b
  {
    if a != [] && b != [] && a[0] == b[0] {
      LexTotal(a[1..], b[1..]);
      assert a == [a[0]] + a[1..] && b == [b[0]] + b[1..];
    }
  }

  lemma {:induction false} LexConcat(a: seq<int>, b: seq<int>, c: seq<int>, d: seq<int>)
    requires |a| == |b|
    ensures LexCmp(a + c, b + d) == if LexCmp(a, b) != 0 then LexCmp(a, b) else LexCmp(c, d)
  {
    if a == [] {
      assert a + c == c && b + d == d;
    } else {
      assert (a + c)[1..] == a[1..] + c && (b + d)[1..] == b[1..] + d;
      if a[0] == b[0] {
        LexConcat(a[1..], b[1..], c, d);
      }
    }
  }

  /** Between two vectors with a common prefix there are only vectors with that prefix. */
  lemma LexBetween(p: seq<int>, q: seq<int>, x: seq<int>, y: seq<int>, z: seq<int>)
    requires |p| == |q| && LexCmp(p + x, q + y) <= 0 && LexCmp(q + y, p + z) <= 0
    ensures p == q
  {
    LexConcat(p, q, x, y);
    LexConcat(q, p, y, z);
    LexAntisymmetric(p, q);
    LexTotal(p, q);
  }

  lemma LexCons(x: int, y: int, a: seq<int>, b: seq<int>)
    ensures LexCmp([x] + a, [y] + b) == if x != y then x - y else LexCmp(a, b)
  {
    assert ([x] + a)[1..] == a && ([y] + b)[1..] == b;
  }

  /** Comparing by the first nonzero difference. */
  function First(a: int, b: int): int {
    if a != 0 then a else b
  }

  lemma LexOfFour(a: seq<int>, b: seq<int>)
    requires |a| == |b| == 4
    ensures LexCmp(a, b) == First(a[0] - b[0], First(a[1] - b[1], First(a[2] - b[2], a[3] - b[3])))
  {
    assert LexCmp(a[1..], b[1..]) == First(a[1] - b[1], LexCmp(a[2..], b[2..])) by {
      assert a[1..][1..] == a[2..] && b[1..][1..] == b[2..];
    }
    assert LexCmp(a[2..], b[2..]) == First(a[2] - b[2], LexCmp(a[3..], b[3..])) by {
      assert a[2..][1..] == a[3..] && b[2..][1..] == b[3..];
    }
    assert LexCmp(a[3..], b[3..]) == a[3] - b[3] by {
      assert a[3..][1..] == b[3..][1..] == [];
    }
  }

  lemma LexOfSix(a: seq<int>, b: seq<int>)
    requires |a| == |b| == 6
    ensures LexCmp(a, b) == First(a[0] - b[0], First(a[1] - b[1], First(a[2] - b[2],
                            First(a[3] - b[3], First(a[4] - b[4], a[5] - b[5])))))
  {
    assert LexCmp(a[1..], b[1..]) == First(a[1] - b[1], LexCmp(a[2..], b[2..])) by {
      assert a[1..][1..] == a[2..] && b[1..][1..] == b[2..];
    }
    LexOfFour(a[2..], b[2..]);
  }

  /** `cmp` orders elements the way `rank` orders their rank vectors. */
  ghost predicate RankedBy<T(!new)>(cmp: (T, T) -> int, rank: T -> seq<int>) {
    forall x, y :: SameSign(cmp(x, y), LexCmp(rank(x), rank(y)))
  }

  lemma RankedIsLawful<T(!new)>(cmp: (T, T) -> int, rank: T -> seq<int>)
    requires RankedBy(cmp, rank)
    ensures Lawful(cmp)
  {
    forall x, y ensures cmp(x, y) < 0 <==> cmp(y, x) > 0 {
      LexAntisymmetric(rank(x), rank(y));
    }
    forall x, y, z | cmp(x, y) <= 0 && cmp(y, z) <= 0 ensures cmp(x, z) <= 0 {
      LexTransitive(rank(x), rank(y), rank(z));
    }
  }

  /** Comparing by vectors of integers, in either direction. */
  lemma LexLawful<T(!new)>(cmp: (T, T) -> int, key: T -> seq<int>)
    requires (forall x, y :: cmp(x, y) == LexCmp(key(x), key(y))) || (forall x, y :: cmp(x, y) == LexCmp(key(y), key(x)))
    ensures Lawful(cmp)
  {
    forall x, y ensures cmp(x, y) < 0 <==> cmp(y, x) > 0 {
      LexAntisymmetric(key(x), key(y));
    }
    forall x, y, z | cmp(x, y) <= 0 && cmp(y, z) <= 0 ensures cmp(x, z) <= 0 {
      if forall x, y :: cmp(x, y) == LexCmp(key(x), key(y)) {
        LexTransitive(key(x), key(y), key(z));
      } else {
        LexTransitive(key(z), key(y), key(x));
      }
    }
  }

  /** Comparing by one order and, where that ties, by another one. */
  lemma FirstLawful<T(!new)>(cmp: (T, T) -> int, one: (T, T) -> int, other: (T, T) -> int)
    requires Lawful(one) && Lawful(other) && forall x, y :: cmp(x, y) == First(one(x, y), other(x, y))
    ensures Lawful(cmp)
  {
    forall x, y ensures cmp(x, y) < 0 <==> cmp(y, x) > 0 {
      assert one(x, y) < 0 <==> one(y, x) > 0;
      assert one(y, x) < 0 <==> one(x, y) > 0;
      assert other(x, y) < 0 <==> other(y, x) > 0;
    }
    forall x, y, z | cmp(x, y) <= 0 && cmp(y, z) <= 0 ensures cmp(x, z) <= 0 {
      assert one(x, z) <= 0;
      if one(x, z) == 0 {
        assert one(z, x) <= 0;
        assert one(y, x) <= 0 && one(z, y) <= 0;
        assert other(x, z) <= 0;
      }
    }
  }
}
