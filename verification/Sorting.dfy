/**
 Sorting as Go's sort.Slice and slices.SortFunc promise it: given a comparison that is a total
 preorder, the outcome is some ordered permutation of the input. Ties may land in any order.
 */
module Sorting {
  import opened CpuSets

  /** A comparison result is negative, zero or positive; `cmp(x, y) <= 0` lets x come before y. */
  ghost predicate Lawful<T(!new)>(cmp: (T, T) -> int) {
    && (forall x, y :: cmp(x, y) < 0 <==> cmp(y, x) > 0)
    && (forall x, y, z :: cmp(x, y) <= 0 && cmp(y, z) <= 0 ==> cmp(x, z) <= 0)
  }

  predicate Ordered<T>(s: seq<T>, cmp: (T, T) -> int) {
    forall i, j :: 0 <= i < j < |s| ==> cmp(s[i], s[j]) <= 0
  }

  predicate IsSortOf<T(==)>(s: seq<T>, r: seq<T>, cmp: (T, T) -> int) {
    multiset(r) == multiset(s) && Ordered(r, cmp)
  }

  predicate Distinct<T(==)>(s: seq<T>) {
    forall i, j :: 0 <= i < j < |s| ==> s[i] != s[j]
  }

  ghost function Insert<T(!new)>(x: T, s: seq<T>, cmp: (T, T) -> int): seq<T> {
    if s == [] then [x]
    else if cmp(x, s[0]) <= 0 then [x] + s
    else [s[0]] + Insert(x, s[1..], cmp)
  }

  lemma PrependKeepsOrder<T(!new)>(x: T, s: seq<T>, cmp: (T, T) -> int)
    requires Ordered(s, cmp)
    requires forall y :: y in s ==> cmp(x, y) <= 0
    ensures Ordered([x] + s, cmp)
  {
    var r := [x] + s;
    forall i, j | 0 <= i < j < |r| ensures cmp(r[i], r[j]) <= 0 {
      if i > 0 {
        assert r[i] == s[i-1] && r[j] == s[j-1];
      } else {
        assert r[j] == s[j-1];
      }
    }
  }

  lemma {:induction false} InsertAddsOne<T(!new)>(x: T, s: seq<T>, cmp: (T, T) -> int)
    ensures multiset(Insert(x, s, cmp)) == multiset(s) + multiset{x}
  {
    if s != [] && cmp(x, s[0]) > 0 {
      InsertAddsOne(x, s[1..], cmp);
      assert s == [s[0]] + s[1..];
    }
  }

  lemma {:induction false} InsertKeepsOrder<T(!new)>(x: T, s: seq<T>, cmp: (T, T) -> int)
    requires Lawful(cmp) && Ordered(s, cmp)
    ensures Ordered(Insert(x, s, cmp), cmp)
  {
    if s == [] {
    } else if cmp(x, s[0]) <= 0 {
      forall i | 0 <= i < |s| ensures cmp(x, s[i]) <= 0 {
        if i > 0 { assert cmp(s[0], s[i]) <= 0; }
      }
      PrependKeepsOrder(x, s, cmp);
    } else {
      var rest := Insert(x, s[1..], cmp);
      InsertKeepsOrder(x, s[1..], cmp);
      InsertAddsOne(x, s[1..], cmp);
      forall y | y in rest ensures cmp(s[0], y) <= 0 {
        assert y in multiset(rest);
        assert y == x || y in s[1..];
      }
      PrependKeepsOrder(s[0], rest, cmp);
    }
  }

  lemma {:induction false} SortExists<T(!new)>(s: seq<T>, cmp: (T, T) -> int) returns (r: seq<T>)
    requires Lawful(cmp)
    ensures IsSortOf(s, r, cmp)
  {
    if s == [] {
      r := [];
    } else {
      var t := SortExists(s[1..], cmp);
      r := Insert(s[0], t, cmp);
      InsertKeepsOrder(s[0], t, cmp);
      InsertAddsOne(s[0], t, cmp);
      assert s == [s[0]] + s[1..];
    }
  }

  /** Any sort outcome the Go library may produce. The comparison must be a total preorder. */
  method Sort<T(!new, ==)>(s: seq<T>, cmp: (T, T) -> int) returns (r: seq<T>)
    requires Lawful(cmp)
    ensures IsSortOf(s, r, cmp)
  {
    ghost var w := SortExists(s, cmp);
    r :| IsSortOf(s, r, cmp);
  }

  /** The first of the sorted elements comes before or with all others. */
  lemma FirstOfSort<T(!new)>(s: seq<T>, r: seq<T>, cmp: (T, T) -> int)
    requires Lawful(cmp) && IsSortOf(s, r, cmp) && s != []
    ensures r != [] && r[0] in s && forall x :: x in s ==> cmp(r[0], x) <= 0
  {
    assert |multiset(r)| == |multiset(s)|;
    assert r[0] in multiset(s);
    forall x | x in s ensures cmp(r[0], x) <= 0 {
      assert x in multiset(r);
      var k :| 0 <= k < |r| && r[k] == x;
      assert cmp(x, x) < 0 <==> cmp(x, x) > 0;
    }
  }

  lemma DistinctIsMultiplicityOne<T>(s: seq<T>)
    ensures Distinct(s) <==> forall x <- s :: multiset(s)[x] == 1
  {
    forall i, j | 0 <= i < j < |s| && s[i] == s[j]
      ensures multiset(s)[s[i]] != 1
    {
      assert s == s[..j] + s[j..];
      assert s[i] == s[..j][i] && s[j] == s[j..][0];
      assert multiset(s)[s[i]] == multiset(s[..j])[s[i]] + multiset(s[j..])[s[i]];
      assert s[i] in multiset(s[..j]) && s[j] in multiset(s[j..]);
    }
    if Distinct(s) {
      forall x | x in s ensures multiset(s)[x] == 1 {
        var i :| 0 <= i < |s| && s[i] == x;
        assert s == s[..i] + [x] + s[i+1..];
        assert x !in s[..i] && x !in s[i+1..];
      }
    }
  }

  lemma PermutationKeepsDistinct<T>(s: seq<T>, r: seq<T>)
    requires multiset(r) == multiset(s) && Distinct(s)
    ensures Distinct(r) && |r| == |s|
    ensures forall x :: x in r <==> x in s
  {
    DistinctIsMultiplicityOne(s);
    DistinctIsMultiplicityOne(r);
    forall x ensures x in r <==> x in s {
      assert x in multiset(r) <==> x in multiset(s);
    }
    assert |r| == |multiset(r)| && |s| == |multiset(s)|;
  }

  /** The members of a set in increasing order. */
  method SortedList(s: set<int>) returns (r: seq<int>)
    ensures forall i, j :: 0 <= i < j < |r| ==> r[i] < r[j]
    ensures Distinct(r) && forall x :: x in r <==> x in s
  {
    r := [];
    var todo := s;
    while todo != {}
      invariant todo <= s && forall x :: x in r <==> x in s - todo
      invariant forall i, j :: 0 <= i < j < |r| ==> r[i] < r[j]
      invariant forall i, x :: 0 <= i < |r| && x in todo ==> r[i] < x
      decreases todo
    {
      var m := FindMin(todo);
      r := r + [m];
      todo := todo - {m};
    }
  }

  /** The members of a sequence. */
  ghost function Elements<T>(s: seq<T>): set<T> {
    set x | x in s
  }

  lemma {:induction false} DistinctElements<T>(s: seq<T>)
    requires Distinct(s)
    ensures |Elements(s)| == |s|
  {
    if s != [] {
      var init, last := s[..|s|-1], s[|s|-1];
      DistinctElements(init);
      assert s == init + [last] && last !in init;
      assert Elements(s) == Elements(init) + {last};
    }
  }
}
