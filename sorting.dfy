/**
 * The ORDER BY step of a query. SQLite sorts the selected rows by a key;
 * rows whose keys tie come out in an order SQLite does not promise. The
 * model sorts by insertion under a caller-given relation `before`
 * ("may come first") that is a total preorder, and proves the two things
 * an ORDER BY promises: the output is in order, and it holds exactly the
 * input rows.
 */
module Sorting {

  /** `before` is total and transitive: every pair of rows can be ordered, consistently. */
  ghost predicate TotalPreorder<T(!new)>(before: (T, T) -> bool) {
    (forall a, b :: before(a, b) || before(b, a)) &&
    (forall a, b, c :: before(a, b) && before(b, c) ==> before(a, c))
  }

  /** Every row may come before every later row. */
  ghost predicate Sorted<T>(s: seq<T>, before: (T, T) -> bool) {
    forall i, j :: 0 <= i < j < |s| ==> before(s[i], s[j])
  }

  /** Puts `x` in front of the first row it may come before. */
  function Insert<T>(x: T, s: seq<T>, before: (T, T) -> bool): (r: seq<T>)
    ensures multiset(r) == multiset(s) + multiset{x}
    ensures |r| == |s| + 1
  {
    if s == [] then [x]
    else if before(x, s[0]) then [x] + s
    else
      assert s == [s[0]] + s[1..];
      [s[0]] + Insert(x, s[1..], before)
  }

  /** Insertion sort: the rows of `s` in `before` order. */
  function SortBy<T>(s: seq<T>, before: (T, T) -> bool): (r: seq<T>)
    ensures multiset(r) == multiset(s)
    ensures |r| == |s|
  {
    if s == [] then []
    else
      assert s == [s[0]] + s[1..];
      Insert(s[0], SortBy(s[1..], before), before)
  }

  lemma {:induction false} InsertSorted<T(!new)>(x: T, s: seq<T>, before: (T, T) -> bool)
    requires TotalPreorder(before)
    requires Sorted(s, before)
    ensures Sorted(Insert(x, s, before), before)
  {
    if s != [] && !before(x, s[0]) {
      var tail := s[1..];
      assert Sorted(tail, before) by {
        forall i, j | 0 <= i < j < |tail| ensures before(tail[i], tail[j]) {
          assert tail[i] == s[i + 1] && tail[j] == s[j + 1];
        }
      }
      InsertSorted(x, tail, before);
      var r := Insert(x, tail, before);
      assert before(s[0], x);
      forall y | y in r ensures before(s[0], y) {
        assert y in multiset(r);
        if y != x {
          assert y in multiset(tail);
          var k :| 0 <= k < |tail| && tail[k] == y;
          assert s[k + 1] == y;
        }
      }
      SortedCons(s[0], r, before);
    }
  }

  /** A row that may come before every row of a sorted sequence can go in front of it. */
  lemma SortedCons<T>(x: T, r: seq<T>, before: (T, T) -> bool)
    requires Sorted(r, before)
    requires forall y :: y in r ==> before(x, y)
    ensures Sorted([x] + r, before)
  {
    var out := [x] + r;
    forall i, j | 0 <= i < j < |out| ensures before(out[i], out[j]) {
      if i == 0 {
        assert out[j] == r[j - 1];
      } else {
        assert out[i] == r[i - 1] && out[j] == r[j - 1];
      }
    }
  }

  /** SortBy puts the rows in order; with its own ensures, the output is a sorted permutation of the input. */
  lemma {:induction false} SortBySorted<T(!new)>(s: seq<T>, before: (T, T) -> bool)
    requires TotalPreorder(before)
    ensures Sorted(SortBy(s, before), before)
  {
    if s != [] {
      SortBySorted(s[1..], before);
      InsertSorted(s[0], SortBy(s[1..], before), before);
    }
  }

  /** A row is in the output exactly when it is in the input. */
  lemma SortByMembers<T>(s: seq<T>, before: (T, T) -> bool, x: T)
    ensures x in SortBy(s, before) <==> x in s
  {
    assert x in SortBy(s, before) <==> x in multiset(SortBy(s, before));
    assert x in s <==> x in multiset(s);
  }

  /** No value occurs twice. */
  predicate Distinct<T(==)>(s: seq<T>) {
    forall i, j :: 0 <= i < j < |s| ==> s[i] != s[j]
  }

  /** Sorting rows that are pairwise different keeps them pairwise different. */
  lemma {:induction false} SortByDistinct<T>(s: seq<T>, before: (T, T) -> bool)
    requires Distinct(s)
    ensures Distinct(SortBy(s, before))
  {
    if s != [] {
      SortByDistinct(s[1..], before);
      SortByMembers(s[1..], before, s[0]);
      assert s[0] !in s[1..] by {
        forall k | 0 <= k < |s[1..]| ensures s[1..][k] != s[0] {
          assert s[1..][k] == s[k + 1];
        }
      }
      InsertDistinct(s[0], SortBy(s[1..], before), before);
    }
  }

  lemma {:induction false} InsertDistinct<T>(x: T, s: seq<T>, before: (T, T) -> bool)
    requires Distinct(s) && x !in s
    ensures Distinct(Insert(x, s, before))
  {
    if s != [] && !before(x, s[0]) {
      InsertDistinct(x, s[1..], before);
      var r := Insert(x, s[1..], before);
      assert s[0] !in r by {
        assert s[0] !in s[1..] by {
          forall k | 0 <= k < |s[1..]| ensures s[1..][k] != s[0] {
            assert s[1..][k] == s[k + 1];
          }
        }
        assert multiset(r) == multiset(s[1..]) + multiset{x};
        assert s[0] !in multiset(r);
      }
      var out := [s[0]] + r;
      forall i, j | 0 <= i < j < |out| ensures out[i] != out[j] {
        if i == 0 {
          assert out[j] == r[j - 1];
        } else {
          assert out[i] == r[i - 1] && out[j] == r[j - 1];
        }
      }
    }
  }
}
