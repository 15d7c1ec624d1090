/**
 * `SELECT key, SUM(amount) ... GROUP BY key`: the grouped sums that the
 * summary breakdown and both report charts are built from. Rows enter as
 * (key, amount) pairs; the result has one (key, sum) pair per distinct key.
 */
module Aggregates {
  import opened Sorting

  /** `SUM(amount)` over the rows; 0 when there are none. */
  function Total(ps: seq<(string, real)>): real {
    if ps == [] then 0.0 else ps[0].1 + Total(ps[1..])
  }

  /** `SUM(amount) ... WHERE key = k`: the sum over the rows with key `k`; 0 when there are none. */
  function KeySum(ps: seq<(string, real)>, k: string): real {
    if ps == [] then 0.0 else (if ps[0].0 == k then ps[0].1 else 0.0) + KeySum(ps[1..], k)
  }

  /** The keys that occur among the rows. */
  function KeySet(ps: seq<(string, real)>): set<string> {
    set i | 0 <= i < |ps| :: ps[i].0
  }

  /** No key appears twice: one output row per group. */
  predicate KeysDistinct(g: seq<(string, real)>) {
    forall i, j :: 0 <= i < j < |g| ==> g[i].0 != g[j].0
  }

  /** Adds `a` to the running sum of group `k`, opening the group if it is new. */
  function AddTo(g: seq<(string, real)>, k: string, a: real): (r: seq<(string, real)>)
    requires KeysDistinct(g)
    ensures KeysDistinct(r)
    ensures KeySet(r) == KeySet(g) + {k}
    ensures Total(r) == Total(g) + a
    ensures forall k' :: KeySum(r, k') == KeySum(g, k') + (if k' == k then a else 0.0)
  {
    if g == [] then
      KeySetCons((k, a), []);
      assert [(k, a)] + [] == [(k, a)];
      [(k, a)]
    else if g[0].0 == k then
      NotInKeySum(g[1..], k);
      KeySetCons(g[0], g[1..]);
      assert g == [g[0]] + g[1..];
      KeySetCons((k, g[0].1 + a), g[1..]);
      [(k, g[0].1 + a)] + g[1..]
    else
      var rest := AddTo(g[1..], k, a);
      var r := [g[0]] + rest;
      assert r[1..] == rest;
      KeySetCons(g[0], g[1..]);
      assert g == [g[0]] + g[1..];
      KeySetCons(g[0], rest);
      assert g[0].0 !in KeySet(g[1..]) by {
        forall j | 0 <= j < |g[1..]| ensures g[1..][j].0 != g[0].0 {
          assert g[1..][j] == g[j + 1];
        }
      }
      DistinctCons(g[0], rest);
      r
  }

  /** A key that never occurs sums to 0. */
  lemma {:induction false} NotInKeySum(ps: seq<(string, real)>, k: string)
    requires k !in KeySet(ps)
    ensures KeySum(ps, k) == 0.0
  {
    if ps != [] {
      KeySetCons(ps[0], ps[1..]);
      assert ps == [ps[0]] + ps[1..];
      NotInKeySum(ps[1..], k);
    }
  }

  /**
   * GROUP BY key with SUM(amount): one entry per distinct key, the keys
   * being exactly those of the rows, each group's sum that of its rows, and
   * the sums adding up to the total of all rows.
   */
  function GroupSums(ps: seq<(string, real)>): (g: seq<(string, real)>)
    ensures KeysDistinct(g)
    ensures KeySet(g) == KeySet(ps)
    ensures Total(g) == Total(ps)
    ensures forall k :: KeySum(g, k) == KeySum(ps, k)
  {
    if ps == [] then []
    else
      KeySetCons(ps[0], ps[1..]);
      assert ps == [ps[0]] + ps[1..];
      AddTo(GroupSums(ps[1..]), ps[0].0, ps[0].1)
  }

  /** In a table with distinct keys, an entry's value is the sum for its key. */
  lemma {:induction false} DistinctEntry(g: seq<(string, real)>, i: int)
    requires KeysDistinct(g) && 0 <= i < |g|
    ensures KeySum(g, g[i].0) == g[i].1
  {
    if i == 0 {
      forall j | 0 <= j < |g[1..]| ensures g[1..][j].0 != g[0].0 {
        assert g[1..][j] == g[j + 1];
      }
      NotInKeySum(g[1..], g[0].0);
    } else {
      DistinctEntry(g[1..], i - 1);
    }
  }

  /** Each group's entry holds the sum of the amounts of exactly the rows with its key. */
  lemma GroupEntry(ps: seq<(string, real)>, i: int)
    requires 0 <= i < |GroupSums(ps)|
    ensures GroupSums(ps)[i].1 == KeySum(ps, GroupSums(ps)[i].0)
  {
    DistinctEntry(GroupSums(ps), i);
  }

  /** Sorting a table does not change its total. */
  lemma {:induction false} TotalSortBy(g: seq<(string, real)>, before: ((string, real), (string, real)) -> bool)
    ensures Total(SortBy(g, before)) == Total(g)
  {
    if g != [] {
      TotalSortBy(g[1..], before);
      TotalInsert(g[0], SortBy(g[1..], before), before);
    }
  }

  lemma {:induction false} TotalInsert(x: (string, real), s: seq<(string, real)>, before: ((string, real), (string, real)) -> bool)
    ensures Total(Insert(x, s, before)) == x.1 + Total(s)
  {
    if s != [] && !before(x, s[0]) {
      TotalInsert(x, s[1..], before);
    }
  }

  /** Sorting a table with distinct keys keeps them distinct. */
  lemma {:induction false} KeysDistinctSortBy(g: seq<(string, real)>, before: ((string, real), (string, real)) -> bool)
    requires KeysDistinct(g)
    ensures KeysDistinct(SortBy(g, before))
    ensures KeySet(SortBy(g, before)) == KeySet(g)
  {
    if g != [] {
      KeysDistinctSortBy(g[1..], before);
      KeySetCons(g[0], g[1..]);
      assert g == [g[0]] + g[1..];
      InsertKeys(g[0], SortBy(g[1..], before), before);
    }
  }

  lemma {:induction false} InsertKeys(x: (string, real), s: seq<(string, real)>, before: ((string, real), (string, real)) -> bool)
    requires KeysDistinct(s) && x.0 !in KeySet(s)
    ensures KeysDistinct(Insert(x, s, before))
    ensures KeySet(Insert(x, s, before)) == KeySet(s) + {x.0}
  {
    if s == [] {
    } else if before(x, s[0]) {
      KeySetCons(x, s);
    } else {
      KeySetCons(s[0], s[1..]);
      assert s == [s[0]] + s[1..];
      InsertKeys(x, s[1..], before);
      var r := Insert(x, s[1..], before);
      KeySetCons(s[0], r);
      assert s[0].0 !in KeySet(s[1..]) by {
        forall j | 0 <= j < |s[1..]| ensures s[1..][j].0 != s[0].0 {
          assert s[1..][j] == s[j + 1];
        }
      }
      DistinctCons(s[0], r);
    }
  }

  /** Putting an entry with a new key in front keeps the keys distinct. */
  lemma DistinctCons(x: (string, real), s: seq<(string, real)>)
    requires KeysDistinct(s) && x.0 !in KeySet(s)
    ensures KeysDistinct([x] + s)
  {
    var out := [x] + s;
    forall i, j | 0 <= i < j < |out| ensures out[i].0 != out[j].0 {
      if i == 0 {
        assert out[j] == s[j - 1];
      } else {
        assert out[i] == s[i - 1] && out[j] == s[j - 1];
      }
    }
  }

  lemma KeySetCons(x: (string, real), s: seq<(string, real)>)
    ensures KeySet([x] + s) == {x.0} + KeySet(s)
  {
    var t := [x] + s;
    forall k | k in KeySet(t) ensures k in {x.0} + KeySet(s) {
      var i :| 0 <= i < |t| && t[i].0 == k;
      if i > 0 { assert t[i] == s[i - 1]; }
    }
    forall k | k in KeySet(s) ensures k in KeySet(t) {
      var i :| 0 <= i < |s| && s[i].0 == k;
      assert t[i + 1] == s[i];
    }
    assert t[0] == x;
  }
}
