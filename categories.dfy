/**
 * The `categories` table: names under a UNIQUE constraint, seeded with
 * seven defaults by `DatabaseManager.init_database` through
 * `INSERT OR IGNORE`, listed by `CategoryManager.get_categories` with
 * `ORDER BY name`.
 */
module Categories {
  import opened Text
  import opened Sorting

  /** The names `init_database` inserts. */
  const DefaultCategories := ["Food", "Travel", "Rent", "Shopping", "Utilities", "Healthcare", "Entertainment"]

  /** `INSERT OR IGNORE INTO categories (name)`: a name already present is skipped. */
  function InsertOrIgnore(names: seq<string>, name: string): (r: seq<string>)
    ensures Distinct(names) ==> Distinct(r)
    ensures name in r
    ensures forall n :: n in r <==> n in names || n == name
    ensures |names| <= |r| <= |names| + 1 && r[..|names|] == names
  {
    if name in names then names else names + [name]
  }

  /** The table after the seeding loop has inserted (or ignored) each of `defaults` in turn. */
  function Seeded(names: seq<string>, defaults: seq<string>): seq<string> {
    if defaults == [] then names
    else InsertOrIgnore(Seeded(names, defaults[..|defaults| - 1]), defaults[|defaults| - 1])
  }

  /**
   * Seeding keeps the names unique, keeps the existing rows in place and
   * adds nothing but defaults, after which every default is present.
   */
  lemma {:induction false} SeededContents(names: seq<string>, defaults: seq<string>)
    requires Distinct(names)
    ensures Distinct(Seeded(names, defaults))
    ensures forall d :: d in defaults ==> d in Seeded(names, defaults)
    ensures forall n :: n in Seeded(names, defaults) <==> n in names || n in defaults
    ensures |Seeded(names, defaults)| >= |names| && Seeded(names, defaults)[..|names|] == names
  {
    if defaults != [] {
      var init := defaults[..|defaults| - 1];
      SeededContents(names, init);
      assert defaults == init + [defaults[|defaults| - 1]];
      var before := Seeded(names, init);
      assert before[..|names|] == names;
      var after := InsertOrIgnore(before, defaults[|defaults| - 1]);
      assert after[..|before|] == before;
      assert after[..|names|] == before[..|names|];
    }
  }

  /** When every default is already present, seeding changes nothing. */
  lemma {:induction false} SeededNoop(names: seq<string>, defaults: seq<string>)
    requires forall d :: d in defaults ==> d in names
    ensures Seeded(names, defaults) == names
  {
    if defaults != [] {
      var init := defaults[..|defaults| - 1];
      assert forall d :: d in init ==> d in defaults;
      SeededNoop(names, init);
    }
  }

  /** Running `init_database` twice leaves the same table as running it once. */
  lemma SeededIdempotent(names: seq<string>, defaults: seq<string>)
    requires Distinct(names)
    ensures Seeded(Seeded(names, defaults), defaults) == Seeded(names, defaults)
  {
    SeededContents(names, defaults);
    SeededNoop(Seeded(names, defaults), defaults);
  }

  /** Seeding an empty table with pairwise different names stores exactly those names, in order. */
  lemma {:induction false} SeededFresh(defaults: seq<string>)
    requires Distinct(defaults)
    ensures Seeded([], defaults) == defaults
  {
    if defaults != [] {
      var init := defaults[..|defaults| - 1];
      DistinctSplit(defaults);
      SeededFresh(init);
      SplitLast(defaults);
    }
  }

  lemma SplitLast(s: seq<string>)
    requires s != []
    ensures s == s[..|s| - 1] + [s[|s| - 1]]
  {
  }

  /** Dropping the last of some pairwise different names leaves them pairwise different and without it. */
  lemma DistinctSplit(s: seq<string>)
    requires Distinct(s) && s != []
    ensures Distinct(s[..|s| - 1])
    ensures s[|s| - 1] !in s[..|s| - 1]
  {
    var init := s[..|s| - 1];
    forall i, j | 0 <= i < j < |init| ensures init[i] != init[j] {
      assert init[i] == s[i] && init[j] == s[j];
    }
    forall k | 0 <= k < |init| ensures init[k] != s[|s| - 1] {
      assert init[k] == s[k];
    }
  }

  /** The seven defaults are pairwise different. */
  lemma DefaultsDistinct()
    ensures Distinct(DefaultCategories)
  {
  }

  /** A name occurs exactly once in a table whose names are unique. */
  lemma {:induction false} DistinctOccursOnce(names: seq<string>, name: string)
    requires Distinct(names) && name in names
    ensures multiset(names)[name] == 1
  {
    assert names == [names[0]] + names[1..];
    assert names[0] !in names[1..] by {
      forall k | 0 <= k < |names[1..]| ensures names[1..][k] != names[0] {
        assert names[1..][k] == names[k + 1];
      }
    }
    if names[0] != name {
      DistinctOccursOnce(names[1..], name);
    }
  }

  /** `ORDER BY name`. */
  const ByName := (a: string, b: string) => Compare(a, b) <= 0

  lemma ByNameIsPreorder()
    ensures TotalPreorder(ByName)
  {
    forall a: string, b: string ensures ByName(a, b) || ByName(b, a) {
      CompareFlip(a, b);
    }
    forall a: string, b: string, c: string | ByName(a, b) && ByName(b, c) ensures ByName(a, c) {
      CompareTransitive(a, b, c);
    }
  }

  /** `get_categories`: every stored name once, in ascending order. */
  function ListCategories(names: seq<string>): (r: seq<string>)
    requires Distinct(names)
    ensures forall n :: n in r <==> n in names
    ensures |r| == |names|
    ensures Distinct(r)
    ensures forall i, j :: 0 <= i < j < |r| ==> Compare(r[i], r[j]) < 0
  {
    var r := SortBy(names, ByName);
    ByNameIsPreorder();
    SortBySorted(names, ByName);
    SortByDistinct(names, ByName);
    assert forall n :: n in r <==> n in names by {
      forall n ensures n in r <==> n in names { SortByMembers(names, ByName, n); }
    }
    r
  }
}
