/**
 * The aggregations behind `ReportGenerator.generate_category_pie_chart`
 * and `generate_monthly_bar_chart`; drawing and saving the charts is not
 * modelled. Each returns None, the "no data" outcome, when the query
 * returns no rows.
 */
module Reports {
  import opened Wrappers
  import opened Text
  import opened Sorting
  import opened Calendar
  import opened Aggregates
  import opened Expenses

  /**
   * Per-category sums over the whole ledger, largest first; None when the
   * ledger is empty.
   */
  function CategoryTotals(rows: seq<Expense>): (r: Option<seq<(string, real)>>)
    ensures r.None? <==> rows == []
    ensures r.Some? ==> KeysDistinct(r.value) && KeySet(r.value) == KeySet(ByCategory(rows))
    ensures r.Some? ==> Total(r.value) == Spent(rows) && Sorted(r.value, LargestFirst)
    ensures r.Some? ==> forall c :: KeySum(r.value, c) == KeySum(ByCategory(rows), c)
  {
    var results := Breakdown(rows);
    if results == [] then None else Some(results)
  }

  /**
   * The pie chart's data holds the same entries as the breakdown an
   * unrecognised summary period gives, which covers every row; both are
   * ordered by total descending, and only the order of tied totals,
   * which each query breaks on its own, may differ.
   */
  lemma CategoryTotalsAreAllTimeBreakdown(rows: seq<Expense>, today: Date)
    requires ValidDate(today) && rows != []
    ensures CategoryTotals(rows).Some?
    ensures multiset(CategoryTotals(rows).value) == multiset(ExpenseSummary(rows, "all", today).categoryBreakdown)
  {
    WindowRowsAll(rows);
  }

  lemma {:induction false} WindowRowsAll(rows: seq<Expense>)
    ensures WindowRows(rows, None) == rows
  {
    if rows != [] {
      WindowRowsAll(rows[1..]);
    }
  }

  /**
   * SQLite's `strftime('%Y-%m', date)`: the year and month of a canonical
   * date string; "" stands for the NULL it gives for a string it cannot
   * parse as a date. Other forms its date parser accepts are not modelled.
   */
  function MonthKey(date: string): (k: string)
    ensures IsCanonical(date) ==> |k| == 7 && k == Format(Parse(date).value)[..7]
  {
    if IsCanonical(date) then
      FormatParse(date);
      date[..7]
    else ""
  }

  /** Month keys of canonical dates sort in calendar order. */
  lemma MonthKeyChronological(a: string, b: string)
    requires IsCanonical(a) && IsCanonical(b)
    ensures var da, db := Parse(a).value, Parse(b).value;
            Compare(MonthKey(a), MonthKey(b)) <= 0 <==>
              da.year < db.year || (da.year == db.year && da.month <= db.month)
  {
    MonthPrefixOrder(Parse(a).value, Parse(b).value);
  }

  /** The rows as (month, amount) pairs, the input of `GROUP BY strftime('%Y-%m', date)`. */
  function ByMonth(rows: seq<Expense>): (ps: seq<(string, real)>)
    ensures |ps| == |rows|
    ensures forall i :: 0 <= i < |rows| ==> ps[i] == (MonthKey(rows[i].date), rows[i].amount)
  {
    if rows == [] then [] else [(MonthKey(rows[0].date), rows[0].amount)] + ByMonth(rows[1..])
  }

  lemma {:induction false} ByMonthTotal(rows: seq<Expense>)
    ensures Total(ByMonth(rows)) == Spent(rows)
  {
    if rows != [] {
      ByMonthTotal(rows[1..]);
    }
  }

  /** `ORDER BY month`. */
  const EarliestMonthFirst := (a: (string, real), b: (string, real)) => Compare(a.0, b.0) <= 0

  lemma EarliestMonthFirstIsPreorder()
    ensures TotalPreorder(EarliestMonthFirst)
  {
    forall a: (string, real), b: (string, real) ensures EarliestMonthFirst(a, b) || EarliestMonthFirst(b, a) {
      CompareFlip(a.0, b.0);
    }
    forall a: (string, real), b: (string, real), c: (string, real) | EarliestMonthFirst(a, b) && EarliestMonthFirst(b, c)
      ensures EarliestMonthFirst(a, c)
    {
      CompareTransitive(a.0, b.0, c.0);
    }
  }

  /**
   * Per-month sums over the whole ledger, one entry per month, months in
   * strictly ascending order, each holding the sum of that month's rows;
   * None when the ledger is empty.
   */
  function MonthlyTotals(rows: seq<Expense>): (r: Option<seq<(string, real)>>)
    ensures r.None? <==> rows == []
    ensures r.Some? ==> KeysDistinct(r.value) && KeySet(r.value) == KeySet(ByMonth(rows))
    ensures r.Some? ==> Total(r.value) == Spent(rows)
    ensures r.Some? ==> forall i, j :: 0 <= i < j < |r.value| ==> Compare(r.value[i].0, r.value[j].0) < 0
    ensures r.Some? ==> forall m :: KeySum(r.value, m) == KeySum(ByMonth(rows), m)
  {
    var g := GroupSums(ByMonth(rows));
    var results := SortBy(g, EarliestMonthFirst);
    KeysDistinctSortBy(g, EarliestMonthFirst);
    TotalSortBy(g, EarliestMonthFirst);
    ByMonthTotal(rows);
    KeySumSortBy(g, EarliestMonthFirst);
    EarliestMonthFirstIsPreorder();
    SortBySorted(g, EarliestMonthFirst);
    assert rows != [] ==> MonthKey(rows[0].date) in KeySet(ByMonth(rows));
    assert rows == [] ==> KeySet(ByMonth(rows)) == {};
    if results == [] then None else Some(results)
  }
}
