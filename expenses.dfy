/**
 * The ledger: rows of the `expenses` table, the filtered search that
 * `ExpenseManager.get_expenses` assembles as a parameterised SQL query, and
 * the period summary of `ExpenseManager.get_expense_summary`.
 */
module Expenses {
  import opened Wrappers
  import opened Text
  import opened Sorting
  import opened Calendar
  import opened Aggregates

  /** One row of the `expenses` table; `created_at` is left out. */
  datatype Expense = Expense(id: int, date: string, category: string, amount: real, description: string)

  /** Sum of the amounts of the rows: `SUM(amount)`, 0 when there are none. */
  function Spent(rows: seq<Expense>): real {
    if rows == [] then 0.0 else rows[0].amount + Spent(rows[1..])
  }

  /** The rows as (category, amount) pairs, the input of `GROUP BY category`. */
  function ByCategory(rows: seq<Expense>): (ps: seq<(string, real)>)
    ensures |ps| == |rows|
    ensures forall i :: 0 <= i < |rows| ==> ps[i] == (rows[i].category, rows[i].amount)
  {
    if rows == [] then [] else [(rows[0].category, rows[0].amount)] + ByCategory(rows[1..])
  }

  /** Grouping by category loses no amount: the pairs add up to the rows' sum. */
  lemma {:induction false} ByCategoryTotal(rows: seq<Expense>)
    ensures Total(ByCategory(rows)) == Spent(rows)
  {
    if rows != [] {
      ByCategoryTotal(rows[1..]);
    }
  }

  /** `ORDER BY date DESC`: a row may come first when its date string is not smaller. */
  const NewestFirst := (a: Expense, b: Expense) => Compare(a.date, b.date) >= 0

  /** `ORDER BY total DESC` on (category, sum) pairs. */
  const LargestFirst := (a: (string, real), b: (string, real)) => a.1 >= b.1

  lemma NewestFirstIsPreorder()
    ensures TotalPreorder(NewestFirst)
  {
    forall a: Expense, b: Expense ensures NewestFirst(a, b) || NewestFirst(b, a) {
      CompareFlip(a.date, b.date);
    }
    forall a: Expense, b: Expense, c: Expense | NewestFirst(a, b) && NewestFirst(b, c)
      ensures NewestFirst(a, c)
    {
      CompareFlip(a.date, b.date);
      CompareFlip(b.date, c.date);
      CompareFlip(a.date, c.date);
      CompareTransitive(c.date, b.date, a.date);
    }
  }

  lemma LargestFirstIsPreorder()
    ensures TotalPreorder(LargestFirst)
  {
  }

  // ---------------------------------------------------------------------
  // Filtered search

  /** The optional search arguments of `get_expenses`; None is Python's `None`. */
  datatype Filters = Filters(
    startDate: Option<string>,
    endDate: Option<string>,
    category: Option<string>,
    minAmount: Option<real>,
    maxAmount: Option<real>,
    keyword: Option<string>)

  const NoFilters := Filters(None, None, None, None, None, None)

  /** Python truthiness of an optional string (`if x:`): both None and "" are false. */
  predicate Given(o: Option<string>) {
    o.Some? && o.value != ""
  }

  /**
   * What the search means, stated directly: every supplied filter holds.
   * Dates compare as text, inclusively; the category matches exactly; the
   * amount range is inclusive and tested with `is not None`, so 0 is a
   * bound; the keyword must occur in the description.
   */
  predicate Matches(f: Filters, e: Expense) {
    (Given(f.startDate) ==> Compare(e.date, f.startDate.value) >= 0) &&
    (Given(f.endDate) ==> Compare(e.date, f.endDate.value) <= 0) &&
    (Given(f.category) ==> e.category == f.category.value) &&
    (f.minAmount.Some? ==> e.amount >= f.minAmount.value) &&
    (f.maxAmount.Some? ==> e.amount <= f.maxAmount.value) &&
    (Given(f.keyword) ==> Contains(e.description, f.keyword.value))
  }

  /** The stored rows that match, in stored order. */
  function MatchingRows(rows: seq<Expense>, f: Filters): (r: seq<Expense>)
    ensures forall e :: e in r <==> e in rows && Matches(f, e)
  {
    if rows == [] then []
    else (if Matches(f, rows[0]) then [rows[0]] else []) + MatchingRows(rows[1..], f)
  }

  /** A matching row is kept as often as it is stored; any other row is dropped. */
  lemma {:induction false} MatchingRowsCount(rows: seq<Expense>, f: Filters, e: Expense)
    ensures multiset(MatchingRows(rows, f))[e] == if Matches(f, e) then multiset(rows)[e] else 0
  {
    if rows != [] {
      MatchingRowsCount(rows[1..], f, e);
      assert rows == [rows[0]] + rows[1..];
    }
  }

  /** SQL text as tokens: fixed text, or a `?` placeholder that binds the next parameter. */
  datatype Token = Sql(text: string) | Placeholder

  /** The conditions `get_expenses` may add to its WHERE clause, in the order it tests for them. */
  datatype Condition = DateFrom | DateTo | CategoryIs | AmountAtLeast | AmountAtMost | DescriptionLike

  /** A bound query parameter. */
  datatype Param = TextParam(s: string) | RealParam(r: real)

  function Rank(c: Condition): int {
    match c
    case DateFrom => 0
    case DateTo => 1
    case CategoryIs => 2
    case AmountAtLeast => 3
    case AmountAtMost => 4
    case DescriptionLike => 5
  }

  /** Each condition at most once, in the order the source tests for them. */
  predicate InSourceOrder(conds: seq<Condition>) {
    forall i, j :: 0 <= i < j < |conds| ==> Rank(conds[i]) < Rank(conds[j])
  }

  predicate RanksBelow(conds: seq<Condition>, k: int) {
    forall i :: 0 <= i < |conds| ==> Rank(conds[i]) < k
  }

  /** The text each condition appends to the query. */
  function ConditionSql(c: Condition): seq<Token> {
    match c
    case DateFrom => [Sql(" AND date >= "), Placeholder]
    case DateTo => [Sql(" AND date <= "), Placeholder]
    case CategoryIs => [Sql(" AND category = "), Placeholder]
    case AmountAtLeast => [Sql(" AND amount >= "), Placeholder]
    case AmountAtMost => [Sql(" AND amount <= "), Placeholder]
    case DescriptionLike => [Sql(" AND description LIKE "), Placeholder]
  }

  const SelectSql := [Sql("SELECT id, date, category, amount, description FROM expenses WHERE 1=1")]
  const OrderSql := [Sql(" ORDER BY date DESC")]

  function WhereSql(conds: seq<Condition>): seq<Token> {
    if conds == [] then [] else WhereSql(conds[..|conds| - 1]) + ConditionSql(conds[|conds| - 1])
  }

  /** The complete statement text for a list of conditions. */
  function QueryText(conds: seq<Condition>): seq<Token> {
    SelectSql + WhereSql(conds) + OrderSql
  }

  function Placeholders(q: seq<Token>): nat {
    if q == [] then 0 else (if q[0] == Placeholder then 1 else 0) + Placeholders(q[1..])
  }

  lemma {:induction false} PlaceholdersAppend(a: seq<Token>, b: seq<Token>)
    ensures Placeholders(a + b) == Placeholders(a) + Placeholders(b)
  {
    if a == [] {
      assert a + b == b;
    } else {
      assert (a + b)[0] == a[0];
      assert (a + b)[1..] == a[1..] + b;
      PlaceholdersAppend(a[1..], b);
    }
  }

  /** Each condition carries exactly one placeholder, so the statement has one per condition. */
  lemma {:induction false} QueryPlaceholders(conds: seq<Condition>)
    ensures Placeholders(WhereSql(conds)) == |conds|
    ensures Placeholders(QueryText(conds)) == |conds|
  {
    if conds != [] {
      var c := conds[|conds| - 1];
      QueryPlaceholders(conds[..|conds| - 1]);
      PlaceholdersAppend(WhereSql(conds[..|conds| - 1]), ConditionSql(c));
      assert Placeholders(ConditionSql(c)) == 1 by {
        assert ConditionSql(c)[1..][1..] == [];
      }
    }
    PlaceholdersAppend(SelectSql, WhereSql(conds));
    PlaceholdersAppend(SelectSql + WhereSql(conds), OrderSql);
  }

  /**
   * `description LIKE p` for the one pattern shape the search builds,
   * `%k%`: the description contains `k`. Matching is exact (see README).
   */
  predicate Like(s: string, p: string) {
    |p| >= 2 && p[0] == '%' && p[|p| - 1] == '%' && Contains(s, p[1..|p| - 1])
  }

  /** The pattern the search binds for a keyword, `%keyword%`, matches exactly the descriptions containing it. */
  lemma LikeKeyword(s: string, k: string)
    ensures Like(s, "%" + k + "%") <==> Contains(s, k)
  {
    var p := "%" + k + "%";
    assert p[1..|p| - 1] == k;
  }

  /** What the store does with one condition and its bound parameter for a row. */
  predicate Holds(c: Condition, p: Param, e: Expense) {
    match (c, p)
    case (DateFrom, TextParam(s)) => Compare(e.date, s) >= 0
    case (DateTo, TextParam(s)) => Compare(e.date, s) <= 0
    case (CategoryIs, TextParam(s)) => e.category == s
    case (AmountAtLeast, RealParam(r)) => e.amount >= r
    case (AmountAtMost, RealParam(r)) => e.amount <= r
    case (DescriptionLike, TextParam(s)) => Like(e.description, s)
    case _ => false
  }

  /** The WHERE clause holds of a row: each condition, with the parameter in its position. */
  predicate Satisfies(conds: seq<Condition>, params: seq<Param>, e: Expense)
    requires |conds| == |params|
  {
    forall i :: 0 <= i < |conds| ==> Holds(conds[i], params[i], e)
  }

  /**
   * Builds the WHERE conditions and parameter list of `get_expenses`,
   * one `if` per filter as the source does. The statement has one
   * placeholder per parameter, the conditions come in the source's order
   * at most once each, and the built query selects exactly the rows the
   * filters describe.
   */
  method BuildQuery(f: Filters) returns (conds: seq<Condition>, params: seq<Param>)
    ensures |conds| == |params|
    ensures Placeholders(QueryText(conds)) == |params|
    ensures InSourceOrder(conds)
    ensures SelectsExactly(conds, params, f)
  {
    conds, params := [], [];
    ghost var g := NoFilters;
    assert Built(conds, params, g, 0);
    StepStartDate(conds, params, g, f);
    if Given(f.startDate) {
      conds, params := conds + [DateFrom], params + [TextParam(f.startDate.value)];
    }
    g := g.(startDate := f.startDate);
    StepEndDate(conds, params, g, f);
    if Given(f.endDate) {
      conds, params := conds + [DateTo], params + [TextParam(f.endDate.value)];
    }
    g := g.(endDate := f.endDate);
    StepCategory(conds, params, g, f);
    if Given(f.category) {
      conds, params := conds + [CategoryIs], params + [TextParam(f.category.value)];
    }
    g := g.(category := f.category);
    StepMinAmount(conds, params, g, f);
    if f.minAmount.Some? {
      conds, params := conds + [AmountAtLeast], params + [RealParam(f.minAmount.value)];
    }
    g := g.(minAmount := f.minAmount);
    StepMaxAmount(conds, params, g, f);
    if f.maxAmount.Some? {
      conds, params := conds + [AmountAtMost], params + [RealParam(f.maxAmount.value)];
    }
    g := g.(maxAmount := f.maxAmount);
    StepKeyword(conds, params, g, f);
    if Given(f.keyword) {
      conds, params := conds + [DescriptionLike], params + [TextParam("%" + f.keyword.value + "%")];
    }
    g := g.(keyword := f.keyword);
    assert g == f;
    QueryPlaceholders(conds);
  }

  /** The WHERE clause built so far selects exactly the rows the filters `g` describe. */
  ghost predicate SelectsExactly(conds: seq<Condition>, params: seq<Param>, g: Filters)
    requires |conds| == |params|
  {
    forall e :: Satisfies(conds, params, e) <==> Matches(g, e)
  }

  /** The state after the first `k` steps: the query means the filters `g` and its conditions rank below `k`, in order. */
  ghost predicate Built(conds: seq<Condition>, params: seq<Param>, g: Filters, k: int) {
    |conds| == |params| && SelectsExactly(conds, params, g) && InSourceOrder(conds) && RanksBelow(conds, k)
  }

  // One step of the builder per filter: the clause it appends, if any, keeps the query meaning the filters seen so far.

  lemma StepStartDate(conds: seq<Condition>, params: seq<Param>, g: Filters, f: Filters)
    requires Built(conds, params, g, 0) && g.startDate.None?
    ensures Given(f.startDate) ==> Built(conds + [DateFrom], params + [TextParam(f.startDate.value)], g.(startDate := f.startDate), 1)
    ensures !(Given(f.startDate)) ==> Built(conds, params, g.(startDate := f.startDate), 1)
  {
    if Given(f.startDate) {
      Extend(conds, params, g, g.(startDate := f.startDate), DateFrom, TextParam(f.startDate.value));
    } else {
      Keep(conds, params, g, g.(startDate := f.startDate));
    }
  }

  lemma StepEndDate(conds: seq<Condition>, params: seq<Param>, g: Filters, f: Filters)
    requires Built(conds, params, g, 1) && g.endDate.None?
    ensures Given(f.endDate) ==> Built(conds + [DateTo], params + [TextParam(f.endDate.value)], g.(endDate := f.endDate), 2)
    ensures !(Given(f.endDate)) ==> Built(conds, params, g.(endDate := f.endDate), 2)
  {
    if Given(f.endDate) {
      Extend(conds, params, g, g.(endDate := f.endDate), DateTo, TextParam(f.endDate.value));
    } else {
      Keep(conds, params, g, g.(endDate := f.endDate));
    }
  }

  lemma StepCategory(conds: seq<Condition>, params: seq<Param>, g: Filters, f: Filters)
    requires Built(conds, params, g, 2) && g.category.None?
    ensures Given(f.category) ==> Built(conds + [CategoryIs], params + [TextParam(f.category.value)], g.(category := f.category), 3)
    ensures !(Given(f.category)) ==> Built(conds, params, g.(category := f.category), 3)
  {
    if Given(f.category) {
      Extend(conds, params, g, g.(category := f.category), CategoryIs, TextParam(f.category.value));
    } else {
      Keep(conds, params, g, g.(category := f.category));
    }
  }

  lemma StepMinAmount(conds: seq<Condition>, params: seq<Param>, g: Filters, f: Filters)
    requires Built(conds, params, g, 3) && g.minAmount.None?
    ensures f.minAmount.Some? ==> Built(conds + [AmountAtLeast], params + [RealParam(f.minAmount.value)], g.(minAmount := f.minAmount), 4)
    ensures !(f.minAmount.Some?) ==> Built(conds, params, g.(minAmount := f.minAmount), 4)
  {
    if f.minAmount.Some? {
      Extend(conds, params, g, g.(minAmount := f.minAmount), AmountAtLeast, RealParam(f.minAmount.value));
    } else {
      Keep(conds, params, g, g.(minAmount := f.minAmount));
    }
  }

  lemma StepMaxAmount(conds: seq<Condition>, params: seq<Param>, g: Filters, f: Filters)
    requires Built(conds, params, g, 4) && g.maxAmount.None?
    ensures f.maxAmount.Some? ==> Built(conds + [AmountAtMost], params + [RealParam(f.maxAmount.value)], g.(maxAmount := f.maxAmount), 5)
    ensures !(f.maxAmount.Some?) ==> Built(conds, params, g.(maxAmount := f.maxAmount), 5)
  {
    if f.maxAmount.Some? {
      Extend(conds, params, g, g.(maxAmount := f.maxAmount), AmountAtMost, RealParam(f.maxAmount.value));
    } else {
      Keep(conds, params, g, g.(maxAmount := f.maxAmount));
    }
  }

  lemma StepKeyword(conds: seq<Condition>, params: seq<Param>, g: Filters, f: Filters)
    requires Built(conds, params, g, 5) && g.keyword.None?
    ensures Given(f.keyword) ==> Built(conds + [DescriptionLike], params + [TextParam("%" + f.keyword.value + "%")], g.(keyword := f.keyword), 6)
    ensures !(Given(f.keyword)) ==> Built(conds, params, g.(keyword := f.keyword), 6)
  {
    if Given(f.keyword) {
      var pattern := "%" + f.keyword.value + "%";
      assert pattern[1..|pattern| - 1] == f.keyword.value;
      Extend(conds, params, g, g.(keyword := f.keyword), DescriptionLike, TextParam("%" + f.keyword.value + "%"));
    } else {
      Keep(conds, params, g, g.(keyword := f.keyword));
    }
  }

  /** A filter that is absent (or falsy) changes nothing. */
  lemma Keep(conds: seq<Condition>, params: seq<Param>, g: Filters, g2: Filters)
    requires |conds| == |params| && SelectsExactly(conds, params, g)
    requires forall e :: Matches(g2, e) <==> Matches(g, e)
    ensures SelectsExactly(conds, params, g2)
  {
  }

  /** A filter that is present adds its condition. */
  lemma Extend(conds: seq<Condition>, params: seq<Param>, g: Filters, g2: Filters, c: Condition, p: Param)
    requires |conds| == |params| && SelectsExactly(conds, params, g)
    requires forall e :: Matches(g2, e) <==> Matches(g, e) && Holds(c, p, e)
    ensures SelectsExactly(conds + [c], params + [p], g2)
  {
    SatisfiesSnoc(conds, params, c, p);
  }

  /** Appending a condition and its parameter adds that condition to the conjunction. */
  lemma SatisfiesSnoc(conds: seq<Condition>, params: seq<Param>, c: Condition, p: Param)
    requires |conds| == |params|
    ensures forall e :: Satisfies(conds + [c], params + [p], e) <==> Satisfies(conds, params, e) && Holds(c, p, e)
  {
    forall e ensures Satisfies(conds + [c], params + [p], e) <==> Satisfies(conds, params, e) && Holds(c, p, e) {
      if Satisfies(conds, params, e) && Holds(c, p, e) {
        forall i | 0 <= i < |conds| + 1 ensures Holds((conds + [c])[i], (params + [p])[i], e) {
          if i < |conds| {
            assert (conds + [c])[i] == conds[i] && (params + [p])[i] == params[i];
          }
        }
      }
      if Satisfies(conds + [c], params + [p], e) {
        assert Holds((conds + [c])[|conds|], (params + [p])[|conds|], e);
        forall i | 0 <= i < |conds| ensures Holds(conds[i], params[i], e) {
          assert Holds((conds + [c])[i], (params + [p])[i], e);
        }
      }
    }
  }

  /** The store's side of the search: the rows satisfying the WHERE clause, in stored order. */
  function SelectWhere(rows: seq<Expense>, conds: seq<Condition>, params: seq<Param>): seq<Expense>
    requires |conds| == |params|
  {
    if rows == [] then []
    else (if Satisfies(conds, params, rows[0]) then [rows[0]] else []) + SelectWhere(rows[1..], conds, params)
  }

  /** Running the built query and then `ORDER BY date DESC`. */
  function RunQuery(rows: seq<Expense>, conds: seq<Condition>, params: seq<Param>): (r: seq<Expense>)
    requires |conds| == |params|
    ensures multiset(r) == multiset(SelectWhere(rows, conds, params))
    ensures Sorted(r, NewestFirst)
  {
    NewestFirstIsPreorder();
    SortBySorted(SelectWhere(rows, conds, params), NewestFirst);
    SortBy(SelectWhere(rows, conds, params), NewestFirst)
  }

  /** When a WHERE clause means the filters, the store selects exactly the matching rows. */
  lemma {:induction false} SelectWhereMatches(rows: seq<Expense>, f: Filters, conds: seq<Condition>, params: seq<Param>)
    requires |conds| == |params|
    requires SelectsExactly(conds, params, f)
    ensures SelectWhere(rows, conds, params) == MatchingRows(rows, f)
  {
    if rows != [] {
      SelectWhereMatches(rows[1..], f, conds, params);
    }
  }

  /**
   * `get_expenses` on the rows of the table: exactly the stored rows that
   * satisfy every supplied filter, each as often as it is stored, newest
   * date first.
   */
  method SearchRows(rows: seq<Expense>, f: Filters) returns (result: seq<Expense>)
    ensures multiset(result) == multiset(MatchingRows(rows, f))
    ensures forall e :: e in result <==> e in rows && Matches(f, e)
    ensures Sorted(result, NewestFirst)
  {
    var conds, params := BuildQuery(f);
    result := RunQuery(rows, conds, params);
    SelectWhereMatches(rows, f, conds, params);
    NewestFirstIsPreorder();
    SortBySorted(MatchingRows(rows, f), NewestFirst);
    assert forall e :: e in result <==> e in multiset(result);
  }

  /** The search with every filter absent returns every stored row. */
  lemma {:induction false} NoFiltersMatchAll(rows: seq<Expense>)
    ensures MatchingRows(rows, NoFilters) == rows
  {
    if rows != [] {
      NoFiltersMatchAll(rows[1..]);
    }
  }

  /**
   * Truthiness: an empty start date, end date, category or keyword is
   * treated as absent, but a minimum or maximum amount of 0 is a bound.
   */
  lemma EmptyStringsAreAbsent(f: Filters, e: Expense)
    ensures Matches(f.(startDate := Some("")), e) <==> Matches(f.(startDate := None), e)
    ensures Matches(f.(endDate := Some("")), e) <==> Matches(f.(endDate := None), e)
    ensures Matches(f.(category := Some("")), e) <==> Matches(f.(category := None), e)
    ensures Matches(f.(keyword := Some("")), e) <==> Matches(f.(keyword := None), e)
  {
  }

  /** Amount bounds are tested with `is not None`: a bound of 0 still restricts the rows. */
  lemma ZeroAmountIsABound(f: Filters, e: Expense)
    ensures Matches(f.(minAmount := Some(0.0)), e) <==> Matches(f.(minAmount := None), e) && e.amount >= 0.0
    ensures Matches(f.(maxAmount := Some(0.0)), e) <==> Matches(f.(maxAmount := None), e) && e.amount <= 0.0
  {
  }

  // ---------------------------------------------------------------------
  // Period summary

  /** A closed range of dates, both ends included. */
  datatype Window = Window(start: Date, end: Date)

  /**
   * The date window of a summary period, relative to `today`: one day,
   * the week from its Monday, the month from its first, the year from
   * 1 January; any other period string has no window.
   */
  function PeriodWindow(period: string, today: Date): (w: Option<Window>)
    requires ValidDate(today)
    ensures w.Some? <==> period == "daily" || period == "weekly" || period == "monthly" || period == "yearly"
    ensures w.Some? ==> w.value.end == today && ValidDate(w.value.start) && DateLe(w.value.start, w.value.end)
    ensures period == "daily" ==> w == Some(Window(today, today))
    ensures period == "weekly" ==> w.Some? && Weekday(w.value.start) == 0 &&
                                   0 <= Ordinal(today) - Ordinal(w.value.start) <= 6
    ensures period == "monthly" ==> w == Some(Window(Date(today.year, today.month, 1), today))
    ensures period == "yearly" ==> w == Some(Window(Date(today.year, 1, 1), today))
  {
    if period == "daily" then Some(Window(today, today))
    else if period == "weekly" then Some(Window(MondayOnOrBefore(today), today))
    else if period == "monthly" then Some(Window(Date(today.year, today.month, 1), today))
    else if period == "yearly" then Some(Window(Date(today.year, 1, 1), today))
    else None
  }

  /** `date BETWEEN start AND end`, on the formatted ends of the window. */
  predicate InWindow(e: Expense, w: Window)
    requires ValidDate(w.start) && ValidDate(w.end)
    ensures InWindow(e, w) ==> DateLe(w.start, w.end)
  {
    var inside := Compare(e.date, Format(w.start)) >= 0 && Compare(e.date, Format(w.end)) <= 0;
    if inside then
      CompareFlip(e.date, Format(w.start));
      CompareTransitive(Format(w.start), e.date, Format(w.end));
      FormatOrder(w.start, w.end);
      inside
    else inside
  }

  /** The rows a summary covers: those in the window, or every row when there is none. */
  function WindowRows(rows: seq<Expense>, w: Option<Window>): (r: seq<Expense>)
    requires w.Some? ==> ValidDate(w.value.start) && ValidDate(w.value.end)
    ensures forall e :: e in r <==> e in rows && (w.Some? ==> InWindow(e, w.value))
  {
    if rows == [] then []
    else (if w.None? || InWindow(rows[0], w.value) then [rows[0]] else []) + WindowRows(rows[1..], w)
  }

  /**
   * For dates stored in canonical `YYYY-MM-DD` form, the text comparison
   * of BETWEEN selects exactly the rows whose date lies chronologically in
   * the window.
   */
  lemma InWindowChronological(e: Expense, w: Window)
    requires ValidDate(w.start) && ValidDate(w.end)
    requires IsCanonical(e.date)
    ensures InWindow(e, w) <==> DateLe(w.start, Parse(e.date).value) && DateLe(Parse(e.date).value, w.end)
  {
    var d := Parse(e.date).value;
    FormatParse(e.date);
    FormatOrder(d, w.end);
    FormatOrder(w.start, d);
    CompareFlip(Format(w.start), e.date);
  }

  /** The dictionary `get_expense_summary` returns. */
  datatype Summary = Summary(
    totalAmount: real,
    categoryBreakdown: seq<(string, real)>,
    period: string,
    startDate: Option<string>,
    endDate: Option<string>)

  /** `SELECT category, SUM(amount) ... GROUP BY category ORDER BY total DESC` over some rows. */
  function Breakdown(rows: seq<Expense>): (b: seq<(string, real)>)
    ensures KeysDistinct(b)
    ensures KeySet(b) == KeySet(ByCategory(rows))
    ensures Total(b) == Spent(rows)
    ensures forall c :: KeySum(b, c) == KeySum(ByCategory(rows), c)
    ensures Sorted(b, LargestFirst)
    ensures b == [] <==> rows == []
  {
    var g := GroupSums(ByCategory(rows));
    var b := SortBy(g, LargestFirst);
    KeysDistinctSortBy(g, LargestFirst);
    TotalSortBy(g, LargestFirst);
    ByCategoryTotal(rows);
    LargestFirstIsPreorder();
    SortBySorted(g, LargestFirst);
    KeySumSortBy(g, LargestFirst);
    assert rows != [] ==> rows[0].category in KeySet(ByCategory(rows));
    b
  }

  /** Reordering a table keeps each key's sum. */
  lemma {:induction false} KeySumSortBy(g: seq<(string, real)>, before: ((string, real), (string, real)) -> bool)
    ensures forall c :: KeySum(SortBy(g, before), c) == KeySum(g, c)
  {
    if g != [] {
      KeySumSortBy(g[1..], before);
      forall c ensures KeySum(Insert(g[0], SortBy(g[1..], before), before), c) == KeySum(g, c) {
        KeySumInsert(g[0], SortBy(g[1..], before), before, c);
      }
    }
  }

  lemma {:induction false} KeySumInsert(x: (string, real), s: seq<(string, real)>, before: ((string, real), (string, real)) -> bool, c: string)
    ensures KeySum(Insert(x, s, before), c) == (if x.0 == c then x.1 else 0.0) + KeySum(s, c)
  {
    if s != [] && !before(x, s[0]) {
      KeySumInsert(x, s[1..], before, c);
    }
  }

  /**
   * `get_expense_summary(period)` with `today` given: the total and the
   * per-category breakdown of the rows in the period's window (of all rows
   * when the period is not one of the four), and the window's ends as
   * text.
   */
  function ExpenseSummary(rows: seq<Expense>, period: string, today: Date): (s: Summary)
    requires ValidDate(today)
    ensures s.period == period
    ensures s.startDate.Some? <==> PeriodWindow(period, today).Some?
    ensures s.startDate.Some? ==> s.startDate.value == Format(PeriodWindow(period, today).value.start)
    ensures s.endDate == if s.startDate.Some? then Some(Format(today)) else None
    ensures s.totalAmount == Spent(WindowRows(rows, PeriodWindow(period, today)))
    ensures Total(s.categoryBreakdown) == s.totalAmount
    ensures KeysDistinct(s.categoryBreakdown)
    ensures KeySet(s.categoryBreakdown) == KeySet(ByCategory(WindowRows(rows, PeriodWindow(period, today))))
    ensures forall c :: KeySum(s.categoryBreakdown, c) == KeySum(ByCategory(WindowRows(rows, PeriodWindow(period, today))), c)
    ensures Sorted(s.categoryBreakdown, LargestFirst)
  {
    var w := PeriodWindow(period, today);
    var selected := WindowRows(rows, w);
    Summary(
      Spent(selected),
      Breakdown(selected),
      period,
      if w.Some? then Some(Format(w.value.start)) else None,
      if w.Some? then Some(Format(w.value.end)) else None)
  }

  /**
   * The breakdown has one entry per category among the covered rows, and
   * each entry holds the sum over exactly the covered rows of that category.
   */
  lemma SummaryBreakdownEntries(rows: seq<Expense>, period: string, today: Date, i: int)
    requires ValidDate(today)
    requires 0 <= i < |ExpenseSummary(rows, period, today).categoryBreakdown|
    ensures var b := ExpenseSummary(rows, period, today).categoryBreakdown;
            var selected := WindowRows(rows, PeriodWindow(period, today));
            KeySet(b) == KeySet(ByCategory(selected)) &&
            b[i].1 == KeySum(ByCategory(selected), b[i].0)
  {
    var b := ExpenseSummary(rows, period, today).categoryBreakdown;
    DistinctEntry(b, i);
  }
}
