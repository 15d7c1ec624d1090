# Expense ledger model

A Dafny model of the data logic of `ExpenseTracker.py`, a personal expense tracker that keeps its data in an SQLite file. The model covers:

- the three tables: the `expenses` ledger, the unique `categories` names, and the singleton `budget` row;
- the operations of `DatabaseManager`, `ExpenseManager`, `CategoryManager` and `BudgetManager`;
- the two aggregation queries behind the report charts of `ReportGenerator`.

The store is the class `Database.ExpenseDb`. Its fields are the tables, and its methods are the writing operations:

- `init_database` (with the seeding loop);
- `add_expense`;
- `add_category`;
- `set_monthly_budget`.

`get_expenses` is a method as well. The other reading operations are functions of the tables.

The SQL each operation runs is modelled by what it selects:

- **`get_expenses`.** Its WHERE clause is built step by step, as the source builds it. That builder (`Expenses.BuildQuery`) is proved to select exactly the rows that satisfy every supplied filter (`Expenses.Matches`). It is also proved to bind one parameter per `?`, in order. `ORDER BY date DESC` is a sort by the date text.
- **`get_expense_summary`.** It is modelled as:
  - a date window derived from the period and from `today`;
  - `date BETWEEN` on the formatted ends of that window;
  - a `GROUP BY category` sum, sorted by total descending.
- **`get_budget_status`.** It is the month-to-date sum plus the arithmetic and guards of the source.

Supporting modules:

- `Text`: SQLite's BINARY text order, containment and fixed-width numerals.
- `Sorting`: ORDER BY, as an insertion sort under a total preorder.
- `Calendar`: Python `date`, `toordinal`, `weekday` and `timedelta` subtraction, plus the `YYYY-MM-DD` text form (`full-date`, section 5.6 of RFC 3339). It also proves that text order equals chronological order for that form (section 5.1 of RFC 3339).
- `Aggregates`: GROUP BY with SUM.

## Model

| member | source | states |
|---|---|---|
| Text.Compare | ExpenseTracker.py:116-121 | The text order the date filters use: a three-way comparison, 0 exactly when the strings are equal. |
| Sorting.SortBy | ExpenseTracker.py:139 | ORDER BY output is a permutation of its input (same multiset, same length). |
| Sorting.SortBySorted | ExpenseTracker.py:139 | ORDER BY output is in order under any total preorder. |
| Sorting.SortByDistinct | ExpenseTracker.py:209 | Sorting rows that are pairwise distinct keeps them distinct. |
| Calendar.ClosedFormYears | ExpenseTracker.py:151 | The closed form of Python's `_days_before_year`, behind `weekday()` and date subtraction, equals the sum of the lengths of the years before. |
| Calendar.Weekday | ExpenseTracker.py:151 | `weekday()` lies in 0..6. |
| Calendar.SubDays | ExpenseTracker.py:151 | `d - timedelta(days=k)` is a valid date exactly k day numbers earlier, and not after d. |
| Calendar.MondayOnOrBefore | ExpenseTracker.py:151 | `today - timedelta(days=today.weekday())` is a Monday, 0 to 6 days before today, and never leaves year 1. |
| Calendar.WeekdayExamples | ExpenseTracker.py:151 | 2024-01-01 is weekday 0 (Monday) and 2026-10-15 is weekday 3 (Thursday). |
| Calendar.Format | ExpenseTracker.py:148 | `strftime('%Y-%m-%d')` gives 10 characters with hyphens at positions 4 and 7. |
| Calendar.ParseFormat | ExpenseTracker.py:148 | Parsing a formatted date gives the date back. |
| Calendar.FormatParse | ExpenseTracker.py:148 | A string that parses as a date is the formatted form of that date. |
| Calendar.FormatOrder | ExpenseTracker.py:116-121 | For formatted dates, text comparison is ≤ exactly when the dates are chronologically ≤, and the texts are equal exactly when the dates are. |
| Calendar.MonthPrefixOrder | ExpenseTracker.py:339 | The first 7 characters of a formatted date are `YYYY-MM`, and they order by year, then month. |
| Aggregates.GroupSums | ExpenseTracker.py:176-179 | GROUP BY with SUM: distinct keys, exactly the input's keys, each key's sum preserved, and the sums adding up to the total. |
| Aggregates.GroupEntry | ExpenseTracker.py:176-179 | Each group's entry equals the sum over exactly the rows with its key. |
| Expenses.ByCategoryTotal | ExpenseTracker.py:176 | Taking the (category, amount) pairs of the rows loses no amount. |
| Expenses.NewestFirstIsPreorder | ExpenseTracker.py:139 | `ORDER BY date DESC` is a total preorder on rows. |
| Expenses.LargestFirstIsPreorder | ExpenseTracker.py:180 | `ORDER BY total DESC` is a total preorder on (category, total) pairs. |
| Expenses.MatchingRows | ExpenseTracker.py:108-141 | A row is in the reference result exactly when it is stored and satisfies every supplied filter. |
| Expenses.MatchingRowsCount | ExpenseTracker.py:108-141 | A matching row occurs in the result as often as it is stored, and a non-matching row not at all. |
| Expenses.QueryPlaceholders | ExpenseTracker.py:112-139 | The query text has exactly one `?` per added condition. |
| Expenses.BuildQuery | ExpenseTracker.py:112-139 | Clauses are added in source order. There is one parameter per clause and one `?` per parameter. The WHERE clause holds for a row exactly when the row matches every supplied filter (None and "" absent for text filters; `is not None` for amounts). |
| Expenses.LikeKeyword | ExpenseTracker.py:135-137 | The bound pattern `%keyword%` matches a description exactly when the description contains the keyword. |
| Expenses.RunQuery | ExpenseTracker.py:139-141 | Running the query with `ORDER BY date DESC` returns the rows the WHERE clause selects (same multiset), in non-increasing date order. |
| Expenses.SelectWhereMatches | ExpenseTracker.py:141 | Running a WHERE clause that selects exactly the matching rows gives the reference rows, in stored order. |
| Expenses.SearchRows | ExpenseTracker.py:108-141 | `get_expenses` returns each stored row that satisfies every filter, as often as it is stored, no other row, in non-increasing date order. |
| Expenses.NoFiltersMatchAll | ExpenseTracker.py:112 | With no filter (`WHERE 1=1`), every stored row is selected. |
| Expenses.EmptyStringsAreAbsent | ExpenseTracker.py:115-137 | For any other filters, an empty string in any one of start date, end date, category or keyword selects the same rows as None in that filter. |
| Expenses.ZeroAmountIsABound | ExpenseTracker.py:127-133 | For every filter set and row, a minimum of 0 selects exactly the rows the filters without a minimum select that also have amount ≥ 0, and a maximum of 0 those that also have amount ≤ 0. |
| Expenses.PeriodWindow | ExpenseTracker.py:145-161 | The window for each period: daily (today, today); weekly (a Monday 0–6 days back, today); monthly (day 1, today); yearly (1 January, today). Any other period has no window. Every window is valid with start ≤ end. |
| Expenses.WindowRows | ExpenseTracker.py:164-169 | The rows summed: those with `date BETWEEN start AND end`, or every row when there is no window. |
| Expenses.InWindow | ExpenseTracker.py:164-166 | `date BETWEEN start AND end` on the formatted ends. A row can only be inside a window whose start is not after its end. |
| Expenses.InWindowChronological | ExpenseTracker.py:165 | For canonical stored dates, the text BETWEEN selects exactly the rows whose date is chronologically inside the window. |
| Expenses.Breakdown | ExpenseTracker.py:175-190 | One entry per category among the rows, each key's sum preserved, sums adding up to the rows' total, ordered by total descending, and empty only when there are no rows. |
| Expenses.ExpenseSummary | ExpenseTracker.py:143-198 | `total_amount` is the sum over the window's rows (0.0 when none). The breakdown adds up to it, has exactly the window's categories, one entry each, each holding that category's sum, and is non-increasing. The start and end dates are present exactly when a window exists; the start date is the formatted window start and the end date is today. |
| Expenses.SummaryBreakdownEntries | ExpenseTracker.py:174-190 | The breakdown's categories are those of the covered rows, and each entry is the sum over exactly that category's covered rows. |
| Categories.InsertOrIgnore | ExpenseTracker.py:63 | `INSERT OR IGNORE` adds the name at the end only if it is absent, keeps names unique and keeps the earlier names. |
| Categories.SeededContents | ExpenseTracker.py:61-63 | After seeding, all defaults are present, the names stay unique, nothing else is added, and the earlier names are a prefix. |
| Categories.SeededNoop | ExpenseTracker.py:61-63 | Seeding a table that already holds every default changes nothing. |
| Categories.SeededIdempotent | ExpenseTracker.py:61-63 | Running the seeding twice gives the same table as running it once. |
| Categories.SeededFresh | ExpenseTracker.py:61-63 | Seeding an empty table gives the defaults in their listed order. |
| Categories.DefaultsDistinct | ExpenseTracker.py:61 | The seven default names are pairwise different. |
| Categories.DistinctOccursOnce | ExpenseTracker.py:55 | Under the UNIQUE constraint, a present name occurs exactly once. |
| Categories.ByNameIsPreorder | ExpenseTracker.py:209 | `ORDER BY name` is a total preorder. |
| Categories.ListCategories | ExpenseTracker.py:207-211 | `get_categories` returns exactly the stored names, each once, in strictly ascending text order. |
| Budgets.MonthToDate | ExpenseTracker.py:252-253 | The month-to-date window is the `monthly` summary window: day 1 of today's month to today, both valid dates. |
| Budgets.IsSet | ExpenseTracker.py:247 | `if not budget`: the budget counts as unset exactly when it is None or 0. |
| Budgets.Percentage | ExpenseTracker.py:260 | For a positive budget, `percentage × budget = spent × 100`. It is non-negative when spent is, and at most 100 while spent ≤ budget. |
| Budgets.Status | ExpenseTracker.py:244-267 | A None or 0 budget gives (None, 0, 0, 0). Otherwise: the budget is carried, `spent` is the month-to-date sum, `remaining = budget − spent` (negative when over budget), the percentage is `Percentage(spent, budget)` when budget > 0, and `percentage = 0` when budget < 0. |
| Budgets.StatusSpentIsMonthlyTotal | ExpenseTracker.py:251-257 | `spent` equals the `total_amount` of the monthly summary for the same today. |
| Budgets.StatusExamples | ExpenseTracker.py:259-260 | With budget 100: 80 spent gives 20 remaining and 80%; 120 spent gives −20 remaining and 120%. |
| Reports.CategoryTotals | ExpenseTracker.py:306-316 | The pie-chart data is None exactly for an empty ledger. Otherwise it has one entry per category of the ledger, each holding that category's sum, totals adding up to the ledger's sum, ordered by total descending. |
| Reports.CategoryTotalsAreAllTimeBreakdown | ExpenseTracker.py:306-312 | The pie-chart data holds the same entries (as a multiset) as the breakdown of a summary whose period has no window. |
| Reports.MonthKey | ExpenseTracker.py:339 | For a canonical date, `strftime('%Y-%m', date)` is its 7-character prefix. |
| Reports.MonthKeyChronological | ExpenseTracker.py:339-342 | Month keys of canonical dates order by year, then month. |
| Reports.ByMonthTotal | ExpenseTracker.py:339-341 | Keying the rows by month loses no amount. |
| Reports.EarliestMonthFirstIsPreorder | ExpenseTracker.py:342 | `ORDER BY month` is a total preorder. |
| Reports.MonthlyTotals | ExpenseTracker.py:338-348 | The bar-chart data is None exactly for an empty ledger. Otherwise it has one entry per month key, each key's sum preserved, totals adding up to the ledger's sum, keys strictly ascending. |
| Database.InsertRow | ExpenseTracker.py:234 | A plain INSERT fails exactly when the primary key is taken, and otherwise adds the row. |
| Database.UpdateRow | ExpenseTracker.py:232 | An UPDATE with `WHERE id = 1` changes row 1 if it exists, and otherwise changes nothing. |
| Database.ExpenseDb.constructor | ExpenseTracker.py:19-22 | A new store holds no expenses and no budget, and holds exactly the seven default categories. |
| Database.ExpenseDb.InitDatabase | ExpenseTracker.py:24-63 | The seeding loop inserts each default with INSERT OR IGNORE. All defaults become present, the names stay unique, and the other tables are unchanged. |
| Database.ExpenseDb.AddExpense | ExpenseTracker.py:103-106 | Exactly one row is appended, with the given fields and an id greater than every stored id. Stored rows and the other tables are unchanged. |
| Database.ExpenseDb.GetExpenses | ExpenseTracker.py:108-141 | Returns exactly the stored rows that match the filters, with multiplicity, newest date first. |
| Database.ExpenseDb.AddCategory | ExpenseTracker.py:213-216 | Succeeds exactly when the name is new. The name is then appended and occurs once. A duplicate leaves the table unchanged. |
| Database.ExpenseDb.GetCategories | ExpenseTracker.py:207-211 | The stored names, each once, in ascending order. |
| Database.ExpenseDb.MonthlyBudget | ExpenseTracker.py:238-242 | The value of row 1, or None when the table has no row 1. |
| Database.ExpenseDb.SetMonthlyBudget | ExpenseTracker.py:225-236 | Whether it updates or inserts, the table afterwards holds exactly row 1 with the new amount, and `get_monthly_budget` returns that amount. |
| Database.ExpenseDb.GetBudgetStatus | ExpenseTracker.py:244-267 | Unset budget gives zeros. Otherwise the status carries the budget, `spent` is the monthly summary total, `remaining = budget − spent`, the percentage is `Percentage(spent, budget)` for a positive budget and 0 for a negative one. |
| Database.ExpenseDb.GetExpenseSummary | ExpenseTracker.py:143-198 | The summary's total is the sum over the period window's rows. The period is the one asked for. Its breakdown has exactly one entry per category among those rows, each holding that category's sum, adds up to the total and is non-increasing. The start date is the formatted window start and the end date today, both present exactly when the period has a window. |
| Database.RecordThenSearch | ExpenseTracker.py:103-112 | A row added with an id above every stored id is returned exactly once by an unfiltered search. |

## Left out

- The sqlite3 connection handling (`execute_query`, `execute_update`) and its error handlers, which print and return `[]` or `False`. The tables are fields of the store. The only failure modelled is the one the schema causes: a duplicate category name makes `add_category` return false.
- The `IndexError` that `[0][0]` would raise if a query failed inside `get_expense_summary` or `get_budget_status`. Those queries always return one row in the model.
- `datetime.now()`. The current date is the parameter `today`, which must be a valid date.
- The `created_at` and `updated_at` timestamp columns.
- Floating point. Amounts, sums and the percentage are exact `real` numbers, so float rounding of `REAL` sums and of `spent / budget * 100` is not modelled.
- Budgets.Percentage: states `percentage × budget = spent × 100` for the exact quotient, not the rounded float one, because amounts are exact reals.
- `LIKE` details:
  - SQLite's ASCII case-insensitivity;
  - `%` and `_` inside the keyword acting as wildcards.
  The keyword filter is modelled as case-sensitive containment of the keyword as written.
- Date strings:
  - Stored dates are free text. The order and window lemmas assume canonical zero-padded `YYYY-MM-DD` strings (`Calendar.IsCanonical`).
  - The interactive input check with `strptime` also accepts unpadded forms such as `2024-1-5`, which would break text ordering. It is part of the interface and is not part of this model.
- Reports.MonthKey: exact for canonical dates and for strings SQLite cannot parse as a date (such as `2024-1-5`), where `strftime` gives NULL and the model gives the empty string, which also sorts first. Other forms SQLite's date parser accepts are not modelled: a date followed by a time (`2024-01-05 10:30`), a day past the month's end (`2024-02-30`, normalised into the next month), year 0000 and bare Julian day numbers. For those the source yields a month and the model the empty string.
- Calendar.Format: writes the year with four digits. C's `%Y` does not pad years below 1000, so the texts differ for years 1 to 999.
- The order of rows whose ORDER BY keys tie. SQLite leaves it unspecified, and the model uses the order of its insertion sort. Every contract holds whichever order ties take: sortedness is stated up to ties, and results of separate queries are compared as multisets.
- AUTOINCREMENT exhaustion at the largest 64-bit id. Ids are unbounded integers.
- NOT NULL violations from Python `None` arguments to `add_expense` or `add_category`. The model's arguments are always values, so `add_expense` always succeeds.
- `generate_csv_report`, the chart rendering (matplotlib, pandas, `savefig`), `ensure_reports_directory` and the timestamped file names. These are file and library I/O. Only the two aggregation queries that feed the charts are modelled.
- The interactive `ExpenseTracker` class, its menus and `main`. These are console UI.
