/**
 * The store file with its three tables, and the manager operations that
 * write to it: `DatabaseManager.init_database`, `ExpenseManager.add_expense`,
 * `CategoryManager.add_category` and `BudgetManager.set_monthly_budget`.
 * `get_expenses` is a method that reads the tables; the other read-only
 * operations are functions of the tables. Their meaning is stated in the
 * modules Expenses, Categories, Budgets and Reports.
 */
module Database {
  import opened Wrappers
  import opened Text
  import opened Sorting
  import opened Calendar
  import opened Expenses
  import opened Categories
  import opened Aggregates
  import opened Budgets

  /** The only row id the budget table uses. */
  const BudgetRowId := 1

  /** `INSERT INTO budget (id, monthly_budget)`: fails when the primary key is taken. */
  function InsertRow(rows: map<int, real>, id: int, value: real): (r: Option<map<int, real>>)
    ensures r.None? <==> id in rows
    ensures r.Some? ==> r.value == rows[id := value]
  {
    if id in rows then None else Some(rows[id := value])
  }

  /** `UPDATE budget SET monthly_budget = ? WHERE id = ...`: no row with that id, no change. */
  function UpdateRow(rows: map<int, real>, id: int, value: real): (r: map<int, real>)
    ensures id in rows ==> r == rows[id := value]
    ensures id !in rows ==> r == rows
  {
    if id in rows then rows[id := value] else rows
  }

  class ExpenseDb {
    /** `expenses`, in insertion (rowid) order. */
    var expenses: seq<Expense>
    /** The next AUTOINCREMENT id of `expenses`: one more than the largest id ever issued. */
    var nextId: int
    /** `categories.name`, in insertion order. */
    var categories: seq<string>
    /** `budget`, keyed by its primary key `id`. */
    var budgetRows: map<int, real>

    /**
     * Ids are positive, increase with insertion order and stay below the
     * next one to be issued; category names are unique; the budget table
     * holds at most one row, with id 1.
     */
    ghost predicate Valid()
      reads this
    {
      nextId >= 1 &&
      (forall i :: 0 <= i < |expenses| ==> 1 <= expenses[i].id < nextId) &&
      (forall i, j :: 0 <= i < j < |expenses| ==> expenses[i].id < expenses[j].id) &&
      Distinct(categories) &&
      (forall id :: id in budgetRows ==> id == BudgetRowId)
    }

    /** `DatabaseManager(db_path)` on a new file: empty tables, then the seeding of `init_database`. */
    constructor ()
      ensures Valid()
      ensures expenses == [] && categories == DefaultCategories && budgetRows == map[]
      ensures MonthlyBudget() == None
    {
      expenses := [];
      nextId := 1;
      categories := [];
      budgetRows := map[];
      new;
      InitDatabase();
      DefaultsDistinct();
      SeededFresh(DefaultCategories);
    }

    /**
     * `init_database`: the tables already exist; each default category is
     * inserted with INSERT OR IGNORE. Running it again changes nothing
     * (lemma Categories.SeededIdempotent).
     */
    method InitDatabase()
      requires Valid()
      modifies this
      ensures Valid()
      ensures categories == Seeded(old(categories), DefaultCategories)
      ensures forall d :: d in DefaultCategories ==> d in categories
      ensures expenses == old(expenses) && nextId == old(nextId) && budgetRows == old(budgetRows)
    {
      var i := 0;
      while i < |DefaultCategories|
        invariant 0 <= i <= |DefaultCategories|
        invariant categories == Seeded(old(categories), DefaultCategories[..i])
        invariant Distinct(categories)
        invariant expenses == old(expenses) && nextId == old(nextId) && budgetRows == old(budgetRows)
      {
        assert DefaultCategories[..i + 1][..i] == DefaultCategories[..i];
        categories := InsertOrIgnore(categories, DefaultCategories[i]);
        i := i + 1;
      }
      assert DefaultCategories[..i] == DefaultCategories;
      SeededContents(old(categories), DefaultCategories);
    }

    /**
     * `add_expense`: appends one row with a fresh id, larger than every
     * stored id; the stored rows and the other tables are unchanged.
     */
    method AddExpense(date: string, category: string, amount: real, description: string) returns (ok: bool)
      requires Valid()
      modifies this
      ensures Valid() && ok
      ensures expenses == old(expenses) + [Expense(old(nextId), date, category, amount, description)]
      ensures forall e :: e in old(expenses) ==> e.id < expenses[|expenses| - 1].id
      ensures nextId == old(nextId) + 1
      ensures categories == old(categories) && budgetRows == old(budgetRows)
    {
      expenses := expenses + [Expense(nextId, date, category, amount, description)];
      nextId := nextId + 1;
      ok := true;
    }

    /** `get_expenses`: the stored rows matching every supplied filter, newest date first. */
    method GetExpenses(f: Filters) returns (result: seq<Expense>)
      ensures multiset(result) == multiset(MatchingRows(expenses, f))
      ensures forall e :: e in result <==> e in expenses && Matches(f, e)
      ensures Sorted(result, NewestFirst)
    {
      result := SearchRows(expenses, f);
    }

    /**
     * `add_category`: a plain INSERT, so a name already present violates
     * the UNIQUE constraint and the call returns false with the table
     * unchanged; a new name is appended and then occurs exactly once.
     */
    method AddCategory(name: string) returns (ok: bool)
      requires Valid()
      modifies this
      ensures Valid()
      ensures ok <==> name !in old(categories)
      ensures categories == if ok then old(categories) + [name] else old(categories)
      ensures multiset(categories)[name] == 1 || !ok
      ensures expenses == old(expenses) && nextId == old(nextId) && budgetRows == old(budgetRows)
    {
      if name in categories {
        ok := false;
      } else {
        categories := categories + [name];
        ok := true;
        DistinctOccursOnce(categories, name);
      }
    }

    /** `get_categories`. */
    function GetCategories(): (r: seq<string>)
      requires Valid()
      reads this
      ensures forall n :: n in r <==> n in categories
      ensures Distinct(r)
      ensures forall i, j :: 0 <= i < j < |r| ==> Compare(r[i], r[j]) < 0
    {
      ListCategories(categories)
    }

    /** `get_monthly_budget`: the value of row 1, or None before the first set. */
    function MonthlyBudget(): (b: Option<real>)
      reads this
      ensures b.Some? <==> BudgetRowId in budgetRows
      ensures b.Some? ==> b.value == budgetRows[BudgetRowId]
    {
      if BudgetRowId in budgetRows then Some(budgetRows[BudgetRowId]) else None
    }

    /**
     * `set_monthly_budget`: looks for row 1, then updates it or inserts it.
     * Afterwards the table holds exactly that one row, with the new value.
     */
    method SetMonthlyBudget(amount: real) returns (ok: bool)
      requires Valid()
      modifies this
      ensures Valid() && ok
      ensures budgetRows == map[BudgetRowId := amount]
      ensures MonthlyBudget() == Some(amount)
      ensures expenses == old(expenses) && nextId == old(nextId) && categories == old(categories)
    {
      var found := BudgetRowId in budgetRows;
      if found {
        budgetRows := UpdateRow(budgetRows, BudgetRowId, amount);
        ok := true;
      } else {
        var inserted := InsertRow(budgetRows, BudgetRowId, amount);
        ok := inserted.Some?;
        if ok {
          budgetRows := inserted.value;
        }
      }
      assert forall id :: id in budgetRows <==> id == BudgetRowId;
      assert budgetRows.Keys == {BudgetRowId};
    }

    /** `get_budget_status` with `today` given. */
    function GetBudgetStatus(today: Date): (st: BudgetStatus)
      requires ValidDate(today)
      reads this
      ensures IsSet(MonthlyBudget()) ==> st.spent == ExpenseSummary(expenses, "monthly", today).totalAmount
      ensures IsSet(MonthlyBudget()) ==> st.budget == MonthlyBudget() && st.remaining == MonthlyBudget().value - st.spent
      ensures !IsSet(MonthlyBudget()) ==> st == BudgetStatus(None, 0.0, 0.0, 0.0)
      ensures IsSet(MonthlyBudget()) && MonthlyBudget().value > 0.0 ==> st.percentage == Percentage(st.spent, MonthlyBudget().value)
      ensures IsSet(MonthlyBudget()) && MonthlyBudget().value < 0.0 ==> st.percentage == 0.0
    {
      var b := MonthlyBudget();
      var st := Status(b, expenses, today);
      if IsSet(b) then
        StatusSpentIsMonthlyTotal(b, expenses, today);
        st
      else st
    }

    /** `get_expense_summary` with `today` given. */
    function GetExpenseSummary(period: string, today: Date): (s: Summary)
      requires ValidDate(today)
      reads this
      ensures s.period == period
      ensures s.startDate.Some? <==> PeriodWindow(period, today).Some?
      ensures s.startDate.Some? ==> s.startDate.value == Format(PeriodWindow(period, today).value.start)
      ensures s.endDate == if s.startDate.Some? then Some(Format(today)) else None
      ensures s.totalAmount == Spent(WindowRows(expenses, PeriodWindow(period, today)))
      ensures Total(s.categoryBreakdown) == s.totalAmount && Sorted(s.categoryBreakdown, LargestFirst)
      ensures KeysDistinct(s.categoryBreakdown)
      ensures KeySet(s.categoryBreakdown) == KeySet(ByCategory(WindowRows(expenses, PeriodWindow(period, today))))
      ensures forall c :: KeySum(s.categoryBreakdown, c) == KeySum(ByCategory(WindowRows(expenses, PeriodWindow(period, today))), c)
    {
      ExpenseSummary(expenses, period, today)
    }
  }

  /** A row just added is returned exactly once by a search without filters, with its fields as given. */
  lemma RecordThenSearch(rows: seq<Expense>, e: Expense)
    requires forall x :: x in rows ==> x.id < e.id
    ensures multiset(MatchingRows(rows + [e], NoFilters))[e] == 1
  {
    NoFiltersMatchAll(rows + [e]);
    assert e !in rows;
    assert multiset(rows + [e]) == multiset(rows) + multiset{e};
  }
}
