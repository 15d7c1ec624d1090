/**
 * `BudgetManager.get_budget_status`: the current month's spending against
 * the single stored monthly budget.
 */
module Budgets {
  import opened Wrappers
  import opened Calendar
  import opened Expenses

  /** The dictionary `get_budget_status` returns. */
  datatype BudgetStatus = BudgetStatus(budget: Option<real>, spent: real, remaining: real, percentage: real)

  /** Python truthiness of the stored budget (`if not budget`): None and 0 are both false. */
  predicate IsSet(budget: Option<real>)
    ensures IsSet(budget) <==> budget !in {None, Some(0.0)}
  {
    budget.Some? && budget.value != 0.0
  }

  /** The first of the month of `today` up to `today`. */
  function MonthToDate(today: Date): (w: Window)
    requires ValidDate(today)
    ensures ValidDate(w.start) && ValidDate(w.end)
    ensures Some(w) == PeriodWindow("monthly", today)
  {
    Window(Date(today.year, today.month, 1), today)
  }

  /**
   * Without a (truthy) budget, everything is zero and the budget is None.
   * Otherwise `spent` is the sum over the month to date,
   * `remaining` may go negative, and `percentage` is spent as a share of a
   * positive budget, 0 for a negative one.
   */
  function Status(budget: Option<real>, rows: seq<Expense>, today: Date): (st: BudgetStatus)
    requires ValidDate(today)
    ensures !IsSet(budget) ==> st == BudgetStatus(None, 0.0, 0.0, 0.0)
    ensures IsSet(budget) ==> st.budget == budget
    ensures IsSet(budget) ==> st.spent == Spent(WindowRows(rows, Some(MonthToDate(today))))
    ensures IsSet(budget) ==> st.remaining == budget.value - st.spent
    ensures IsSet(budget) && budget.value > 0.0 ==> st.percentage == Percentage(st.spent, budget.value)
    ensures IsSet(budget) && budget.value < 0.0 ==> st.percentage == 0.0
  {
    if !IsSet(budget) then BudgetStatus(None, 0.0, 0.0, 0.0)
    else
      var b := budget.value;
      var spent := Spent(WindowRows(rows, Some(MonthToDate(today))));
      var percentage := if b > 0.0 then Percentage(spent, b) else 0.0;
      BudgetStatus(budget, spent, b - spent, percentage)
  }

  /** With a budget set, `spent` is the total the monthly summary reports for the same day. */
  lemma StatusSpentIsMonthlyTotal(budget: Option<real>, rows: seq<Expense>, today: Date)
    requires ValidDate(today) && IsSet(budget)
    ensures Status(budget, rows, today).spent == ExpenseSummary(rows, "monthly", today).totalAmount
  {
    assert PeriodWindow("monthly", today) == Some(MonthToDate(today));
  }

  /** `(spent / budget) * 100` for a positive budget: the share of the budget spent, in percent. */
  function Percentage(spent: real, b: real): (p: real)
    requires b > 0.0
    ensures p * b == spent * 100.0
    ensures 0.0 <= spent ==> 0.0 <= p
    ensures spent <= b ==> p <= 100.0
  {
    assert spent / b * b == spent;
    spent / b * 100.0
  }

  /** A budget of 100 with 80 spent this month is 80 percent used with 20 left; with 120 spent, 120 percent and -20. */
  lemma StatusExamples(rows: seq<Expense>, today: Date)
    requires ValidDate(today)
    ensures Spent(WindowRows(rows, Some(MonthToDate(today)))) == 80.0 ==>
              Status(Some(100.0), rows, today).percentage == 80.0 && Status(Some(100.0), rows, today).remaining == 20.0
    ensures Spent(WindowRows(rows, Some(MonthToDate(today)))) == 120.0 ==>
              Status(Some(100.0), rows, today).percentage == 120.0 && Status(Some(100.0), rows, today).remaining == -20.0
  {
  }
}
