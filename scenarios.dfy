/** Runs of the budget controller as the page drives it: add or delete an
    item, then recompute the budget and the expense percentages and read
    them back. What each run must show is asserted from the controller's
    contracts alone. */
module Scenarios {
  import opened Ledger
  import opened Budget

  /** Recomputing the budget a second time, with no add or delete between,
      gives the same summary as the first time. */
  method RecalculateTwice(store: BudgetController) returns (first: BudgetSummary, second: BudgetSummary)
    requires store.Valid()
    modifies store
    ensures store.Valid() && store.Current()
    ensures first == second
  {
    store.CalculateBudget();
    first := store.GetBudget();
    store.CalculateBudget();
    second := store.GetBudget();
  }

  /** A store holding incomes of 100.00 and 50.00 and an expense of 30.00;
      each list's ids start at 0. */
  method SalaryBonusRent() returns (store: BudgetController)
    ensures fresh(store) && store.Valid()
    ensures store.inc == [Income(0, "salary", 10000), Income(1, "bonus", 5000)]
    ensures store.exp == [Expense(0, "rent", 3000, NoPercentage)]
  {
    store := new BudgetController();
    var a := store.AddItem(Inc, "salary", 10000);
    var b := store.AddItem(Inc, "bonus", 5000);
    var c := store.AddItem(Exp, "rent", 3000);
    assert a == 0 && b == 1 && c == 0;
  }

  /** Incomes of 100.00 and 50.00 and an expense of 30.00: totals 150.00
      and 30.00, budget 120.00, 20 percent. */
  method TotalsExample() {
    var store := SalaryBonusRent();
    store.CalculateBudget();
    assert store.inc[..1][..0] == [] && store.inc[..1] == [store.inc[0]];
    assert store.exp[..0] == [];
    var summary := store.GetBudget();
    assert summary.totalIncome == 15000 && summary.totalExpense == 3000;
    assert summary.budget == 12000;
    assert summary.percentage == Percent(20);
  }

  /** With no income, the budget's share is "---" and an expense of 40.00
      keeps the percentage -1. Deleting an id no item has changes nothing. */
  method NoIncomeExample() {
    var store := new BudgetController();
    var id := store.AddItem(Exp, "food", 4000);
    store.DeleteItem(Exp, id + 7);
    store.DeleteItem(Inc, id);
    assert |store.exp| == 1 && store.inc == [];
    store.CalculateBudget();
    assert store.percentage == Dashes;
    store.CalculatePercentages();
    assert store.GetPercentages() == [NoPercentage];
  }

  /** A store holding a salary of 1000.00 and, in this order, a rent of
      300.00 and food for 100.00. */
  method SalaryRentFood() returns (store: BudgetController)
    ensures fresh(store) && store.Valid()
    ensures store.inc == [Income(0, "salary", 100000)]
    ensures store.exp == [Expense(0, "rent", 30000, NoPercentage), Expense(1, "food", 10000, NoPercentage)]
  {
    store := new BudgetController();
    var salary := store.AddItem(Inc, "salary", 100000);
    var rent := store.AddItem(Exp, "rent", 30000);
    var food := store.AddItem(Exp, "food", 10000);
  }

  /** Salary, rent and food: totals 1000.00 and 400.00, budget 600.00,
      40 percent, and expense percentages 30 and 10 in the order the
      expenses were added. */
  method EndToEndExample() {
    var store := SalaryRentFood();
    store.CalculateBudget();
    assert store.inc[..0] == [];
    assert store.exp[..1][..0] == [] && store.exp[..1] == [store.exp[0]];
    var summary := store.GetBudget();
    assert summary == BudgetSummary(100000, 40000, 60000, Percent(40));
    store.CalculatePercentages();
    var shares := store.GetPercentages();
    assert shares[0] == 30 && shares[1] == 10;
  }

  /** Deleting the rent and recomputing leaves food at 10 percent of income;
      a further expense then gets the id after food's. */
  method DeleteExample() {
    var store := SalaryRentFood();
    store.DeleteItem(Exp, 0);
    assert store.exp == [Expense(1, "food", 10000, NoPercentage)];
    store.CalculateBudget();
    store.CalculatePercentages();
    assert store.GetPercentages() == [10];
    var next := store.AddItem(Exp, "bus", 500);
    assert next == 2;
  }
}
