/** The summary shown under the session user's view (app.py:166-177): total
    income, total expenses, balance, and the negative-balance warning. */
module Summaries {
  import opened Records
  import TransactionStore

  /** Sum of the Amount column over the rows whose Type is `kind`. */
  function SumOfKind(rows: seq<Transaction>, kind: Kind): real
    decreases |rows|
  {
    if rows == [] then 0.0
    else
      var n := |rows| - 1;
      SumOfKind(rows[..n], kind) + (if rows[n].kind == kind then rows[n].amount else 0.0)
  }

  /** Sum of the whole Amount column: an independent reference for the balance. */
  function Total(rows: seq<Transaction>): real
    decreases |rows|
  {
    if rows == [] then 0.0 else Total(rows[..|rows| - 1]) + rows[|rows| - 1].amount
  }

  /** income and expenses as summed by the source; balance is their sum. */
  datatype Summary = Summary(income: real, expenses: real, balance: real) {
    /** Expenses are shown negated, as a magnitude. */
    function DisplayedExpenses(): real {
      -expenses
    }
  }

  /** The summary of a view: the balance is the sum of every amount in it, and
      under the sign convention income is never negative and expenses never
      positive (so the displayed expenses are never negative either). */
  function Summarize(view: seq<Transaction>): (s: Summary)
    ensures s.balance == Total(view)
    ensures AllSignConsistent(view) ==> s.income >= 0.0 && s.expenses <= 0.0 && s.DisplayedExpenses() >= 0.0
  {
    BalanceIsTotal(view);
    TotalsHaveTheirSigns(view);
    var income := SumOfKind(view, Income);
    var expenses := SumOfKind(view, Expense);
    Summary(income, expenses, income + expenses)
  }

  /** The warning fires exactly when the amounts of the view sum to less than zero,
      that is when the displayed expenses exceed the income. */
  function NegativeBalanceWarning(view: seq<Transaction>): (warn: bool)
    ensures warn <==> Total(view) < 0.0
    ensures warn <==> Summarize(view).DisplayedExpenses() > Summarize(view).income
  {
    Summarize(view).balance < 0.0
  }

  /** Income plus expenses is the sum of all amounts, since every row is one or
      the other. */
  lemma {:induction false} BalanceIsTotal(rows: seq<Transaction>)
    ensures SumOfKind(rows, Income) + SumOfKind(rows, Expense) == Total(rows)
    decreases |rows|
  {
    if rows != [] {
      BalanceIsTotal(rows[..|rows| - 1]);
    }
  }

  /** Under the sign convention the income total is non-negative and the expense
      total non-positive. */
  lemma {:induction false} TotalsHaveTheirSigns(rows: seq<Transaction>)
    ensures AllSignConsistent(rows) ==> SumOfKind(rows, Income) >= 0.0 && SumOfKind(rows, Expense) <= 0.0
    decreases |rows|
  {
    if rows != [] && AllSignConsistent(rows) {
      var n := |rows| - 1;
      assert AllSignConsistent(rows[..n]) by {
        forall i | 0 <= i < n ensures SignConsistent(rows[..n][i]) {
          assert rows[..n][i] == rows[i];
        }
      }
      assert SignConsistent(rows[n]);
      TotalsHaveTheirSigns(rows[..n]);
    }
  }

  /** Adding a row moves exactly its kind's total by its amount. */
  lemma SumOfKindAppend(rows: seq<Transaction>, x: Transaction, kind: Kind)
    ensures SumOfKind(rows + [x], kind) == SumOfKind(rows, kind) + (if x.kind == kind then x.amount else 0.0)
  {
    assert (rows + [x])[..|rows|] == rows;
  }

  /** Adding an income raises the income total by the typed amount; adding an
      expense raises the displayed expenses by it; the other total stays put. */
  lemma AddEffectOnSummary(t: seq<Transaction>, u: string, f: FormInput)
    requires f.amount > 0.0 && f.category != ""
    ensures var before := Summarize(TransactionStore.OwnerView(t, u));
            var after := Summarize(TransactionStore.OwnerView(TransactionStore.Add(t, u, f), u));
            after.income == before.income + (if f.kind == Income then f.amount else 0.0)
            && after.DisplayedExpenses() == before.DisplayedExpenses() + (if f.kind == Expense then f.amount else 0.0)
  {
    var view := TransactionStore.OwnerView(t, u);
    TransactionStore.AddEffectOnViews(t, u, f, u);
    SumOfKindAppend(view, NewRow(u, f), Income);
    SumOfKindAppend(view, NewRow(u, f), Expense);
  }

  /** The summary of the three rows +100 income, -30 and -20 expense: income 100,
      displayed expenses 50, balance 50, no warning. */
  lemma ThreeRowExample(u: string)
    ensures var view := [Transaction(u, "2024-01-01", "salary", Income, 100.0, ""),
                         Transaction(u, "2024-01-02", "food", Expense, -30.0, ""),
                         Transaction(u, "2024-01-03", "bus", Expense, -20.0, "")];
            var s := Summarize(view);
            s.income == 100.0 && s.DisplayedExpenses() == 50.0 && s.balance == 50.0
            && !NegativeBalanceWarning(view)
  {
    var a := Transaction(u, "2024-01-01", "salary", Income, 100.0, "");
    var b := Transaction(u, "2024-01-02", "food", Expense, -30.0, "");
    var c := Transaction(u, "2024-01-03", "bus", Expense, -20.0, "");
    var view := [a, b, c];
    assert view[..2] == [a, b] && [a, b][..1] == [a] && [a][..0] == [];
    assert SumOfKind([a], Income) == SumOfKind([], Income) + 100.0;
    assert SumOfKind([a], Expense) == SumOfKind([], Expense) + 0.0;
    assert SumOfKind([a, b], Income) == 100.0 && SumOfKind([a, b], Expense) == -30.0;
    assert SumOfKind(view, Income) == 100.0 && SumOfKind(view, Expense) == -50.0;
  }
}
