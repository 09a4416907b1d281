/** Monthly income and expense: the summary cards (App.tsx `monthlyStats`)
    and the bar chart (Charts.tsx `IncomeExpenseChart`) compute the same two
    figures in two ways. The reference month is an explicit parameter. */
module Monthly {
  import opened Transactions
  import opened Sums

  datatype MonthlyStats = MonthlyStats(income: real, expense: real, net: real)

  /** The two bars of the chart. */
  datatype Bars = Bars(income: real, expense: real)

  predicate InMonth(t: Transaction, ym: YearMonth) {
    t.date.month == ym.month && t.date.year == ym.year
  }

  /** Deposits and paid repairs are income; the price status plays no part. */
  predicate IsIncome(t: Transaction) {
    t.kind == Deposit || (t.kind == Repair && t.isPaid)
  }

  /** Withdrawals and paid reloads are expense. */
  predicate IsExpense(t: Transaction) {
    t.kind == Withdrawal || (t.kind == Reload && t.isPaid)
  }

  function IncomeTerm(): Transaction -> real {
    t => if IsIncome(t) then t.amount else 0.0
  }

  function ExpenseTerm(): Transaction -> real {
    t => if IsExpense(t) then t.amount else 0.0
  }

  function IncomeIn(ym: YearMonth): Transaction -> real {
    t => if InMonth(t, ym) && IsIncome(t) then t.amount else 0.0
  }

  function ExpenseIn(ym: YearMonth): Transaction -> real {
    t => if InMonth(t, ym) && IsExpense(t) then t.amount else 0.0
  }

  /** The month's income: the amounts of its deposits and paid repairs. */
  function Income(txs: seq<Transaction>, ym: YearMonth): real {
    SumBy(txs, IncomeIn(ym))
  }

  /** The month's expense: the amounts of its withdrawals and paid reloads. */
  function Expense(txs: seq<Transaction>, ym: YearMonth): real {
    SumBy(txs, ExpenseIn(ym))
  }

  /** The summary cards: one pass over the records with two running totals,
      adding a record only when it falls in the reference month. */
  method ComputeMonthlyStats(txs: seq<Transaction>, ym: YearMonth) returns (s: MonthlyStats)
    ensures s.income == Income(txs, ym)
    ensures s.expense == Expense(txs, ym)
    ensures s.net == s.income - s.expense
  {
    var income, expense := 0.0, 0.0;
    var i := 0;
    while i < |txs|
      invariant 0 <= i <= |txs|
      invariant income == Income(txs[..i], ym)
      invariant expense == Expense(txs[..i], ym)
    {
      var t := txs[i];
      assert txs[..i + 1] == txs[..i] + [t];
      SumBySnoc(txs[..i], t, IncomeIn(ym));
      SumBySnoc(txs[..i], t, ExpenseIn(ym));
      if InMonth(t, ym) {
        if IsIncome(t) {
          income := income + t.amount;
        }
        if IsExpense(t) {
          expense := expense + t.amount;
        }
      }
      i := i + 1;
    }
    assert txs[..|txs|] == txs;
    s := MonthlyStats(income, expense, income - expense);
  }

  /** The records dated in the reference month, in list order. */
  function ThisMonth(txs: seq<Transaction>, ym: YearMonth): (r: seq<Transaction>)
    ensures forall i :: 0 <= i < |r| ==> InMonth(r[i], ym)
    ensures forall t :: t in txs && InMonth(t, ym) ==> t in r
    ensures multiset(r) <= multiset(txs)
    ensures forall t :: multiset(r)[t] == if InMonth(t, ym) then multiset(txs)[t] else 0
  {
    if |txs| == 0 then []
    else
      assert txs == [txs[0]] + txs[1..];
      var rest := ThisMonth(txs[1..], ym);
      if InMonth(txs[0], ym) then [txs[0]] + rest else rest
  }

  /** The filter works record by record: filtering two lists one after the
      other is filtering each and joining the results, so every in-month copy
      is kept in its original place in the order. */
  lemma {:induction false} ThisMonthConcat(xs: seq<Transaction>, ys: seq<Transaction>, ym: YearMonth)
    ensures ThisMonth(xs + ys, ym) == ThisMonth(xs, ym) + ThisMonth(ys, ym)
    decreases |xs|
  {
    if |xs| > 0 {
      assert (xs + ys)[1..] == xs[1..] + ys;
      ThisMonthConcat(xs[1..], ys, ym);
    } else {
      assert xs + ys == ys;
    }
  }

  /** The chart: filter to the month first, then total income and expense. */
  function ChartBars(txs: seq<Transaction>, ym: YearMonth): Bars
  {
    var monthly := ThisMonth(txs, ym);
    Bars(SumBy(monthly, IncomeTerm()), SumBy(monthly, ExpenseTerm()))
  }

  /** The chart's bars equal the summary cards' income and expense for the
      same records and the same reference month. */
  lemma {:induction false} ChartMatchesStats(txs: seq<Transaction>, ym: YearMonth)
    ensures ChartBars(txs, ym) == Bars(Income(txs, ym), Expense(txs, ym))
  {
    if |txs| > 0 {
      ChartMatchesStats(txs[1..], ym);
      var t, rest := txs[0], ThisMonth(txs[1..], ym);
      assert Income(txs, ym) == IncomeIn(ym)(t) + Income(txs[1..], ym);
      assert Expense(txs, ym) == ExpenseIn(ym)(t) + Expense(txs[1..], ym);
      if InMonth(t, ym) {
        var m := [t] + rest;
        assert ThisMonth(txs, ym) == m;
        assert m[0] == t && m[1..] == rest;
        assert SumBy(m, IncomeTerm()) == IncomeTerm()(t) + SumBy(rest, IncomeTerm());
        assert SumBy(m, ExpenseTerm()) == ExpenseTerm()(t) + SumBy(rest, ExpenseTerm());
      } else {
        assert ThisMonth(txs, ym) == rest;
      }
    }
  }

  /** Appending one record adds its income and expense contribution, which is
      zero unless it falls in the reference month. */
  lemma AppendRecord(txs: seq<Transaction>, t: Transaction, ym: YearMonth)
    ensures Income(txs + [t], ym) == Income(txs, ym) + (if InMonth(t, ym) && IsIncome(t) then t.amount else 0.0)
    ensures Expense(txs + [t], ym) == Expense(txs, ym) + (if InMonth(t, ym) && IsExpense(t) then t.amount else 0.0)
  {
    SumBySnoc(txs, t, IncomeIn(ym));
    SumBySnoc(txs, t, ExpenseIn(ym));
  }

  /** A record outside the reference month changes neither figure, whatever its kind. */
  lemma OtherMonthIgnored(txs: seq<Transaction>, t: Transaction, ym: YearMonth)
    requires !InMonth(t, ym)
    ensures Income(txs + [t], ym) == Income(txs, ym)
    ensures Expense(txs + [t], ym) == Expense(txs, ym)
  {
    AppendRecord(txs, t, ym);
  }

  /** Loan draws and repayments are never income or expense, even in the month. */
  lemma LoansNotCounted(txs: seq<Transaction>, t: Transaction, ym: YearMonth)
    requires t.kind == LoanAcquisition || t.kind == LoanRepayment
    ensures Income(txs + [t], ym) == Income(txs, ym)
    ensures Expense(txs + [t], ym) == Expense(txs, ym)
  {
    AppendRecord(txs, t, ym);
  }

  /** A deposit in the month, such as the funds of a loan, counts fully as income. */
  lemma DepositCounted(txs: seq<Transaction>, t: Transaction, ym: YearMonth)
    requires t.kind == Deposit && InMonth(t, ym)
    ensures Income(txs + [t], ym) == Income(txs, ym) + t.amount
    ensures Expense(txs + [t], ym) == Expense(txs, ym)
  {
    AppendRecord(txs, t, ym);
  }

  /** Like the balances, the monthly figures do not depend on record order. */
  lemma PermutationInvariant(xs: seq<Transaction>, ys: seq<Transaction>, ym: YearMonth)
    requires multiset(xs) == multiset(ys)
    ensures Income(xs, ym) == Income(ys, ym)
    ensures Expense(xs, ym) == Expense(ys, ym)
  {
    SumByPermutation(xs, ys, IncomeIn(ym));
    SumByPermutation(xs, ys, ExpenseIn(ym));
  }

  /** Replacing one record changes each figure by the difference of its contributions. */
  lemma ReplaceRecord(txs: seq<Transaction>, i: int, t: Transaction, ym: YearMonth)
    requires 0 <= i < |txs|
    ensures Income(txs[i := t], ym) == Income(txs, ym) - IncomeIn(ym)(txs[i]) + IncomeIn(ym)(t)
    ensures Expense(txs[i := t], ym) == Expense(txs, ym) - ExpenseIn(ym)(txs[i]) + ExpenseIn(ym)(t)
  {
    SumByUpdate(txs, i, t, IncomeIn(ym));
    SumByUpdate(txs, i, t, ExpenseIn(ym));
  }
}
