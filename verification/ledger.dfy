/** The balance fold (App.tsx `balances`): every enumerated account starts at
    zero and each record moves at most the one account it names, by a rule
    chosen by its kind. */
module Ledger {
  import opened Transactions
  import opened Sums
  import Accounts

  type Balances = map<string, real>

  /** Every regular and loan account at zero, and no other key. */
  function Zero(): (m: Balances)
    ensures forall a :: a in m <==> Accounts.IsEnumerated(a)
    ensures forall a :: a in m ==> m[a] == 0.0
  {
    map a | a in Accounts.Regular + Accounts.Loans :: 0.0
  }

  /** What record `t` does to the balance of account `a`, read off the rule
      table one account at a time: a record only touches the non-empty account
      it names; deposits raise regular accounts and lower loan accounts,
      withdrawals lower any account, reloads lower it once paid, repairs raise
      it once priced and paid, loan draws raise loan accounts only, and
      repayments and unknown kinds do nothing. */
  function Effect(t: Transaction, a: string): real
  {
    if a == "" || a != t.bankAccount then 0.0
    else match t.kind
      case Deposit => if Accounts.IsLoan(a) then -t.amount else t.amount
      case Withdrawal => -t.amount
      case Reload => if t.isPaid then -t.amount else 0.0
      case Repair => if t.priceStatus == Added && t.isPaid then t.amount else 0.0
      case LoanAcquisition => if Accounts.IsLoan(a) then t.amount else 0.0
      case LoanRepayment => 0.0
      case Unknown(_) => 0.0
  }

  function EffectOn(a: string): Transaction -> real
  {
    t => Effect(t, a)
  }

  /** The net of all records on account `a`. */
  function Total(txs: seq<Transaction>, a: string): real
  {
    SumBy(txs, EffectOn(a))
  }

  /** One balance moved by `delta`; a name that was never seeded is left out
      of the map (the client would add it with a NaN value, which is never shown). */
  function Adjust(m: Balances, name: string, delta: real): (r: Balances)
    ensures r.Keys == m.Keys
    ensures forall a :: a in m && a != name ==> r[a] == m[a]
    ensures name in m ==> r[name] == m[name] + delta
  {
    if name in m then m[name := m[name] + delta] else m
  }

  /** One step of the client's `forEach`, written as its if/else-if chain. */
  function Apply(m: Balances, t: Transaction): (r: Balances)
    ensures r.Keys == m.Keys
    ensures forall a :: a in m ==> r[a] == m[a] + Effect(t, a)
  {
    var isLoan := Accounts.IsLoan(t.bankAccount);
    if t.kind == Deposit then
      if t.bankAccount != "" then
        if isLoan then Adjust(m, t.bankAccount, -t.amount)
        else Adjust(m, t.bankAccount, t.amount)
      else m
    else if t.kind == Withdrawal then
      if t.bankAccount != "" then Adjust(m, t.bankAccount, -t.amount) else m
    else if t.kind == Reload && t.isPaid then
      if t.bankAccount != "" then Adjust(m, t.bankAccount, -t.amount) else m
    else if t.kind == Repair && t.priceStatus == Added && t.isPaid then
      if t.bankAccount != "" then Adjust(m, t.bankAccount, t.amount) else m
    else if t.kind == LoanAcquisition && isLoan then
      Adjust(m, t.bankAccount, t.amount)
    else m
  }

  /** Folds `txs` into `m` in list order. */
  function Fold(m: Balances, txs: seq<Transaction>): Balances
  {
    if |txs| == 0 then m else Fold(Apply(m, txs[0]), txs[1..])
  }

  lemma {:induction false} FoldAdds(m: Balances, txs: seq<Transaction>)
    ensures Fold(m, txs).Keys == m.Keys
    ensures forall a :: a in m ==> Fold(m, txs)[a] == m[a] + Total(txs, a)
  {
    if |txs| > 0 {
      FoldAdds(Apply(m, txs[0]), txs[1..]);
    }
  }

  /** The balance of every enumerated account after the whole list: exactly the
      enumerated names are keys, and each holds the net of the records on it. */
  function ComputeBalances(txs: seq<Transaction>): (r: Balances)
    ensures forall a :: a in r <==> Accounts.IsEnumerated(a)
    ensures forall a :: a in r ==> r[a] == Total(txs, a)
  {
    FoldAdds(Zero(), txs);
    Fold(Zero(), txs)
  }

  /** With no records every enumerated account is at zero. */
  lemma EmptyLedger()
    ensures ComputeBalances([]) == Zero()
  {
  }

  /** The order of the records does not matter: any permutation of the list,
      sorted by date or not, gives the same balances. */
  lemma PermutationInvariant(xs: seq<Transaction>, ys: seq<Transaction>)
    requires multiset(xs) == multiset(ys)
    ensures ComputeBalances(xs) == ComputeBalances(ys)
  {
    forall a | Accounts.IsEnumerated(a)
      ensures ComputeBalances(xs)[a] == ComputeBalances(ys)[a]
    {
      SumByPermutation(xs, ys, EffectOn(a));
    }
  }

  /** A record appended to the list moves each account by its effect. */
  lemma AppendRecord(txs: seq<Transaction>, t: Transaction)
    ensures forall a :: Accounts.IsEnumerated(a) ==>
      ComputeBalances(txs + [t])[a] == ComputeBalances(txs)[a] + Effect(t, a)
  {
    forall a | Accounts.IsEnumerated(a)
      ensures ComputeBalances(txs + [t])[a] == ComputeBalances(txs)[a] + Effect(t, a)
    {
      SumBySnoc(txs, t, EffectOn(a));
    }
  }

  /** Every list of records gives balances for the same accounts. */
  lemma SameKeys(xs: seq<Transaction>, ys: seq<Transaction>)
    ensures ComputeBalances(xs).Keys == ComputeBalances(ys).Keys
  {
    var kx, ky := ComputeBalances(xs), ComputeBalances(ys);
    forall a
      ensures a in kx <==> a in ky
    {
    }
  }

  /** Replacing one record moves each account by the difference of the two effects. */
  lemma ReplaceRecord(txs: seq<Transaction>, i: int, t: Transaction)
    requires 0 <= i < |txs|
    ensures forall a :: Accounts.IsEnumerated(a) ==>
      ComputeBalances(txs[i := t])[a] == ComputeBalances(txs)[a] - Effect(txs[i], a) + Effect(t, a)
  {
    forall a | Accounts.IsEnumerated(a)
      ensures ComputeBalances(txs[i := t])[a] == ComputeBalances(txs)[a] - Effect(txs[i], a) + Effect(t, a)
    {
      SumByUpdate(txs, i, t, EffectOn(a));
    }
  }

  /** A record whose effect is zero on every account leaves all balances as they were. */
  lemma AppendNeutral(txs: seq<Transaction>, t: Transaction)
    requires forall a :: Effect(t, a) == 0.0
    ensures ComputeBalances(txs + [t]) == ComputeBalances(txs)
  {
    AppendRecord(txs, t);
  }

  /** The records the rule table ignores: a loan draw on a non-loan account,
      any repayment, an empty or unknown account, an unpaid reload, a repair
      that is not both priced and paid, and an unknown kind. */
  predicate Inert(t: Transaction)
  {
    || (t.kind == LoanAcquisition && !Accounts.IsLoan(t.bankAccount))
    || t.kind == LoanRepayment
    || t.kind.Unknown?
    || t.bankAccount == ""
    || !Accounts.IsEnumerated(t.bankAccount)
    || (t.kind == Reload && !t.isPaid)
    || (t.kind == Repair && !(t.priceStatus == Added && t.isPaid))
  }

  /** What an inert record does: nothing, to any enumerated account. */
  lemma InertEffect(t: Transaction, a: string)
    requires Inert(t) && Accounts.IsEnumerated(a)
    ensures Effect(t, a) == 0.0
  {
    Accounts.EnumeratedNonEmpty(a);
  }

  /** Two balance maps over the same keys that agree on every key are equal. */
  lemma SameBalances(before: Balances, after: Balances)
    requires after.Keys == before.Keys
    requires forall a :: a in before ==> after[a] == before[a]
    ensures after == before
  {
  }

  /** Inert records leave every enumerated balance unchanged. */
  lemma InertRecord(txs: seq<Transaction>, t: Transaction)
    requires Inert(t)
    ensures ComputeBalances(txs + [t]) == ComputeBalances(txs)
  {
    var before, after := ComputeBalances(txs), ComputeBalances(txs + [t]);
    AppendRecord(txs, t);
    forall a | a in before
      ensures after[a] == before[a]
    {
      InertEffect(t, a);
    }
    SameKeys(txs + [t], txs);
    SameBalances(before, after);
  }

  /** Two balance maps over the same accounts that differ at `acc` only. */
  lemma ShiftedAt(before: Balances, after: Balances, acc: string, v: real)
    requires after.Keys == before.Keys && acc in before && after[acc] == v
    requires forall a :: a in before && a != acc ==> after[a] == before[a]
    ensures after == before[acc := v]
  {
  }

  /** Appending a record moves its own account by `delta` and nothing else. */
  lemma AppendShifts(txs: seq<Transaction>, t: Transaction, delta: real)
    requires Accounts.IsEnumerated(t.bankAccount)
    requires Effect(t, t.bankAccount) == delta
    ensures ComputeBalances(txs + [t]) ==
      ComputeBalances(txs)[t.bankAccount := ComputeBalances(txs)[t.bankAccount] + delta]
  {
    var before, after, acc := ComputeBalances(txs), ComputeBalances(txs + [t]), t.bankAccount;
    AppendRecord(txs, t);
    SameKeys(txs + [t], txs);
    RuleTable(t);
    ShiftedAt(before, after, acc, before[acc] + delta);
  }

  /** The rule table, stated on the account a record names: it moves by the
      amount in the direction the kind dictates, or not at all; every other
      account is untouched. */
  lemma RuleTable(t: Transaction)
    requires Accounts.IsEnumerated(t.bankAccount)
    ensures var e, acc := Effect(t, t.bankAccount), t.bankAccount;
      && (t.kind == Deposit && !Accounts.IsLoan(acc) ==> e == t.amount)
      && (t.kind == Deposit && Accounts.IsLoan(acc) ==> e == -t.amount)
      && (t.kind == Withdrawal ==> e == -t.amount)
      && (t.kind == Reload ==> e == if t.isPaid then -t.amount else 0.0)
      && (t.kind == Repair ==> e == if t.priceStatus == Added && t.isPaid then t.amount else 0.0)
      && (t.kind == LoanAcquisition ==> e == if Accounts.IsLoan(acc) then t.amount else 0.0)
      && (t.kind == LoanRepayment || t.kind.Unknown? ==> e == 0.0)
    ensures forall a :: a != t.bankAccount ==> Effect(t, a) == 0.0
  {
    Accounts.EnumeratedNonEmpty(t.bankAccount);
  }

  /** A deposit into a regular account followed by a withdrawal of the same
      amount from it leaves every balance as it was. */
  lemma DepositThenWithdrawal(txs: seq<Transaction>, d: Transaction, w: Transaction)
    requires d.kind == Deposit && w.kind == Withdrawal
    requires d.bankAccount == w.bankAccount && d.bankAccount in Accounts.Regular
    requires d.amount == w.amount
    ensures ComputeBalances(txs + [d] + [w]) == ComputeBalances(txs)
  {
    var before, after := ComputeBalances(txs), ComputeBalances(txs + [d] + [w]);
    Accounts.RegularNotLoan(d.bankAccount);
    RuleTable(d);
    RuleTable(w);
    AppendRecord(txs, d);
    AppendRecord(txs + [d], w);
    forall a | a in before
      ensures after[a] == before[a]
    {
      assert Effect(d, a) + Effect(w, a) == 0.0;
    }
    SameKeys(txs + [d] + [w], txs);
    SameBalances(before, after);
  }

  /** A loan draw on a loan account paired with a deposit of the same amount
      into a regular account raises both balances by that amount. */
  lemma LoanPairing(txs: seq<Transaction>, draw: Transaction, funds: Transaction)
    requires draw.kind == LoanAcquisition && Accounts.IsLoan(draw.bankAccount)
    requires funds.kind == Deposit && funds.bankAccount in Accounts.Regular
    requires draw.amount == funds.amount
    ensures var before, after := ComputeBalances(txs), ComputeBalances(txs + [draw] + [funds]);
      && after.Keys == before.Keys
      && after[draw.bankAccount] == before[draw.bankAccount] + draw.amount
      && after[funds.bankAccount] == before[funds.bankAccount] + draw.amount
      && forall a :: a in before && a != draw.bankAccount && a != funds.bankAccount ==> after[a] == before[a]
  {
    var loan, bank := draw.bankAccount, funds.bankAccount;
    Accounts.RegularNotLoan(bank);
    Accounts.LoanNotRegular(loan);
    RuleTable(draw);
    RuleTable(funds);
    AppendRecord(txs, draw);
    AppendRecord(txs + [draw], funds);
    SameKeys(txs + [draw] + [funds], txs);
  }

  function Sample(kind: Kind, amount: real, account: string): Transaction
  {
    Transaction("", Stamp(0, 2025, 0), kind, amount, 0.0, account, "", true, "", "", "", NoStatus)
  }

  /** A deposit of 1000 and a withdrawal of 300 on the wallet leave 700 there. */
  lemma WalletScenario()
    ensures ComputeBalances([Sample(Deposit, 1000.0, "Wallet"), Sample(Withdrawal, 300.0, "Wallet")])["Wallet"] == 700.0
  {
    var d, w := Sample(Deposit, 1000.0, "Wallet"), Sample(Withdrawal, 300.0, "Wallet");
    Accounts.RegularNotLoan("Wallet");
    RuleTable(d);
    RuleTable(w);
    AppendRecord([], d);
    assert [] + [d] == [d];
    assert ComputeBalances([d])["Wallet"] == 1000.0;
    AppendRecord([d], w);
    assert [d] + [w] == [d, w];
  }

  /** A 5000 draw on the Peoples Bank loan with its funds deposited in Peoples
      Bank shows 5000 owed and 5000 held. */
  lemma LoanScenario()
    ensures var b := ComputeBalances([Sample(LoanAcquisition, 5000.0, "Peoples Bank Loan"), Sample(Deposit, 5000.0, "Peoples Bank")]);
      b["Peoples Bank Loan"] == 5000.0 && b["Peoples Bank"] == 5000.0
  {
    var l, d := Sample(LoanAcquisition, 5000.0, "Peoples Bank Loan"), Sample(Deposit, 5000.0, "Peoples Bank");
    assert Accounts.IsLoan("Peoples Bank Loan");
    LoanPairing([], l, d);
    assert [] + [l] + [d] == [l, d];
  }
}
