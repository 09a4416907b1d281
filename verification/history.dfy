/** The history list is sorted newest first after every fetch (App.tsx); the
    balances and monthly figures computed from it do not depend on that order. */
module History {
  import opened Transactions
  import Ledger
  import Monthly

  predicate NewestFirst(s: seq<Transaction>) {
    forall i, j :: 0 <= i < j < |s| ==> s[i].date.time >= s[j].date.time
  }

  /** Places `t` before the first record that is not newer than it; since
      the sort inserts earlier records into the sorted rest of the list, records
      with equal times keep their list order. */
  function Insert(t: Transaction, s: seq<Transaction>): (r: seq<Transaction>)
    requires NewestFirst(s)
    ensures NewestFirst(r)
    ensures multiset(r) == multiset(s) + multiset{t}
    ensures |r| == |s| + 1
    ensures r[0] == t || (|s| > 0 && r[0] == s[0])
  {
    if |s| == 0 then [t]
    else if s[0].date.time <= t.date.time then
      ConsSorted(t, s);
      [t] + s
    else
      var rest := Insert(t, s[1..]);
      ConsSorted(s[0], rest);
      assert s == [s[0]] + s[1..];
      [s[0]] + rest
  }

  /** A record no older than the head of a newest-first list can go in front of it. */
  lemma ConsSorted(x: Transaction, s: seq<Transaction>)
    requires NewestFirst(s) && (|s| == 0 || x.date.time >= s[0].date.time)
    ensures NewestFirst([x] + s)
  {
    var r := [x] + s;
    forall i, j | 0 <= i < j < |r|
      ensures r[i].date.time >= r[j].date.time
    {
      assert r[j] == s[j - 1];
      if i > 0 {
        assert r[i] == s[i - 1];
      } else if j > 1 {
        assert s[0].date.time >= s[j - 1].date.time;
      }
    }
  }

  /** The list sorted by descending date: a newest-first ordering of the
      same records. */
  function SortNewestFirst(s: seq<Transaction>): (r: seq<Transaction>)
    ensures NewestFirst(r)
    ensures multiset(r) == multiset(s)
  {
    if |s| == 0 then []
    else
      assert s == [s[0]] + s[1..];
      Insert(s[0], SortNewestFirst(s[1..]))
  }

  /** Sorting for display changes neither the balances nor the monthly figures. */
  lemma SortingKeepsTotals(s: seq<Transaction>, ym: YearMonth)
    ensures Ledger.ComputeBalances(SortNewestFirst(s)) == Ledger.ComputeBalances(s)
    ensures Monthly.Income(SortNewestFirst(s), ym) == Monthly.Income(s, ym)
    ensures Monthly.Expense(SortNewestFirst(s), ym) == Monthly.Expense(s, ym)
  {
    Ledger.PermutationInvariant(SortNewestFirst(s), s);
    Monthly.PermutationInvariant(SortNewestFirst(s), s, ym);
  }
}
