/** The fixed account enumerations (constants.ts) and the display rule that
    strips the loan suffix (App.tsx). Accounts are not stored anywhere: a
    record names one by its display string. */
module Accounts {

  /** Asset-like accounts: a positive balance is money held. */
  const Regular: seq<string> :=
    ["Sampath Bank", "Commercial Bank", "HNB Bank", "Peoples Bank",
     "Dialog Finance", "Solo", "Wallet"]

  /** Liability-like accounts: a positive balance is money owed. */
  const Loans: seq<string> := ["Peoples Bank Loan", "Dialog Finance Loan"]

  /** Card gradient per account name. */
  const Colors: map<string, string> := map[
    "Sampath Bank" := "from-orange-500 to-orange-600",
    "Commercial Bank" := "from-blue-500 to-blue-600",
    "HNB Bank" := "from-yellow-500 to-yellow-600",
    "Peoples Bank" := "from-red-500 to-red-600",
    "Dialog Finance" := "from-red-700 to-red-800",
    "Solo" := "from-purple-500 to-purple-600",
    "Wallet" := "from-slate-700 to-slate-800",
    "Peoples Bank Loan" := "from-red-900 to-red-950",
    "Dialog Finance Loan" := "from-red-900 to-red-950"
  ]

  const LoanSuffix: string := " Loan"

  predicate IsLoan(name: string) {
    name in Loans
  }

  /** Every name the balance map is seeded with. */
  predicate IsEnumerated(name: string) {
    name in Regular || name in Loans
  }

  predicate Distinct<T(==)>(s: seq<T>) {
    forall i, j :: 0 <= i < j < |s| ==> s[i] != s[j]
  }

  predicate EndsWith(s: string, suffix: string) {
    |suffix| <= |s| && s[|s| - |suffix|..] == suffix
  }

  /** The enumerations hold 7 and 2 distinct names, share none (so the
      regular/loan split the balance rules use is unambiguous), every loan
      name carries the suffix the display strips, and every name has a colour. */
  lemma EnumerationFacts()
    ensures |Regular| == 7 && Distinct(Regular)
    ensures |Loans| == 2 && Distinct(Loans)
    ensures forall r, l :: r in Regular && l in Loans ==> r != l
    ensures forall l :: l in Loans ==> EndsWith(l, LoanSuffix)
    ensures forall n :: IsEnumerated(n) ==> n in Colors
  {
  }

  /** `pat` occurs in `s` starting at position `k`. */
  predicate OccursAt(s: string, pat: string, k: int) {
    0 <= k && k + |pat| <= |s| && s[k..k + |pat|] == pat
  }

  /** A regular account is enumerated and is not a loan account. */
  lemma RegularNotLoan(name: string)
    requires name in Regular
    ensures IsEnumerated(name) && !IsLoan(name) && name != ""
  {
  }

  /** A loan account is enumerated, non-empty and not regular. */
  lemma LoanNotRegular(name: string)
    requires IsLoan(name)
    ensures IsEnumerated(name) && name !in Regular && name != ""
  {
  }

  /** No enumerated account has the empty name. */
  lemma EnumeratedNonEmpty(name: string)
    requires IsEnumerated(name)
    ensures name != ""
  {
  }

  /** Index of the first occurrence of `pat` in `s` at or after `k`, or -1. */
  function IndexFrom(s: string, pat: string, k: nat): (r: int)
    ensures r == -1 || (k <= r && OccursAt(s, pat, r))
    ensures forall j :: k <= j && (r < 0 || j < r) ==> !OccursAt(s, pat, j)
    decreases |s| + 1 - k
  {
    if k + |pat| > |s| then -1
    else if OccursAt(s, pat, k) then k
    else IndexFrom(s, pat, k + 1)
  }

  /** `s.replace(pat, rep)` with a string pattern: only the first occurrence is replaced. */
  function ReplaceFirst(s: string, pat: string, rep: string): string
  {
    var k := IndexFrom(s, pat, 0);
    if k < 0 then s else s[..k] + rep + s[k + |pat|..]
  }

  /** The label shown for an outstanding loan: the name with " Loan" removed. */
  function LoanLabel(name: string): string
  {
    ReplaceFirst(name, LoanSuffix, "")
  }

  /** Stripping the suffix from each loan name leaves the regular account the
      loan was drawn from, and putting the suffix back restores the name. */
  lemma LoanLabels()
    ensures forall l :: l in Loans ==> LoanLabel(l) + LoanSuffix == l && LoanLabel(l) in Regular
  {
    var p, d := "Peoples Bank Loan", "Dialog Finance Loan";
    assert EndsWith(p, LoanSuffix) && EndsWith(d, LoanSuffix);
    assert forall k :: 0 <= k < |p| - |LoanSuffix| + 1 ==> p[k] != LoanSuffix[1];
    assert forall k :: 0 <= k < |d| - |LoanSuffix| + 1 ==> d[k] != LoanSuffix[1];
    SuffixOnlyAtEnd(p, LoanSuffix);
    SuffixOnlyAtEnd(d, LoanSuffix);
    assert LoanLabel(p) == "Peoples Bank";
    assert LoanLabel(d) == "Dialog Finance";
  }

  /** When the second character of `pat` (a capital L for the loan suffix)
      appears in `s` only inside its trailing `pat`, the first occurrence is
      the trailing one, so replacing it strips exactly the suffix. */
  lemma SuffixOnlyAtEnd(s: string, pat: string)
    requires |pat| >= 2 && EndsWith(s, pat)
    requires forall k :: 0 <= k < |s| - |pat| + 1 ==> s[k] != pat[1]
    ensures IndexFrom(s, pat, 0) == |s| - |pat|
    ensures ReplaceFirst(s, pat, "") + pat == s
  {
    var r := IndexFrom(s, pat, 0);
    assert OccursAt(s, pat, |s| - |pat|);
    assert s[..r] + pat == s;
  }
}
