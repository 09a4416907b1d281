/** The transaction record as the client holds it (types.ts). */
module Transactions {

  /** The six kinds the client knows, plus any other name a stored row may
      carry: the store writes "general" when a record arrives without a type. */
  datatype Kind =
    | Deposit
    | Withdrawal
    | Reload
    | Repair
    | LoanAcquisition
    | LoanRepayment
    | Unknown(name: string)

  /** A repair's pricing state; rows written without one carry the empty string. */
  datatype PriceStatus = NoStatus | Pending | Added

  /** A point in time, with the local calendar fields the client reads from it:
      `time` is `getTime()` in milliseconds, `year` is `getFullYear()` and
      `month` is `getMonth()` (0 for January). */
  datatype Stamp = Stamp(time: int, year: int, month: int)

  /** A calendar month used as the reference for monthly figures. */
  datatype YearMonth = YearMonth(year: int, month: int)

  datatype Transaction = Transaction(
    id: string,
    date: Stamp,
    kind: Kind,
    amount: real,
    originalAmount: real,
    bankAccount: string,
    reason: string,
    isPaid: bool,
    customerName: string,
    phoneName: string,
    fault: string,
    priceStatus: PriceStatus)

  predicate IsKnownName(name: string) {
    name in ["deposit", "withdrawal", "reload", "repair", "loan_acquisition", "loan_repayment"]
  }

  /** The wire name of a kind. */
  function KindName(k: Kind): string
  {
    match k
    case Deposit => "deposit"
    case Withdrawal => "withdrawal"
    case Reload => "reload"
    case Repair => "repair"
    case LoanAcquisition => "loan_acquisition"
    case LoanRepayment => "loan_repayment"
    case Unknown(name) => name
  }

  /** The kind a wire name denotes; the client compares `type` with the six names only. */
  function KindOf(name: string): (k: Kind)
    ensures k.Unknown? <==> !IsKnownName(name)
    ensures KindName(k) == name
  {
    if name == "deposit" then Deposit
    else if name == "withdrawal" then Withdrawal
    else if name == "reload" then Reload
    else if name == "repair" then Repair
    else if name == "loan_acquisition" then LoanAcquisition
    else if name == "loan_repayment" then LoanRepayment
    else Unknown(name)
  }

  /** Naming a kind and reading the name back gives the kind again, for every
      kind a stored row can denote. */
  lemma KindNameRoundTrip(k: Kind)
    requires k.Unknown? ==> !IsKnownName(k.name)
    ensures KindOf(KindName(k)) == k
  {
  }

  /** The stored text of a price status. */
  function StatusName(p: PriceStatus): string
  {
    match p
    case NoStatus => ""
    case Pending => "Pending"
    case Added => "Added"
  }

  /** The client only ever tests `price_status === 'Added'`; every other text
      behaves like a missing status. */
  function StatusOf(text: string): (p: PriceStatus)
    ensures p == Added <==> text == "Added"
    ensures p == Pending <==> text == "Pending"
  {
    if text == "Added" then Added
    else if text == "Pending" then Pending
    else NoStatus
  }

  lemma StatusNameRoundTrip(p: PriceStatus)
    ensures StatusOf(StatusName(p)) == p
  {
  }
}
