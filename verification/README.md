# Money manager: a Dafny model of the ledger, the forms and the store

This project models the core of a small personal money tracker: a React
client (`App.tsx`, `components/Charts.tsx`, `components/EditModal.tsx`,
`constants.ts`, `types.ts`, `services/api.ts`) over a Google Apps Script
backend (`backend.js`) that keeps one sheet of transactions.

- **Accounts** (`accounts.dfy`): the seven regular accounts and the two loan
  accounts, their colours, and the `' Loan'` suffix the display strips.
- **Transactions** (`transactions.dfy`): the record shape with its six kinds
  (plus any other text the sheet may hold), its price status and an explicit
  date stamp (time, local year, local month).
- **Values** (`values.dfy`): the JavaScript values that cross the wire
  (text, number, NaN, boolean, null, undefined), with truthiness, `||`,
  `===`, `Number()`, `String()` and `JSON.stringify` of a number.
- **Numbers** (`numbers.dfy`): `parseFloat`, `Number(text)` and
  `Number.prototype.toString` over exact decimals, with the round trip the
  settlement dialog relies on.
- **Ledger** (`ledger.dfy`): the `balances` fold, rule by rule.
- **Monthly** (`monthly.dfy`): `monthlyStats` and the bar chart's
  income/expense.
- **Categories** (`categories.dfy`): the pie chart's expense breakdown.
- **History** (`history.dfy`): the newest-first sort of fetched records.
- **Store** (`store.dfy`): `doGet`/`doPost` over an abstract table
  (`seq<seq<Value>>`): the user and PIN gates, the 13-column append with its
  defaults, fetch by user, and update by id and user with type coercion.
- **Records** (`records.dfy`): how a stored row reads back as a client record.
- **Forms** (`forms.dfy`): `handleSubmit` of the five creation modals, the
  records it posts through `api.addTransaction`, the rows they become, and
  what they do to the balances and the month.
- **Inputs** (`inputs.dfy`): `handleInputChange` filling the form, including
  the reload modal's checkbox.
- **Settlement** (`settlement.dfy`): the edit dialog: its validation, the
  patch it sends with the PIN, the row the store writes, and what settling
  does to the balances and the month.

Amounts are exact `real`s. The parts of the environment the code reads are
parameters:

- `new Date(text)` is `calendar: string -> Stamp`;
- `new Date(text).toISOString()` is `iso: string -> string`;
- the client's UUIDs and clock, and the server's UUIDs and clock, are
  `Env` / `uuid` / `now`;
- the reference month is a `YearMonth`.

## Model

| member | source | states |
|---|---|---|
| Accounts.EnumerationFacts | constants.ts:7-32 | Seven distinct regular names and two distinct loan names; no name is in both lists; every loan name ends in " Loan"; every name of either list has a colour. |
| Accounts.RegularNotLoan | constants.ts:7-20 | A regular account is enumerated, non-empty and not a loan account, so the fold's regular/loan test is unambiguous. |
| Accounts.LoanNotRegular | constants.ts:17-20 | A loan account is enumerated, non-empty and not in the regular list. |
| Accounts.IndexFrom | App.tsx:257 | `indexOf` from a position: -1 exactly when the pattern occurs at no later position, otherwise the first position where it occurs. |
| Accounts.LoanLabels | App.tsx:257 | Stripping " Loan" from each loan account name leaves a regular account name, and putting the suffix back restores the loan name. |
| Accounts.SuffixOnlyAtEnd | App.tsx:257 | `replace` removes a suffix that cannot start earlier in the text, so the label plus the suffix is the original text. |
| Values.NumberOf | backend.js:129 | `Number(v)` is a number or NaN, and a number is left as it is. |
| Transactions.KindOf | types.ts:1-7 | Reading a type name gives one of the six kinds exactly for the six known names, and the kind's name is the text read. |
| Transactions.KindNameRoundTrip | types.ts:1-7 | Naming a kind and reading the name back gives the kind. |
| Transactions.StatusOf | types.ts:21 | The price status is Added exactly for "Added" and Pending exactly for "Pending". |
| Transactions.StatusNameRoundTrip | types.ts:21 | Naming a price status and reading it back gives the status. |
| Numbers.ParseFloat | App.tsx:99 | `parseFloat` yields a number exactly when the text, after leading white space, starts with a numeral. |
| Numbers.ToNumber | backend.js:129 | `Number(text)` is 0 for blank text. Other text is a number exactly when, once trimmed, the whole of it is one decimal literal, and the number is that literal's value. |
| Numbers.NumberAgreesWithParseFloat | backend.js:129 | On non-blank text that `Number` accepts, `parseFloat` gives the same number. |
| Numbers.LayoutRoundTrip | components/EditModal.tsx:43 | A sign, digits and optional fraction digits laid out as `toString` does read back, under both `parseFloat` and `Number`, as the numeral's value. |
| Numbers.ShowRoundTrip | components/EditModal.tsx:23 | An amount with at most twenty decimal places, written with `toString`, reads back as itself under `parseFloat` and under `Number`. |
| Ledger.Zero | App.tsx:44-46 | The starting map has exactly the nine enumerated names as keys, each at 0. |
| Ledger.Adjust | App.tsx:53 | `+=` on one name changes that name by the delta, keeps the keys, and leaves every other name alone. |
| Ledger.Apply | App.tsx:48-70 | One record moves every enumerated balance by its effect and keeps the keys. |
| Ledger.ComputeBalances | App.tsx:43-72 | The balance map has exactly the enumerated names as keys, and each balance is the sum of the effects of the records. |
| Ledger.EmptyLedger | App.tsx:44-46 | With no records every enumerated name has balance 0. |
| Ledger.PermutationInvariant | App.tsx:48-70 | Any permutation of the records gives the same balance map. |
| Ledger.AppendRecord | App.tsx:48-70 | One more record changes each enumerated balance by that record's effect. |
| Ledger.ReplaceRecord | App.tsx:48-70 | Replacing one record changes each enumerated balance by the new effect minus the old one. |
| Ledger.RuleTable | App.tsx:49-69 | The case table on an enumerated account: a deposit adds on a regular account and subtracts on a loan account; a withdrawal subtracts; a reload subtracts only when paid; a repair adds only when "Added" and paid; a loan draw adds only on a loan account; a repayment or unknown type does nothing; no other account moves. |
| Ledger.InertEffect | App.tsx:52-69 | A record that is inert has no effect on any enumerated balance. Inert means a loan draw on a non-loan account, a repayment, an unknown type, an empty account or an unlisted account. |
| Ledger.InertRecord | App.tsx:52-69 | Adding an inert record leaves the whole balance map unchanged. |
| Ledger.AppendShifts | App.tsx:48-70 | A record whose effect on its enumerated account is `delta` moves that account by `delta` and no other. |
| Ledger.DepositThenWithdrawal | App.tsx:51-59 | A deposit and a withdrawal of the same amount on the same regular account cancel out. |
| Ledger.LoanPairing | App.tsx:121-139 | A loan draw on a loan account followed by a deposit of the same amount into a regular account raises both accounts by that amount and leaves every other balance alone. |
| Ledger.WalletScenario | App.tsx:51-59 | Depositing 1000 into Wallet and withdrawing 300 leaves 700. |
| Ledger.LoanScenario | App.tsx:67-68 | Drawing 5000 on Peoples Bank Loan and depositing it into Peoples Bank shows 5000 of debt and 5000 of funds. |
| Monthly.ComputeMonthlyStats | App.tsx:74-88 | The loop's income and expense are the month's income and expense sums, and net is income minus expense. |
| Monthly.ThisMonth | components/Charts.tsx:15-18 | The chart's filter keeps only records of the reference month and year. Each such record appears as many times as in the input, and the filter invents none. |
| Monthly.ThisMonthConcat | components/Charts.tsx:15-18 | The filter distributes over joining lists, so the kept records stay in their original order. |
| Monthly.ChartMatchesStats | components/Charts.tsx:20-31 | The bar chart's income and expense equal the income and expense of `monthlyStats` for the same records and month. |
| Monthly.AppendRecord | App.tsx:79-85 | One more record adds its amount to income when it is in the month and a deposit or paid repair, and to expense when it is in the month and a withdrawal or paid reload. |
| Monthly.OtherMonthIgnored | App.tsx:81 | A record from another month or year changes neither sum. |
| Monthly.LoansNotCounted | App.tsx:82-83 | A loan draw or repayment changes neither sum. |
| Monthly.DepositCounted | App.tsx:82 | A deposit in the month adds its amount to income and nothing to expense. |
| Monthly.PermutationInvariant | App.tsx:79-85 | Any permutation of the records gives the same income and expense. |
| Monthly.ReplaceRecord | App.tsx:79-85 | Replacing one record changes income and expense by the new record's contribution minus the old one's. |
| Categories.FirstWord | components/Charts.tsx:60 | `split(' ')[0]` is the longest prefix without a space: the whole text, or the text up to its first space. |
| Categories.AddTo | components/Charts.tsx:61 | Adding an amount under a key keeps the names distinct and adds the key to the names when it is new. |
| Categories.AddToValues | components/Charts.tsx:61 | Adding under a key raises that key's value by the amount, leaves every other value alone, raises the total by the amount, and keeps earlier names in their first-insertion order. |
| Categories.Breakdown | components/Charts.tsx:54-65 | One slice per distinct key. The keys are exactly those of the withdrawals and reloads, whatever their paid flag or date: "Reload" for a reload, and the first word of the reason or "Other" for a withdrawal. Each value is the sum of the amounts under its key, and the values sum to the total of all withdrawals and reloads. |
| History.Insert | App.tsx:32 | Inserting into a newest-first list keeps it newest first and adds exactly the one record. |
| History.SortNewestFirst | App.tsx:32 | The sort's output is newest first and a permutation of its input. |
| History.SortingKeepsTotals | App.tsx:32 | Sorting changes neither the balances nor the month's income and expense. |
| Store.GetSheet | backend.js:49-63 | An existing sheet is used as it is; a missing one is created holding exactly the header row. |
| Store.ColumnMap | backend.js:114-115 | Every header name maps to the last column that carries it, and no other name is mapped. |
| Store.ToRecord | backend.js:73-78 | A fetched record has a field for each header name, holding the cell under that name's last column. |
| Store.Owned | backend.js:72 | The filter keeps exactly the rows whose third cell is `===` the requested user, each as many times as it occurs in the sheet. |
| Store.OwnedConcat | backend.js:72 | The filter distributes over joining runs of rows, so the kept rows stay in sheet order. |
| Store.Fetch | backend.js:65-82 | Fetch returns the user's rows, in sheet order, each as a header-to-cell record. |
| Store.NewRow | backend.js:87-101 | The appended row has 13 cells in header order: the user in the third, `is_paid` true only for `true` or "TRUE", and every other column the payload's field or, when that is falsy, its default: a fresh id, the current time, "general", 0 or "". |
| Store.Coerce | backend.js:126-134 | Amounts are written through `Number`; `is_paid` is written as true exactly for `true`, "true" or "TRUE"; every other value is written as sent. |
| Store.PatchRow | backend.js:124-137 | Every column an update key names gets the coerced value, and every other cell reads as before. |
| Store.FirstMatch | backend.js:120-121 | The row found is the first from row 1 on whose id and user cells are `===` the request's, or none matches. |
| Store.Update | backend.js:108-147 | Success exactly when some row matches and updates were sent. Then only the first matching row is patched. Without a match the reply is "Transaction not found" and the sheet is unchanged. |
| Store.Post | backend.js:19-45 | Without a truthy user the request fails with "User ID required" and writes nothing. An update succeeds only with `String(pin)` equal to the secure PIN. Any other action fails with "Invalid Action" and writes nothing. |
| Store.Get | backend.js:8-17 | Without a user the reply is the "User ID required" error. With one, the sheet is read (created if missing) and the reply lists that user's records as `handleFetchData` builds them. |
| Store.HandleUpdate | backend.js:108-147 | The loop implementation (column map, row scan, key-by-key writes, not-found throw) computes exactly `Update`. |
| Store.BuildColumnMap | backend.js:114-115 | The `forEach` over the header builds exactly the column map. |
| Store.FindRow | backend.js:117-142 | The row scan finds a row exactly when there is a first match, and stops at it. |
| Store.PatchStep | backend.js:124-137 | The `Object.keys(updates).forEach` loop writes exactly the patched row. |
| Store.HeaderColumns | backend.js:56-60 | Under the created header, each column name maps to its own position. |
| Store.HeaderKeysOnly | backend.js:125 | Under the created header, only the thirteen names have a column, so any other update key is ignored. |
| Store.AddThenFetch | backend.js:84-106 | An add with a payload succeeds and appends exactly the one new row. A later fetch returns what it returned before plus that row's record when the fetching user posted it, and nothing more for anyone else. |
| Store.AddThenGet | backend.js:8-17 | After an add, a user's `doGet` listing is the earlier listing plus the new record when the row is theirs, and unchanged otherwise. |
| Store.PinGate | backend.js:31-33 | An update from a user is refused with "Incorrect PIN", writing nothing, exactly when `String(pin)` differs from "239535". |
| Store.NumericPinAccepted | backend.js:31 | The PIN sent as the number 239535 passes the `String` comparison, as does the text "239535". |
| Store.PatchCanonical | backend.js:124-137 | Under the created header, a patched cell holds the coerced update value when its column name is an update key, and the old cell otherwise. |
| Store.UpdateTouchesOneRow | backend.js:120-141 | A successful update keeps the sheet's size and changes only one row, which is a matching one. |
| Records.Decode | types.ts:9-22 | A record the client accepts carries its amount, paid flag, account and type name in those fields. |
| Records.FetchedFields | backend.js:75-77 | Under the created header each field the client reads is the cell of its column. |
| Records.StoredRoundTrip | backend.js:71-79 | A transaction stored as a row and fetched back reads as itself, when its date text denotes its date. |
| Forms.Payloads | App.tsx:95-140 | Deposit, withdraw, reload and repair each post one record, a loan posts two, and an unknown modal posts none. |
| Forms.Stamped | services/api.ts:26 | `addTransaction` overrides `id` and `date` with a fresh id and the current time and keeps every other field. |
| Forms.SendAppends | App.tsx:121-139 | Records are posted in order, each only after the last one succeeded. Each becomes one appended row, and the submission succeeds exactly when there was a record to send. |
| Forms.SubmitAppends | App.tsx:95-140 | A submission succeeds exactly for the five known modals and appends one row per record. Otherwise nothing is written. |
| Forms.Intended | App.tsx:95-140 | The reference transactions: one per single-record modal and two for a loan. Each has its client id and client date and a known kind. |
| Forms.CarriedRow | backend.js:87-101 | A payload that carries a transaction's fields becomes exactly the row that stores it. |
| Forms.TypedCarries | App.tsx:102 | Adding the type and paid flag to a body that carries a transaction's fields, then stamping it, carries the whole transaction. |
| Forms.PlainCarries | App.tsx:101-104 | A deposit or withdrawal payload is typed as such, paid, and carries the form's amount, account and reason. |
| Forms.ReloadCarries | App.tsx:105-111 | A reload payload is paid exactly when the form says "true", and its form date is replaced by the send time. |
| Forms.RepairCarries | App.tsx:112-120 | A new repair is unpaid. Its original amount is the price, and its status is "Added" exactly when the price is above 0, else "Pending". |
| Forms.LoanCarries | App.tsx:121-139 | The loan's first record is a paid draw on the loan account with reason "Loan Taken: " plus the purpose. The second is a paid deposit of the same amount into the chosen account with reason "Loan Funds Received". |
| Forms.PayloadsCarry | App.tsx:99-140 | Every payload, once stamped, carries its reference transaction. |
| Forms.RowReadsBack | App.tsx:95-140 | Each row a submission appends reads back as its reference transaction. |
| Forms.SubmittedRecords | App.tsx:95-140 | After a submission, the appended rows read back exactly as the reference transactions, in order. |
| Forms.NewRecordShifts | App.tsx:101-111 | On an enumerated account, a new deposit raises a regular account and lowers a loan account by the amount; a withdrawal, or a reload marked paid, lowers it; an unpaid reload changes nothing. No other balance moves. |
| Forms.NewRepairInert | App.tsx:112-120 | Creating a repair changes no balance and neither monthly sum. |
| Forms.NewLoanShifts | App.tsx:121-139 | A loan raises the loan account's debt and the receiving account's funds by the amount, and no other balance. |
| Forms.NewLoanIncome | App.tsx:121-139 | Of a loan's two records only the funds deposit counts as income, in its month; expenses do not change. |
| Inputs.Apply | App.tsx:91-93 | As written, a checkbox click always writes its `value` "true", so afterwards the reload reads as paid. |
| Inputs.ApplyChecked | App.tsx:386 | The corrected handler: after a click the reload reads as paid exactly when the box is now checked. |
| Inputs.LastClick | App.tsx:386 | There is no last click exactly when every change was a text edit. |
| Inputs.FilledPaid | App.tsx:91-93 | As written, a reload is paid exactly when the box was ever clicked, or the form already said so, whatever state the box was left in. |
| Inputs.UncheckedButPaid | App.tsx:386 | As written, checking and then unchecking the box still leaves the reload paid. |
| Inputs.FilledCheckedPaid | App.tsx:109 | Corrected: a reload is paid exactly when the box was last left checked, or, never clicked, when the form already said so. |
| Settlement.Open | components/EditModal.tsx:21-28 | When the dialog receives a different record, the PIN and the error are cleared and the record's amount and account are preloaded. |
| Settlement.OpenAccepts | components/EditModal.tsx:21-28 | On a dialog freshly loaded with a record, the preloaded amount reads back as the record's amount. So with a PIN, a non-repair is accepted with the paid-only patch. A priced repair with an account is accepted with its own price and account. |
| Settlement.Patch | components/EditModal.tsx:30-56 | The checks in order: an empty PIN gives "PIN is required"; a non-repair gets the paid-only patch; a repair with an unparsable or non-positive amount gives "Please enter a valid amount"; one with no account gives "Please select a bank account". A repair is accepted exactly when both pass. It then gets the price as both amounts, the account and "Added". Every accepted patch sets `is_paid` true. |
| Settlement.Submit | components/EditModal.tsx:30-64 | A rejected dialog shows its message and sends nothing. An accepted one closes only when the store took the secure PIN, and otherwise shows a non-empty error. |
| Settlement.PaidPatchRow | backend.js:124-137 | Under the created header the paid-only patch writes `true` into the paid column and changes no other cell. |
| Settlement.RepairPatchRow | backend.js:124-137 | Under the created header a repair patch writes exactly the amount, original amount, account, paid and status columns. |
| Settlement.PatchSettles | components/EditModal.tsx:37-55 | The patched row of a stored record is exactly the row of the settled record. |
| Settlement.SettledReadsBack | backend.js:71-79 | The patched row, fetched back, reads as the settled record. |
| Settlement.StoredRowMatches | backend.js:121 | A row storing a record for the user matches an update for that record's id and user. |
| Settlement.UpdateAt | backend.js:120-141 | The store patches exactly the first matching row and reports success. |
| Settlement.PostWrites | backend.js:29-34 | With the secure PIN, the dialog's request rewrites the record's row as the settled record. |
| Settlement.SubmitWrites | services/api.ts:32-41 | An accepted submission closes the dialog exactly when the PIN is "239535", and the record's row then stores the settled record. With another PIN the sheet is unchanged and the dialog shows "Update failed. Check PIN or connection.". |
| Settlement.SettleReload | App.tsx:60-61 | Marking an unpaid reload paid lowers its account by exactly its amount and moves no other balance. |
| Settlement.SettleAgain | App.tsx:60-61 | Settling an already-paid non-repair changes no balance, so a reload is deducted once. |
| Settlement.SettleRepair | App.tsx:63-66 | Completing an unpaid repair raises the chosen account by exactly the entered price and moves no other balance. |
| Settlement.SettleRepairIncome | App.tsx:82 | Completing an unpaid repair adds its price to the income of its month and leaves expenses unchanged. |

## Left out

- React rendering and state are not modelled: JSX, `loading`/`refreshKey`, `useMemo`/`useEffect`, `components/Modal.tsx` and `components/BalanceCard.tsx` (currency formatting and icons). They are presentation.
- Network failure, `response.json()` failure and `JSON.parse` failure on the server are not modelled. These are I/O; a request either reaches the modelled store or not.
- The client's `SECURE_PIN` in `constants.ts` is not modelled. The code never reads it; only the backend's PIN gates updates.
- `loan_repayment` has no rule in the fold and is modelled as having no effect.
- The two loan writes run one after another, the second only once the first succeeded. Concurrency and partial failure of the second write are not modelled.
- `new Date(...)` with its local time zone, `toISOString` and `getMonth`/`getFullYear` are parameters (`calendar`, `iso`, a `YearMonth`). An invalid date making `toISOString` throw is not modelled.
- Forms.Intended: the reload's form date is not part of the stored record, because `addTransaction` overwrites `date` with the send time. The model keeps that overwrite.
- Ledger.ComputeBalances: keeps exactly the nine enumerated names. In the source, a record naming an unlisted account adds that name to the map with a NaN balance, which no card displays.
- Ledger.ComputeBalances: amounts are exact reals, not IEEE doubles. Rounding in sums is not modelled, and neither are NaN or Infinity amounts stored in the sheet.
- Monthly.ComputeMonthlyStats: the same exact-real reading of the sums applies.
- Numbers.ParseFloat: does not accept "Infinity" or hexadecimal text, and does not model the rounding of long numerals to doubles.
- Numbers.ToNumber: does not accept "Infinity", hexadecimal, binary or octal text.
- Settlement.OpenAccepts: covers amounts with at most twenty decimal places. `toString`'s shortest-round-trip rendering of arbitrary doubles is not modelled.
- Store.Fetch: returns the records as values. The server's `JSON.stringify` of them is not modelled, and neither is the sheet's conversion of cell types (dates read back as `Date` objects).
- Store.GetSheet: a sheet that exists but is completely empty has no header row. It is modelled as an empty table, and nothing is proved about it beyond the guards.
- Categories.Breakdown: keeps slices in first-insertion order, as `Object.keys` does for non-numeric keys. Integer-like keys, which JavaScript would list first, are not reordered.
- Categories.Breakdown: the source's slice map is a plain object, so keys that name properties inherited from `Object.prototype` behave differently. A reason starting with "constructor" or "toString" reads an inherited function and turns that slice's value into text. A reason starting with "__proto__" is not stored at all, so the slices no longer sum to the total. The model treats every key as an ordinary one.
- Settlement.Open: the reset runs only when the dialog's record changes, because the effect depends on the record object. Re-opening the same record after cancelling, or after an "Update failed" message, keeps the earlier PIN, amount, account and error. Object identity is not modelled; `Open` is the state after a change of record.
- `fetchTransactions`' error handling and the displayed list filter and 20-row limit are not modelled. They are presentation.

## Findings

| source | as written | input that shows it | evidently intended | confidence | as-written member | corrected member |
|---|---|---|---|---|---|---|
| App.tsx:386 | The reload modal's checkbox reports its fixed `value="true"` on every change, checked or not, and `handleInputChange` stores that text. | Check "Mark as Paid Immediately?", then uncheck it, then save: `formData.is_paid` is "true", so the reload is saved as paid and deducted from the account. | The reload is paid exactly when the box is left checked (the handler should store `e.target.checked` for a checkbox). | not executed | Inputs.UncheckedButPaid | Inputs.FilledCheckedPaid |
