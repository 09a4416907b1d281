/** Settling a record (components/EditModal.tsx): the dialog opened on a
    record checks its inputs, builds the field patch, and sends it with the
    PIN as an `updateStatus` request; the store writes the patch into the
    record's row. */
module Settlement {
  import opened Wrappers
  import opened Values
  import opened Transactions
  import Numbers
  import Store
  import Records
  import Ledger
  import Monthly
  import Accounts
  import Forms

  const PinRequired: string := "PIN is required"
  const BadAmount: string := "Please enter a valid amount"
  const NoAccount: string := "Please select a bank account"
  const UpdateFailed: string := "Update failed. Check PIN or connection."

  /** The dialog's inputs and its error line. */
  datatype Dialog = Dialog(pin: string, amount: string, account: string, error: string)

  /** The dialog once it receives a different record: the PIN and error are
      cleared, the amount is preloaded as the amount's decimal text and the
      account as the record's account (blank when it has none). Re-opening on
      the record it already holds keeps whatever the dialog was left with. */
  function Open(t: Transaction): (d: Dialog)
    ensures d.pin == "" && d.error == "" && d.account == t.bankAccount
  {
    Dialog("", Numbers.Show(t.amount), t.bankAccount, "")
  }

  /** `parseFloat(amount)`, with NaN as `None`. */
  function Entered(d: Dialog): Option<real> {
    Numbers.ParseFloat(d.amount)
  }

  /** The entered amount is a number and strictly positive. */
  predicate ValidPrice(price: Option<real>) {
    price.Some? && price.value > 0.0
  }

  /** The patch every settlement carries. */
  function PaidPatch(): Record {
    map["is_paid" := Bool(true)]
  }

  /** A repair's patch: the final price as both amounts, the receiving account
      and the "Added" status on top of the paid flag. */
  function RepairPatch(price: real, account: string): Record {
    PaidPatch()["amount" := Num(price)]["original_amount" := Num(price)]
               ["bank_account" := Str(account)]["price_status" := Str("Added")]
  }

  /** `handleSubmit`'s checks, in order, and the patch they build. */
  function Patch(t: Transaction, d: Dialog): (r: Result<Record>)
    ensures d.pin == "" ==> r == Err(PinRequired)
    ensures d.pin != "" && t.kind != Repair ==> r == Ok(PaidPatch())
    ensures d.pin != "" && t.kind == Repair ==>
      (r.Ok? <==> ValidPrice(Entered(d)) && d.account != "")
    ensures d.pin != "" && t.kind == Repair && !ValidPrice(Entered(d)) ==> r == Err(BadAmount)
    ensures d.pin != "" && t.kind == Repair && ValidPrice(Entered(d)) && d.account == "" ==> r == Err(NoAccount)
    ensures r.Ok? && t.kind == Repair ==> r.value == RepairPatch(Entered(d).value, d.account)
    ensures r.Ok? ==> Field(r.value, "is_paid") == Bool(true)
  {
    if d.pin == "" then Err(PinRequired)
    else if t.kind != Repair then Ok(PaidPatch())
    else
      var price := Entered(d);
      if !ValidPrice(price) then Err(BadAmount)
      else if d.account == "" then Err(NoAccount)
      else Ok(RepairPatch(price.value, d.account))
  }

  /** The record as settled, the reference the stored row is checked against:
      it becomes paid, and a repair takes the final price as both amounts, the
      receiving account and the "Added" status. */
  function Settled(t: Transaction, price: real, account: string): Transaction {
    if t.kind == Repair then
      t.(isPaid := true, amount := price, originalAmount := price, bankAccount := account, priceStatus := Added)
    else t.(isPaid := true)
  }

  /** The price a settlement was accepted with, 0 when none was needed. */
  function Price(t: Transaction, d: Dialog): real {
    if t.kind == Repair && Entered(d).Some? then Entered(d).value else 0.0
  }

  /** The `updateStatus` request the dialog sends. */
  function UpdateRequest(t: Transaction, d: Dialog, patch: Record): Store.Request {
    Store.Request(Str("updateStatus"), Str(Forms.UserId), Str(d.pin), Str(t.id), None, Some(patch))
  }

  /** The sheet after a submission, the dialog, and whether it closed. */
  datatype Submitted = Submitted(store: Option<Store.Table>, dialog: Dialog, closed: bool)

  /** `handleSubmit`: a rejected input shows its message and sends nothing; an
      accepted one is sent, and the dialog closes when the store reports
      success and shows the failure line otherwise. */
  function Submit(store: Option<Store.Table>, t: Transaction, d: Dialog, uuid: string, now: string): (r: Submitted)
    ensures Patch(t, d).Err? ==> r == Submitted(store, d.(error := Patch(t, d).message), false)
    ensures r.closed ==> Text(Str(d.pin)) == Store.SecurePin && r.dialog == d
    ensures !r.closed ==> r.dialog.error != ""
  {
    match Patch(t, d)
    case Err(msg) => Submitted(store, d.(error := msg), false)
    case Ok(patch) =>
      var o := Store.Post(store, UpdateRequest(t, d, patch), uuid, now);
      if o.reply == Store.Success then Submitted(o.store, d, true)
      else Submitted(o.store, d.(error := UpdateFailed), false)
  }

  // ---- The patch as the store writes it ----

  /** The created header's columns, by name. */
  lemma HeaderNames()
    ensures Store.Header[4] == "amount" && Store.Header[5] == "original_amount"
    ensures Store.Header[6] == "bank_account" && Store.Header[8] == "is_paid"
    ensures Store.Header[12] == "price_status"
    ensures Store.Header[0] == "id" && Store.Header[2] == "userId"
  {
  }

  /** Under the created header the paid patch sets the paid column and no other. */
  lemma PaidPatchRow(row: Store.Row)
    requires |row| == |Store.Header|
    ensures Store.PatchRow(row, Store.HeaderRow(), PaidPatch()) == row[8 := Bool(true)]
  {
    var r := Store.PatchRow(row, Store.HeaderRow(), PaidPatch());
    Store.PatchCanonical(row, PaidPatch());
    Store.HeaderDistinct();
    HeaderNames();
    forall j | 0 <= j < |r|
      ensures r[j] == row[8 := Bool(true)][j]
    {
      assert Store.Header[j] in PaidPatch() <==> j == 8;
    }
  }

  /** Under the created header a repair patch sets exactly the amount,
      original amount, account, paid and status columns. */
  lemma RepairPatchRow(row: Store.Row, price: real, account: string)
    requires |row| == |Store.Header|
    ensures Store.PatchRow(row, Store.HeaderRow(), RepairPatch(price, account)) ==
      row[4 := Num(price)][5 := Num(price)][6 := Str(account)][8 := Bool(true)][12 := Str("Added")]
  {
    var patch := RepairPatch(price, account);
    var r := Store.PatchRow(row, Store.HeaderRow(), patch);
    var want := row[4 := Num(price)][5 := Num(price)][6 := Str(account)][8 := Bool(true)][12 := Str("Added")];
    RepairPatchKeys(price, account);
    RepairCoerced(price, account);
    forall j | 0 <= j < |r|
      ensures r[j] == want[j]
    {
      if j == 4 {
        PatchedAt(row, patch, 4, Num(price));
      } else if j == 5 {
        PatchedAt(row, patch, 5, Num(price));
      } else if j == 6 {
        PatchedAt(row, patch, 6, Str(account));
      } else if j == 8 {
        PatchedAt(row, patch, 8, Bool(true));
      } else if j == 12 {
        PatchedAt(row, patch, 12, Str("Added"));
      } else {
        NotNamed(patch, j);
        KeptAt(row, patch, j);
      }
    }
  }

  /** A record naming only the amount, original amount, account, paid and
      status columns names no other. */
  lemma NotNamed(patch: Record, j: nat)
    requires j < |Store.Header| && j != 4 && j != 5 && j != 6 && j != 8 && j != 12
    requires forall k :: k in patch <==>
      k == Store.Header[4] || k == Store.Header[5] || k == Store.Header[6] || k == Store.Header[8] || k == Store.Header[12]
    ensures Store.Header[j] !in patch
  {
    Store.HeaderDistinct();
    assert Store.Header[j] != Store.Header[4] && Store.Header[j] != Store.Header[5];
    assert Store.Header[j] != Store.Header[6] && Store.Header[j] != Store.Header[8];
    assert Store.Header[j] != Store.Header[12];
  }

  /** Under the created header a patch that names column `j` writes its coerced value there. */
  lemma PatchedAt(row: Store.Row, patch: Record, j: nat, v: Value)
    requires |row| == |Store.Header| && j < |row|
    requires Store.Header[j] in patch && Store.Coerce(Store.Header[j], patch[Store.Header[j]]) == v
    ensures Store.PatchRow(row, Store.HeaderRow(), patch)[j] == v
  {
    Store.PatchCanonical(row, patch);
  }

  /** Under the created header a patch that does not name column `j` keeps its cell. */
  lemma KeptAt(row: Store.Row, patch: Record, j: nat)
    requires |row| == |Store.Header| && j < |row|
    requires Store.Header[j] !in patch
    ensures Store.PatchRow(row, Store.HeaderRow(), patch)[j] == row[j]
  {
    Store.PatchCanonical(row, patch);
  }

  /** The values a repair's patch writes, once coerced by the store. */
  lemma RepairCoerced(price: real, account: string)
    ensures var patch, h := RepairPatch(price, account), Store.Header;
      && Store.Coerce(h[4], patch[h[4]]) == Num(price)
      && Store.Coerce(h[5], patch[h[5]]) == Num(price)
      && Store.Coerce(h[6], patch[h[6]]) == Str(account)
      && Store.Coerce(h[8], patch[h[8]]) == Bool(true)
      && Store.Coerce(h[12], patch[h[12]]) == Str("Added")
  {
    HeaderNames();
  }

  /** The keys of a repair's patch. */
  lemma RepairPatchKeys(price: real, account: string)
    ensures forall k :: k in RepairPatch(price, account) <==>
      k == Store.Header[4] || k == Store.Header[5] || k == Store.Header[6] || k == Store.Header[8] || k == Store.Header[12]
  {
    HeaderNames();
  }

  /** Written into the row that stores a record, an accepted patch leaves the
      row that stores the settled record. */
  lemma PatchSettles(t: Transaction, d: Dialog, owner: Value, when: string)
    requires Patch(t, d).Ok?
    ensures Store.PatchRow(Records.Encode(t, owner, when), Store.HeaderRow(), Patch(t, d).value) ==
      Records.Encode(Settled(t, Price(t, d), d.account), owner, when)
  {
    var row := Records.Encode(t, owner, when);
    if t.kind == Repair {
      var s := Settled(t, Price(t, d), d.account);
      assert Patch(t, d).value == RepairPatch(Price(t, d), d.account);
      RepairPatchRow(row, Price(t, d), d.account);
      EncodeRepaired(t, s, owner, when);
    } else {
      assert Patch(t, d).value == PaidPatch();
      PaidPatchRow(row);
      EncodePaid(t, owner, when);
    }
  }

  /** The row of a record made paid is its row with the paid cell set. */
  lemma EncodePaid(t: Transaction, owner: Value, when: string)
    ensures Records.Encode(t.(isPaid := true), owner, when) == Records.Encode(t, owner, when)[8 := Bool(true)]
  {
  }

  /** The row of a settled repair is its row with the five patched cells set. */
  lemma EncodeRepaired(t: Transaction, s: Transaction, owner: Value, when: string)
    requires s == t.(isPaid := true, amount := s.amount, originalAmount := s.amount, bankAccount := s.bankAccount,
                     priceStatus := Added)
    ensures Records.Encode(s, owner, when) ==
      Records.Encode(t, owner, when)[4 := Num(s.amount)][5 := Num(s.amount)][6 := Str(s.bankAccount)]
                                    [8 := Bool(true)][12 := Str("Added")]
  {
  }

  /** The record fetched from the patched row reads as the settled record. */
  lemma SettledReadsBack(t: Transaction, d: Dialog, owner: Value, when: string, calendar: string -> Stamp)
    requires Patch(t, d).Ok?
    requires calendar(when) == t.date
    requires t.kind.Unknown? ==> !IsKnownName(t.kind.name)
    ensures var row := Store.PatchRow(Records.Encode(t, owner, when), Store.HeaderRow(), Patch(t, d).value);
      Records.Decode(Store.ToRecord(Store.HeaderRow(), row), calendar) == Some(Settled(t, Price(t, d), d.account))
  {
    PatchSettles(t, d, owner, when);
    Records.StoredRoundTrip(Settled(t, Price(t, d), d.account), owner, when, calendar);
  }

  /** A row that stores a record matches the update request for its id and owner. */
  lemma StoredRowMatches(t: Transaction, owner: Value, when: string)
    requires !owner.NaN?
    ensures Store.Matches(Store.ColumnMap(Store.HeaderRow()), Records.Encode(t, owner, when), Str(t.id), owner)
  {
    var row := Records.Encode(t, owner, when);
    assert row[0] == Str(t.id) && row[2] == owner;
    RowMatches(row, t.id, owner);
  }

  /** A row whose id and owner cells hold the request's id and user matches it. */
  lemma RowMatches(row: Store.Row, id: string, owner: Value)
    requires |row| == |Store.Header| && row[0] == Str(id) && row[2] == owner && !owner.NaN?
    ensures Store.Matches(Store.ColumnMap(Store.HeaderRow()), row, Str(id), owner)
  {
    HeaderNames();
    LookupAt(row, 0);
    LookupAt(row, 2);
  }

  /** Under the created header, looking a column up by its name finds it. */
  lemma LookupAt(row: Store.Row, j: nat)
    requires j < |Store.Header|
    ensures Store.Lookup(Store.ColumnMap(Store.HeaderRow()), row, Store.Header[j]) == Store.Cell(row, j)
  {
    Store.HeaderColumns();
  }

  /** On a sheet with the created header whose first row for the record's id
      and the user stores it, an accepted submission is written there exactly
      when the PIN is the secure one: the dialog closes and that row now stores
      the settled record. With another PIN nothing changes and the failure line
      is shown. */
  lemma SubmitWrites(tab: Store.Table, t: Transaction, d: Dialog, i: nat, when: string, uuid: string, now: string)
    requires Patch(t, d).Ok?
    requires 1 <= i < |tab| && tab[0] == Store.HeaderRow()
    requires tab[i] == Records.Encode(t, Str(Forms.UserId), when)
    requires forall j :: 1 <= j < i ==>
      !Store.Matches(Store.ColumnMap(Store.HeaderRow()), tab[j], Str(t.id), Str(Forms.UserId))
    ensures var r := Submit(Some(tab), t, d, uuid, now);
      && (r.closed <==> d.pin == Store.SecurePin)
      && (r.closed ==> r.store == Some(tab[i := Records.Encode(Settled(t, Price(t, d), d.account), Str(Forms.UserId), when)]))
      && (!r.closed ==> r.store == Some(tab) && r.dialog.error == UpdateFailed)
  {
    var patch := Patch(t, d).value;
    if d.pin == Store.SecurePin {
      PostWrites(tab, t, d, i, when, uuid, now);
    } else {
      assert Store.Post(Some(tab), UpdateRequest(t, d, patch), uuid, now) == Store.Outcome(Some(tab), Store.Failure("Error: Incorrect PIN"));
    }
  }

  /** With the secure PIN the update request patches the record's row. */
  lemma PostWrites(tab: Store.Table, t: Transaction, d: Dialog, i: nat, when: string, uuid: string, now: string)
    requires Patch(t, d).Ok? && d.pin == Store.SecurePin
    requires 1 <= i < |tab| && tab[0] == Store.HeaderRow()
    requires tab[i] == Records.Encode(t, Str(Forms.UserId), when)
    requires forall j :: 1 <= j < i ==>
      !Store.Matches(Store.ColumnMap(Store.HeaderRow()), tab[j], Str(t.id), Str(Forms.UserId))
    ensures Store.Post(Some(tab), UpdateRequest(t, d, Patch(t, d).value), uuid, now) ==
      Store.Outcome(Some(tab[i := Records.Encode(Settled(t, Price(t, d), d.account), Str(Forms.UserId), when)]), Store.Success)
  {
    var patch := Patch(t, d).value;
    var owner := Str(Forms.UserId);
    assert Store.Headers(tab) == Store.HeaderRow();
    StoredRowMatches(t, owner, when);
    UpdateAt(tab, owner, Str(t.id), patch, i);
    PatchSettles(t, d, owner, when);
    var row := Store.PatchRow(tab[i], Store.Headers(tab), patch);
    assert row == Records.Encode(Settled(t, Price(t, d), d.account), owner, when);
    PostUpdates(tab, UpdateRequest(t, d, patch), uuid, now);
  }

  /** An update request from a user with the secure PIN goes to the update. */
  lemma PostUpdates(tab: Store.Table, req: Store.Request, uuid: string, now: string)
    requires req.action == Str("updateStatus") && Truthy(req.userId) && Text(req.pin) == Store.SecurePin
    ensures Store.Post(Some(tab), req, uuid, now) == Store.Update(tab, req.userId, req.transactionId, req.updates)
  {
  }

  /** The store patches the first row matching the request. */
  lemma UpdateAt(tab: Store.Table, userId: Value, txId: Value, patch: Record, i: nat)
    requires 1 <= i < |tab| && Store.Matches(Store.ColumnMap(Store.Headers(tab)), tab[i], txId, userId)
    requires forall j :: 1 <= j < i ==> !Store.Matches(Store.ColumnMap(Store.Headers(tab)), tab[j], txId, userId)
    ensures Store.Update(tab, userId, txId, Some(patch)) ==
      Store.Outcome(Some(tab[i := Store.PatchRow(tab[i], Store.Headers(tab), patch)]), Store.Success)
  {
    var cm := Store.ColumnMap(Store.Headers(tab));
    var r := Store.FirstMatch(tab, cm, txId, userId, 1);
    assert r.Some?;
    assert r.value <= i;
    assert r.value >= i;
  }

  // ---- What settling does to the balances and the month ----

  /** Marking an unpaid reload paid lowers its enumerated account by its
      amount and leaves every other balance alone. */
  lemma SettleReload(txs: seq<Transaction>, i: nat, d: Dialog)
    requires i < |txs| && txs[i].kind == Reload && !txs[i].isPaid
    requires Accounts.IsEnumerated(txs[i].bankAccount)
    ensures var t, acc := txs[i], txs[i].bankAccount;
      var before := Ledger.ComputeBalances(txs);
      var after := Ledger.ComputeBalances(txs[i := Settled(t, Price(t, d), d.account)]);
      && after.Keys == before.Keys
      && after[acc] == before[acc] - t.amount
      && forall a :: a in before && a != acc ==> after[a] == before[a]
  {
    var t := txs[i];
    var s := Settled(t, Price(t, d), d.account);
    Ledger.RuleTable(t);
    Ledger.RuleTable(s);
    Ledger.ReplaceRecord(txs, i, s);
    Ledger.SameKeys(txs[i := s], txs);
  }

  /** Settling a record that is already paid, other than a repair, changes no
      balance: a reload is deducted once. */
  lemma SettleAgain(txs: seq<Transaction>, i: nat, d: Dialog)
    requires i < |txs| && txs[i].kind != Repair && txs[i].isPaid
    ensures Ledger.ComputeBalances(txs[i := Settled(txs[i], Price(txs[i], d), d.account)]) == Ledger.ComputeBalances(txs)
  {
    assert txs[i := Settled(txs[i], Price(txs[i], d), d.account)] == txs;
  }

  /** Completing an unpaid repair raises the receiving account by the final
      price and leaves every other balance alone. */
  lemma SettleRepair(txs: seq<Transaction>, i: nat, d: Dialog)
    requires i < |txs| && txs[i].kind == Repair && !txs[i].isPaid
    requires Patch(txs[i], d).Ok? && Accounts.IsEnumerated(d.account)
    ensures var t, acc := txs[i], d.account;
      var before := Ledger.ComputeBalances(txs);
      var after := Ledger.ComputeBalances(txs[i := Settled(t, Price(t, d), acc)]);
      && after.Keys == before.Keys
      && after[acc] == before[acc] + Price(t, d)
      && forall a :: a in before && a != acc ==> after[a] == before[a]
  {
    var t := txs[i];
    var s := Settled(t, Price(t, d), d.account);
    assert Ledger.Inert(t);
    forall a | Accounts.IsEnumerated(a)
      ensures Ledger.Effect(t, a) == 0.0
    {
      Ledger.InertEffect(t, a);
    }
    Ledger.RuleTable(s);
    Ledger.ReplaceRecord(txs, i, s);
    Ledger.SameKeys(txs[i := s], txs);
  }

  /** Completing an unpaid repair adds its final price to the income of the
      repair's month and leaves that month's expenses alone. */
  lemma SettleRepairIncome(txs: seq<Transaction>, i: nat, d: Dialog, ym: YearMonth)
    requires i < |txs| && txs[i].kind == Repair && !txs[i].isPaid
    ensures var t := txs[i];
      var settled := txs[i := Settled(t, Price(t, d), d.account)];
      && Monthly.Income(settled, ym) == Monthly.Income(txs, ym) + (if Monthly.InMonth(t, ym) then Price(t, d) else 0.0)
      && Monthly.Expense(settled, ym) == Monthly.Expense(txs, ym)
  {
    Monthly.ReplaceRecord(txs, i, Settled(txs[i], Price(txs[i], d), d.account), ym);
  }

  // ---- Opening the dialog ----

  /** Opened on a record whose amount has at most twenty decimal places, the
      dialog's preloaded amount reads back as that amount, so a priced repair
      with an account, or any other record, is accepted as soon as a PIN is
      entered: the repair's patch restates its own price and account. */
  lemma OpenAccepts(t: Transaction, pin: string, k: nat, n: int)
    requires k <= Numbers.MaxFractionDigits && Numbers.Shifted(t.amount, k) == n as real
    requires pin != ""
    ensures Entered(Open(t)) == Some(t.amount)
    ensures t.kind != Repair ==> Patch(t, Open(t).(pin := pin)) == Ok(PaidPatch())
    ensures t.kind == Repair && t.amount > 0.0 && t.bankAccount != "" ==>
      Patch(t, Open(t).(pin := pin)) == Ok(RepairPatch(t.amount, t.bankAccount))
  {
    Numbers.ShowRoundTrip(t.amount, k, n);
  }
}
