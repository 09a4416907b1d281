/** The bridge between a fetched record and the client's typed transaction
    (types.ts): the client trusts the JSON it receives to have the declared
    shape, so a record is read as a transaction only when every field has
    the declared type. */
module Records {
  import opened Wrappers
  import opened Values
  import opened Transactions
  import Store

  /** The client's reading of one fetched record. `calendar` stands for
      `new Date(text)` with its time and local year and month. */
  function Decode(rec: Record, calendar: string -> Stamp): (r: Option<Transaction>)
    ensures r.Some? ==> Field(rec, "amount") == Num(r.value.amount)
    ensures r.Some? ==> Field(rec, "is_paid") == Bool(r.value.isPaid)
    ensures r.Some? ==> Field(rec, "bank_account") == Str(r.value.bankAccount)
    ensures r.Some? ==> Field(rec, "type") == Str(KindName(r.value.kind))
  {
    var id, date, kind := Field(rec, "id"), Field(rec, "date"), Field(rec, "type");
    var amount, original := Field(rec, "amount"), Field(rec, "original_amount");
    var account, reason, paid := Field(rec, "bank_account"), Field(rec, "reason"), Field(rec, "is_paid");
    var customer, phone := Field(rec, "customer_name"), Field(rec, "phone_name");
    var fault, status := Field(rec, "fault"), Field(rec, "price_status");
    if && id.Str? && date.Str? && kind.Str? && amount.Num? && original.Num?
       && account.Str? && reason.Str? && paid.Bool? && customer.Str? && phone.Str?
       && fault.Str? && status.Str?
    then
      Some(Transaction(id.s, calendar(date.s), KindOf(kind.s), amount.n, original.n, account.s,
                       reason.s, paid.b, customer.s, phone.s, fault.s, StatusOf(status.s)))
    else None
  }

  /** The sheet row that stores `t` for `owner`, with `when` as its date text,
      in the column order of the created header. */
  function Encode(t: Transaction, owner: Value, when: string): (row: Store.Row)
    ensures |row| == |Store.Header|
  {
    [ Str(t.id), Str(when), owner, Str(KindName(t.kind)), Num(t.amount), Num(t.originalAmount),
      Str(t.bankAccount), Str(t.reason), Bool(t.isPaid), Str(t.customerName), Str(t.phoneName),
      Str(t.fault), Str(StatusName(t.priceStatus)) ]
  }

  /** On a sheet with the created header, each field of a fetched record is
      the cell in the column of the same name. */
  lemma CanonicalRecord(row: Store.Row)
    ensures forall j :: 0 <= j < |Store.Header| ==>
      Field(Store.ToRecord(Store.HeaderRow(), row), Store.Header[j]) == Store.Cell(row, j)
  {
    Store.HeaderColumns();
  }

  /** One field of a fetched record under the created header. */
  lemma FieldAt(row: Store.Row, j: nat)
    requires j < |Store.Header|
    ensures Field(Store.ToRecord(Store.HeaderRow(), row), Store.Header[j]) == Store.Cell(row, j)
  {
    CanonicalRecord(row);
  }

  /** The fields the client reads, each from its column of the created header. */
  lemma FetchedFields(row: Store.Row)
    ensures var rec := Store.ToRecord(Store.HeaderRow(), row);
      && Field(rec, "id") == Store.Cell(row, 0)
      && Field(rec, "date") == Store.Cell(row, 1)
      && Field(rec, "type") == Store.Cell(row, 3)
      && Field(rec, "amount") == Store.Cell(row, 4)
      && Field(rec, "original_amount") == Store.Cell(row, 5)
      && Field(rec, "bank_account") == Store.Cell(row, 6)
      && Field(rec, "reason") == Store.Cell(row, 7)
      && Field(rec, "is_paid") == Store.Cell(row, 8)
      && Field(rec, "customer_name") == Store.Cell(row, 9)
      && Field(rec, "phone_name") == Store.Cell(row, 10)
      && Field(rec, "fault") == Store.Cell(row, 11)
      && Field(rec, "price_status") == Store.Cell(row, 12)
  {
    assert Store.Header[0] == "id" && Store.Header[1] == "date" && Store.Header[3] == "type" && Store.Header[4] == "amount" && Store.Header[5] == "original_amount" && Store.Header[6] == "bank_account" && Store.Header[7] == "reason" && Store.Header[8] == "is_paid" && Store.Header[9] == "customer_name" && Store.Header[10] == "phone_name" && Store.Header[11] == "fault" && Store.Header[12] == "price_status";
    FieldAt(row, 0);
    FieldAt(row, 1);
    FieldAt(row, 3);
    FieldAt(row, 4);
    FieldAt(row, 5);
    FieldAt(row, 6);
    FieldAt(row, 7);
    FieldAt(row, 8);
    FieldAt(row, 9);
    FieldAt(row, 10);
    FieldAt(row, 11);
    FieldAt(row, 12);
  }

  /** A record whose fields have the declared types reads as the transaction
      made of them. */
  lemma DecodeFields(rec: Record, calendar: string -> Stamp, t: Transaction, when: string)
    requires calendar(when) == t.date
    requires t.kind.Unknown? ==> !IsKnownName(t.kind.name)
    requires Field(rec, "id") == Str(t.id) && Field(rec, "date") == Str(when)
    requires Field(rec, "type") == Str(KindName(t.kind))
    requires Field(rec, "amount") == Num(t.amount) && Field(rec, "original_amount") == Num(t.originalAmount)
    requires Field(rec, "bank_account") == Str(t.bankAccount) && Field(rec, "reason") == Str(t.reason)
    requires Field(rec, "is_paid") == Bool(t.isPaid)
    requires Field(rec, "customer_name") == Str(t.customerName) && Field(rec, "phone_name") == Str(t.phoneName)
    requires Field(rec, "fault") == Str(t.fault) && Field(rec, "price_status") == Str(StatusName(t.priceStatus))
    ensures Decode(rec, calendar) == Some(t)
  {
    KindNameRoundTrip(t.kind);
    StatusNameRoundTrip(t.priceStatus);
  }

  /** A transaction stored under the created header and fetched back reads as
      itself, whenever its date text denotes its date and its kind is one the
      client can tell apart from the six known names. */
  lemma StoredRoundTrip(t: Transaction, owner: Value, when: string, calendar: string -> Stamp)
    requires calendar(when) == t.date
    requires t.kind.Unknown? ==> !IsKnownName(t.kind.name)
    ensures Decode(Store.ToRecord(Store.HeaderRow(), Encode(t, owner, when)), calendar) == Some(t)
  {
    var row := Encode(t, owner, when);
    FetchedFields(row);
    DecodeFields(Store.ToRecord(Store.HeaderRow(), row), calendar, t, when);
  }
}
