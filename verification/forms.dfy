/** Record creation (App.tsx `handleSubmit`): the open modal turns the form's
    input into one record, or two for a loan, and each is posted to the store
    through `api.addTransaction`, which stamps it with a fresh id and the
    current time. */
module Forms {
  import opened Wrappers
  import opened Values
  import opened Transactions
  import Numbers
  import Store
  import Records
  import Ledger
  import Monthly
  import Accounts

  /** `USER_ID`: the one user the client posts and fetches as. */
  const UserId: string := "money_manager_user"

  /** The names of the inputs of the five creation modals. */
  const InputNames: set<string> :=
    {"amount", "reason", "bank_account", "customer_name", "date", "is_paid", "phone_name", "fault", "loan_account"}

  /** `formData`: the text each touched input last reported. An input that was
      never touched is absent, and the state is kept when a modal is closed,
      so a form may hold inputs of other modals. */
  type Form = map<string, string>

  /** Only the modals' inputs write to the form. */
  predicate WellFormed(form: Form) {
    form.Keys <= InputNames
  }

  /** `formData.name`: a string, or undefined for an untouched input. */
  function Input(form: Form, name: string): Value {
    if name in form then Str(form[name]) else Undefined
  }

  /** The text of an input as a stored row keeps it: an untouched input is blank. */
  function TextOf(form: Form, name: string): string {
    if name in form then form[name] else ""
  }

  /** The form's amount read with `parseFloat`; an untouched amount parses the text
      "undefined", which is NaN. Every record a modal builds uses this one
      parse, so the builders below take it as `price`. */
  function Price(form: Form): Option<real> {
    Numbers.ParseFloat(Text(Input(form, "amount")))
  }

  /** The amount a stored row holds: the price, or 0 when it is NaN (sent as null). */
  function Amount(price: Option<real>): real {
    match price
    case Some(p) => p
    case None => 0.0
  }

  /** `price > 0`, which is false for NaN. */
  predicate Priced(price: Option<real>) {
    price.Some? && price.value > 0.0
  }

  /** The form's fields with the amount replaced by its parsed number, as the
      JSON body carries them: every input as text, the amount a number or null. */
  function Base(form: Form, price: Option<real>): Record {
    (map k | k in form :: Str(form[k]))["amount" := JsonNumber(price)]
  }

  /** The form's paid field holds exactly the text "true". */
  predicate ReloadPaid(form: Form) {
    "is_paid" in form && form["is_paid"] == "true"
  }

  /** A base record with its type and paid flag added: the fields every record is
      built with. The keys are distinct, so the order in which the source
      lists them does not matter. */
  function Typed(base: Record, kind: string, paid: bool): Record {
    base["type" := Str(kind)]["is_paid" := Bool(paid)]
  }

  /** A repair adds its status and keeps the price as the original amount. */
  function Repaired(form: Form, price: Option<real>): Record {
    Base(form, price)["price_status" := Str(if Priced(price) then "Added" else "Pending")]
                     ["original_amount" := JsonNumber(price)]
  }

  /** The first record of a loan, untyped: the debt on the chosen loan account. */
  function DrawBase(form: Form, price: Option<real>): Record {
    map["amount" := JsonNumber(price), "bank_account" := Input(form, "loan_account"),
        "reason" := Str("Loan Taken: " + Text(Input(form, "reason")))]
  }

  /** The second record of a loan, untyped: the funds paid into the chosen account. */
  function FundsBase(form: Form, price: Option<real>): Record {
    map["amount" := JsonNumber(price), "bank_account" := Input(form, "bank_account"),
        "reason" := Str("Loan Funds Received")]
  }

  /** The records the open modal builds, in the order they are posted.
      `clientNow` is the client's current time as ISO text and `iso` stands for
      `new Date(text).toISOString()`. A modal the code does not know builds none. */
  function Payloads(modal: string, form: Form, price: Option<real>, clientNow: string, iso: string -> string): (r: seq<Record>)
    ensures modal in {"deposit", "withdraw", "reload", "repair"} ==> |r| == 1
    ensures modal == "loan" ==> |r| == 2
    ensures modal !in {"deposit", "withdraw", "reload", "repair", "loan"} ==> r == []
  {
    if modal == "deposit" then [Typed(Base(form, price), "deposit", true)]
    else if modal == "withdraw" then [Typed(Base(form, price), "withdrawal", true)]
    else if modal == "reload" then
      var date := if Truthy(Input(form, "date")) then iso(form["date"]) else clientNow;
      [Typed(Base(form, price)["date" := Str(date)], "reload", ReloadPaid(form))]
    else if modal == "repair" then [Typed(Repaired(form, price), "repair", false)]
    else if modal == "loan" then
      [Typed(DrawBase(form, price), "loan_acquisition", true), Typed(FundsBase(form, price), "deposit", true)]
    else []
  }

  /** What the client and the store draw from outside for the k-th request:
      `crypto.randomUUID()` and the client's clock, `Utilities.getUuid()` and
      the store's clock. */
  datatype Env = Env(
    clientId: nat -> string,
    clientNow: nat -> string,
    serverId: nat -> string,
    serverNow: nat -> string)

  /** The record given a fresh id and the current time as its date: the stamp
      overrides any id or date the record carried. */
  function Stamped(data: Record, id: string, now: string): (r: Record)
    ensures Field(r, "id") == Str(id) && Field(r, "date") == Str(now)
    ensures forall k :: k != "id" && k != "date" ==> Field(r, k) == Field(data, k)
  {
    data["id" := Str(id)]["date" := Str(now)]
  }

  /** The `addTransaction` request for one record. */
  function AddRequest(data: Record): Store.Request {
    Store.Request(Str("addTransaction"), Str(UserId), Undefined, Undefined, Some(data), None)
  }

  /** The row the store appends for the k-th request. */
  function SentRow(data: Record, env: Env, k: nat): Store.Row {
    Store.NewRow(Str(UserId), Stamped(data, env.clientId(k), env.clientNow(k)), env.serverId(k), env.serverNow(k))
  }

  /** `s` mapped with `f`, which also receives each element's position
      counted from `k`. */
  function Indexed<A, B>(s: seq<A>, f: (A, nat) -> B, k: nat): (r: seq<B>)
    ensures |r| == |s|
    decreases |s|
  {
    if |s| == 0 then [] else [f(s[0], k)] + Indexed(s[1..], f, k + 1)
  }

  /** The i-th element of an indexed map is `f` of the i-th element and its position. */
  lemma {:induction false} IndexedAt<A, B>(s: seq<A>, f: (A, nat) -> B, k: nat, i: nat)
    requires i < |s|
    ensures Indexed(s, f, k)[i] == f(s[i], k + i)
    decreases i
  {
    if i > 0 {
      IndexedAt(s[1..], f, k + 1, i - 1);
      assert s[1..][i - 1] == s[i];
    }
  }

  /** The store's row for the k-th request, as a function of the record and k. */
  function RowMaker(env: Env): (Record, nat) -> Store.Row {
    (data: Record, k: nat) => SentRow(data, env, k)
  }

  /** The rows appended for the records posted from the k-th request on. */
  function SentRows(payloads: seq<Record>, env: Env, k: nat): (r: seq<Store.Row>)
    ensures |r| == |payloads|
  {
    Indexed(payloads, RowMaker(env), k)
  }

  /** The i-th appended row is the one the store made for the i-th record. */
  lemma SentRowAt(payloads: seq<Record>, env: Env, i: nat)
    requires i < |payloads|
    ensures SentRows(payloads, env, 0)[i] == SentRow(payloads[i], env, i)
  {
    IndexedAt(payloads, RowMaker(env), 0, i);
  }

  /** Appending one element and then a sequence appends both at once. */
  lemma SnocThenAppend<T>(a: seq<T>, x: T, c: seq<T>)
    ensures a + [x] + c == a + ([x] + c)
  {
  }

  /** The sheet after a submission, and whether the modal reports success. */
  datatype Submission = Submission(store: Option<Store.Table>, success: bool)

  /** The records posted one after another, the next only once the last one
      succeeded; the submission succeeds when the last record does. */
  function Send(store: Option<Store.Table>, payloads: seq<Record>, env: Env, k: nat): Submission
    decreases |payloads|
  {
    if |payloads| == 0 then Submission(store, false)
    else
      var o := Store.Post(store, AddRequest(Stamped(payloads[0], env.clientId(k), env.clientNow(k))),
                          env.serverId(k), env.serverNow(k));
      if o.reply != Store.Success || |payloads| == 1 then Submission(o.store, o.reply == Store.Success)
      else Send(o.store, payloads[1..], env, k + 1)
  }

  /** `handleSubmit` for the open modal. */
  function Submit(store: Option<Store.Table>, modal: string, form: Form, env: Env, iso: string -> string): Submission {
    Send(store, Payloads(modal, form, Price(form), env.clientNow(0), iso), env, 0)
  }

  /** The store appends every add the client posts: the client always sends
      its user id and a record. */
  lemma PostAdd(store: Option<Store.Table>, data: Record, uuid: string, now: string)
    ensures Store.Post(store, AddRequest(data), uuid, now) ==
      Store.Outcome(Some(Store.GetSheet(store) + [Store.NewRow(Str(UserId), data, uuid, now)]), Store.Success)
  {
  }

  /** The records are appended one row each, in order, and the submission
      succeeds exactly when there was a record to send. */
  lemma {:induction false} SendAppends(store: Option<Store.Table>, payloads: seq<Record>, env: Env, k: nat)
    ensures var r := Send(store, payloads, env, k);
      && (r.success <==> |payloads| > 0)
      && (|payloads| == 0 ==> r.store == store)
      && (|payloads| > 0 ==> r.store == Some(Store.GetSheet(store) + SentRows(payloads, env, k)))
    decreases |payloads|
  {
    if |payloads| > 0 {
      var t := Store.GetSheet(store);
      var row := SentRow(payloads[0], env, k);
      PostAdd(store, Stamped(payloads[0], env.clientId(k), env.clientNow(k)), env.serverId(k), env.serverNow(k));
      var rest := SentRows(payloads[1..], env, k + 1);
      if |payloads| > 1 {
        SendAppends(Some(t + [row]), payloads[1..], env, k + 1);
        SnocThenAppend(t, row, rest);
      } else {
        assert [row] + rest == [row];
      }
    }
  }

  /** Submitting succeeds exactly for the five modals, and appends one row
      for each of their records (two for a loan); otherwise nothing is sent. */
  lemma SubmitAppends(store: Option<Store.Table>, modal: string, form: Form, env: Env, iso: string -> string)
    ensures var p := Payloads(modal, form, Price(form), env.clientNow(0), iso);
      var r := Submit(store, modal, form, env, iso);
      && (r.success <==> modal in {"deposit", "withdraw", "reload", "repair", "loan"})
      && (r.success ==> r.store == Some(Store.GetSheet(store) + SentRows(p, env, 0)))
      && (!r.success ==> r.store == store)
  {
    SendAppends(store, Payloads(modal, form, Price(form), env.clientNow(0), iso), env, 0);
  }

  // ---- The records as the client reads them back ----

  /** The client's ids and clocks give non-empty text, as UUIDs and ISO times do. */
  ghost predicate Stamps(env: Env) {
    forall k :: env.clientId(k) != "" && env.clientNow(k) != ""
  }

  /** A single-record modal's transaction as the client means it. */
  function Meant(form: Form, price: Option<real>, kind: Kind, paid: bool, id: string, date: Stamp): Transaction {
    Transaction(id, date, kind, Amount(price), 0.0, TextOf(form, "bank_account"), TextOf(form, "reason"), paid,
                TextOf(form, "customer_name"), TextOf(form, "phone_name"), TextOf(form, "fault"), NoStatus)
  }

  /** A new repair as the client means it. */
  function RepairMeant(form: Form, price: Option<real>, id: string, date: Stamp): Transaction {
    Meant(form, price, Repair, false, id, date).(originalAmount := Amount(price),
                                                 priceStatus := if Priced(price) then Added else Pending)
  }

  /** The loan's debt as the client means it. */
  function DrawMeant(form: Form, price: Option<real>, id: string, date: Stamp): Transaction {
    Transaction(id, date, LoanAcquisition, Amount(price), 0.0, TextOf(form, "loan_account"),
                "Loan Taken: " + Text(Input(form, "reason")), true, "", "", "", NoStatus)
  }

  /** The loan's funds as the client means them. */
  function FundsMeant(form: Form, price: Option<real>, id: string, date: Stamp): Transaction {
    Transaction(id, date, Deposit, Amount(price), 0.0, TextOf(form, "bank_account"),
                "Loan Funds Received", true, "", "", "", NoStatus)
  }

  /** The transactions as the client means them, from the form alone: the
      reference the stored rows are checked against. `calendar` stands for
      `new Date(text)`. */
  function Intended(modal: string, form: Form, price: Option<real>, env: Env, calendar: string -> Stamp): (r: seq<Transaction>)
    ensures modal in {"deposit", "withdraw", "reload", "repair"} ==> |r| == 1
    ensures modal == "loan" ==> |r| == 2
    ensures modal !in {"deposit", "withdraw", "reload", "repair", "loan"} ==> r == []
    ensures forall i :: 0 <= i < |r| ==>
      r[i].id == env.clientId(i) && r[i].date == calendar(env.clientNow(i)) && !r[i].kind.Unknown?
  {
    var id0, when0 := env.clientId(0), calendar(env.clientNow(0));
    if modal == "deposit" then [Meant(form, price, Deposit, true, id0, when0)]
    else if modal == "withdraw" then [Meant(form, price, Withdrawal, true, id0, when0)]
    else if modal == "reload" then [Meant(form, price, Reload, ReloadPaid(form), id0, when0)]
    else if modal == "repair" then
      [RepairMeant(form, price, id0, when0)]
    else if modal == "loan" then
      [DrawMeant(form, price, id0, when0), FundsMeant(form, price, env.clientId(1), calendar(env.clientNow(1)))]
    else []
  }

  /** The record fields, other than the stamp, type and paid flag, that fix
      the columns of the row the store appends. */
  predicate CarriesBody(data: Record, t: Transaction) {
    && Or(Field(data, "amount"), Num(0.0)) == Num(t.amount)
    && Or(Field(data, "original_amount"), Num(0.0)) == Num(t.originalAmount)
    && Or(Field(data, "bank_account"), Str("")) == Str(t.bankAccount)
    && Or(Field(data, "reason"), Str("")) == Str(t.reason)
    && Or(Field(data, "customer_name"), Str("")) == Str(t.customerName)
    && Or(Field(data, "phone_name"), Str("")) == Str(t.phoneName)
    && Or(Field(data, "fault"), Str("")) == Str(t.fault)
    && Or(Field(data, "price_status"), Str("")) == Str(StatusName(t.priceStatus))
  }

  /** The record fields that fix every column of the row the store appends. */
  predicate Carries(data: Record, t: Transaction, when: string) {
    && Field(data, "id") == Str(t.id) && t.id != ""
    && Field(data, "date") == Str(when) && when != ""
    && Field(data, "type") == Str(KindName(t.kind)) && KindName(t.kind) != ""
    && Store.PaidFlag(Field(data, "is_paid")) == t.isPaid
    && CarriesBody(data, t)
  }

  /** A record that carries a transaction's fields is appended as that
      transaction's row. */
  lemma CarriedRow(data: Record, t: Transaction, when: string, uuid: string, now: string)
    requires Carries(data, t, when)
    ensures Store.NewRow(Str(UserId), data, uuid, now) == Records.Encode(t, Str(UserId), when)
  {
  }

  /** A text input reaches the row as typed, an untouched one as a blank. */
  lemma BaseText(form: Form, price: Option<real>, name: string)
    requires name != "amount"
    ensures Or(Field(Base(form, price), name), Str("")) == Str(TextOf(form, name))
  {
    if name in form {
      assert Field(Base(form, price), name) == Str(form[name]);
    } else {
      assert Field(Base(form, price), name) == Undefined;
    }
  }

  /** The amount reaches the row as the parsed number, or 0 when it is NaN. */
  lemma BaseAmount(form: Form, price: Option<real>)
    ensures Or(Field(Base(form, price), "amount"), Num(0.0)) == Num(Amount(price))
  {
    assert Field(Base(form, price), "amount") == JsonNumber(price);
  }

  /** No input is named like the columns a form never fills itself. */
  lemma BaseOmits(form: Form, price: Option<real>)
    requires WellFormed(form)
    ensures Field(Base(form, price), "original_amount") == Undefined
    ensures Field(Base(form, price), "price_status") == Undefined
  {
    assert "original_amount" !in InputNames && "price_status" !in InputNames;
  }

  /** Stamping and typing a record sets four fields and keeps the others. */
  lemma StampedTyped(base: Record, kind: string, paid: bool, id: string, when: string)
    ensures var d := Stamped(Typed(base, kind, paid), id, when);
      && Field(d, "id") == Str(id) && Field(d, "date") == Str(when)
      && Field(d, "type") == Str(kind) && Field(d, "is_paid") == Bool(paid)
      && forall k :: k !in {"id", "date", "type", "is_paid"} ==> Field(d, k) == Field(base, k)
  {
  }

  /** Records that agree outside the stamp, type and paid flag carry the same body. */
  lemma BodyKept(a: Record, b: Record, t: Transaction)
    requires forall k :: k !in {"id", "date", "type", "is_paid"} ==> Field(a, k) == Field(b, k)
    requires CarriesBody(b, t)
    ensures CarriesBody(a, t)
  {
    assert Field(a, "amount") == Field(b, "amount");
    assert Field(a, "original_amount") == Field(b, "original_amount");
    assert Field(a, "bank_account") == Field(b, "bank_account");
    assert Field(a, "reason") == Field(b, "reason");
    assert Field(a, "customer_name") == Field(b, "customer_name");
    assert Field(a, "phone_name") == Field(b, "phone_name");
    assert Field(a, "fault") == Field(b, "fault");
    assert Field(a, "price_status") == Field(b, "price_status");
  }

  /** A record whose body carries a transaction carries all of it once typed
      with its kind and paid flag and stamped with its id. */
  lemma TypedCarries(base: Record, t: Transaction, when: string)
    requires t.id != "" && when != "" && KindName(t.kind) != ""
    requires CarriesBody(base, t)
    ensures Carries(Stamped(Typed(base, KindName(t.kind), t.isPaid), t.id, when), t, when)
  {
    StampedTyped(base, KindName(t.kind), t.isPaid, t.id, when);
    BodyKept(Stamped(Typed(base, KindName(t.kind), t.isPaid), t.id, when), base, t);
  }

  /** The form's inputs carry the body of the transaction meant by them. */
  lemma BaseCarries(form: Form, price: Option<real>, kind: Kind, paid: bool, id: string, date: Stamp)
    requires WellFormed(form)
    ensures CarriesBody(Base(form, price), Meant(form, price, kind, paid, id, date))
  {
    BaseAmount(form, price);
    BaseOmits(form, price);
    BaseText(form, price, "bank_account");
    BaseText(form, price, "reason");
    BaseText(form, price, "customer_name");
    BaseText(form, price, "phone_name");
    BaseText(form, price, "fault");
  }

  /** A date the reload modal adds is overridden by the stamp. */
  lemma DatedCarries(form: Form, price: Option<real>, kind: Kind, paid: bool, id: string, date: Stamp, text: Value)
    requires WellFormed(form)
    ensures CarriesBody(Base(form, price)["date" := text], Meant(form, price, kind, paid, id, date))
  {
    BaseCarries(form, price, kind, paid, id, date);
    BodyKept(Base(form, price)["date" := text], Base(form, price), Meant(form, price, kind, paid, id, date));
  }

  /** A repair's inputs carry the body of the repair meant by them. */
  lemma RepairedCarries(form: Form, price: Option<real>, id: string, date: Stamp)
    requires WellFormed(form)
    ensures CarriesBody(Repaired(form, price), RepairMeant(form, price, id, date))
  {
    var r, t := Repaired(form, price), RepairMeant(form, price, id, date);
    BaseAmount(form, price);
    BaseText(form, price, "bank_account");
    BaseText(form, price, "reason");
    BaseText(form, price, "customer_name");
    BaseText(form, price, "phone_name");
    BaseText(form, price, "fault");
    assert Field(r, "original_amount") == JsonNumber(price);
  }

  /** The loan's first record carries the body of the debt. */
  lemma DrawCarries(form: Form, price: Option<real>, id: string, date: Stamp)
    ensures CarriesBody(DrawBase(form, price), DrawMeant(form, price, id, date))
  {
  }

  /** The loan's second record carries the body of the funds. */
  lemma FundsCarries(form: Form, price: Option<real>, id: string, date: Stamp)
    ensures CarriesBody(FundsBase(form, price), FundsMeant(form, price, id, date))
  {
  }

  /** A deposit or withdrawal, once stamped, carries the intended transaction. */
  lemma PlainCarries(modal: string, form: Form, price: Option<real>, env: Env, iso: string -> string, calendar: string -> Stamp)
    requires modal in {"deposit", "withdraw"}
    requires WellFormed(form) && env.clientId(0) != "" && env.clientNow(0) != ""
    ensures
      Carries(Stamped(Payloads(modal, form, price, env.clientNow(0), iso)[0], env.clientId(0), env.clientNow(0)),
              Intended(modal, form, price, env, calendar)[0], env.clientNow(0))
  {
    var id, when := env.clientId(0), env.clientNow(0);
    var kind := if modal == "deposit" then Deposit else Withdrawal;
    var t := Meant(form, price, kind, true, id, calendar(when));
    assert Payloads(modal, form, price, when, iso)[0] == Typed(Base(form, price), KindName(kind), true);
    assert Intended(modal, form, price, env, calendar)[0] == t;
    BaseCarries(form, price, kind, true, id, calendar(when));
    TypedCarries(Base(form, price), t, when);
  }

  /** A reload, once stamped, carries the intended transaction: the date the
      modal adds is overridden by the stamp. */
  lemma ReloadCarries(modal: string, form: Form, price: Option<real>, env: Env, iso: string -> string, calendar: string -> Stamp)
    requires modal == "reload"
    requires WellFormed(form) && env.clientId(0) != "" && env.clientNow(0) != ""
    ensures
      Carries(Stamped(Payloads(modal, form, price, env.clientNow(0), iso)[0], env.clientId(0), env.clientNow(0)),
              Intended(modal, form, price, env, calendar)[0], env.clientNow(0))
  {
    var id, when := env.clientId(0), env.clientNow(0);
    var t := Meant(form, price, Reload, ReloadPaid(form), id, calendar(when));
    var date := if Truthy(Input(form, "date")) then iso(form["date"]) else when;
    assert Payloads(modal, form, price, when, iso)[0] == Typed(Base(form, price)["date" := Str(date)], "reload", t.isPaid);
    assert Intended(modal, form, price, env, calendar)[0] == t;
    DatedCarries(form, price, Reload, ReloadPaid(form), id, calendar(when), Str(date));
    TypedCarries(Base(form, price)["date" := Str(date)], t, when);
  }

  /** A new repair, once stamped, carries the intended transaction. */
  lemma RepairCarries(modal: string, form: Form, price: Option<real>, env: Env, iso: string -> string, calendar: string -> Stamp)
    requires modal == "repair"
    requires WellFormed(form) && env.clientId(0) != "" && env.clientNow(0) != ""
    ensures
      Carries(Stamped(Payloads(modal, form, price, env.clientNow(0), iso)[0], env.clientId(0), env.clientNow(0)),
              Intended(modal, form, price, env, calendar)[0], env.clientNow(0))
  {
    var id, when := env.clientId(0), env.clientNow(0);
    var t := RepairMeant(form, price, id, calendar(when));
    assert Payloads(modal, form, price, when, iso)[0] == Typed(Repaired(form, price), "repair", false);
    assert Intended(modal, form, price, env, calendar)[0] == t;
    RepairedCarries(form, price, id, calendar(when));
    TypedCarries(Repaired(form, price), t, when);
  }

  /** The two records of a loan, once stamped, carry the intended transactions. */
  lemma LoanCarries(modal: string, form: Form, price: Option<real>, env: Env, iso: string -> string, calendar: string -> Stamp, i: nat)
    requires modal == "loan"
    requires i < 2 && env.clientId(i) != "" && env.clientNow(i) != ""
    ensures
      Carries(Stamped(Payloads(modal, form, price, env.clientNow(0), iso)[i], env.clientId(i), env.clientNow(i)),
              Intended(modal, form, price, env, calendar)[i], env.clientNow(i))
  {
    var id, when := env.clientId(i), env.clientNow(i);
    var p, want := Payloads(modal, form, price, env.clientNow(0), iso), Intended(modal, form, price, env, calendar);
    if i == 0 {
      var t := DrawMeant(form, price, id, calendar(when));
      assert p[0] == Typed(DrawBase(form, price), "loan_acquisition", true) && want[0] == t;
      DrawCarries(form, price, id, calendar(when));
      TypedCarries(DrawBase(form, price), t, when);
    } else {
      var t := FundsMeant(form, price, id, calendar(when));
      assert p[1] == Typed(FundsBase(form, price), "deposit", true) && want[1] == t;
      FundsCarries(form, price, id, calendar(when));
      TypedCarries(FundsBase(form, price), t, when);
    }
  }

  /** Each record a modal builds, once stamped, carries the intended transaction. */
  lemma PayloadsCarry(modal: string, form: Form, price: Option<real>, env: Env, iso: string -> string, calendar: string -> Stamp, i: nat)
    requires WellFormed(form) && Stamps(env)
    requires i < |Payloads(modal, form, price, env.clientNow(0), iso)|
    ensures
      var p := Payloads(modal, form, price, env.clientNow(0), iso);
      |Intended(modal, form, price, env, calendar)| == |p| &&
      Carries(Stamped(p[i], env.clientId(i), env.clientNow(i)), Intended(modal, form, price, env, calendar)[i], env.clientNow(i))
  {
    assert env.clientId(i) != "" && env.clientNow(i) != "";
    if modal == "repair" {
      assert |Payloads(modal, form, price, env.clientNow(0), iso)| == 1;
      assert i == 0;
      RepairCarries(modal, form, price, env, iso, calendar);
    } else if modal == "loan" {
      LoanCarries(modal, form, price, env, iso, calendar, i);
    } else if modal == "reload" {
      assert i == 0;
      ReloadCarries(modal, form, price, env, iso, calendar);
    } else {
      assert i == 0;
      PlainCarries(modal, form, price, env, iso, calendar);
    }
  }

  /** The i-th row a submission appends reads back as the i-th intended transaction. */
  lemma RowReadsBack(modal: string, form: Form, price: Option<real>, env: Env, iso: string -> string,
                     calendar: string -> Stamp, i: nat)
    requires WellFormed(form) && Stamps(env)
    requires i < |Payloads(modal, form, price, env.clientNow(0), iso)|
    ensures var p := Payloads(modal, form, price, env.clientNow(0), iso);
      var want := Intended(modal, form, price, env, calendar);
      && |want| == |p|
      && Records.Decode(Store.ToRecord(Store.HeaderRow(), SentRows(p, env, 0)[i]), calendar) == Some(want[i])
  {
    var p := Payloads(modal, form, price, env.clientNow(0), iso);
    var want := Intended(modal, form, price, env, calendar);
    var when := env.clientNow(i);
    var data := Stamped(p[i], env.clientId(i), when);
    PayloadsCarry(modal, form, price, env, iso, calendar, i);
    SentRowAt(p, env, i);
    CarriedRow(data, want[i], when, env.serverId(i), env.serverNow(i));
    Records.StoredRoundTrip(want[i], Str(UserId), when, calendar);
  }

  /** Every row a submission appends reads back as the intended transaction. */
  lemma RowsReadBack(modal: string, form: Form, price: Option<real>, env: Env, iso: string -> string, calendar: string -> Stamp)
    requires WellFormed(form) && Stamps(env)
    ensures var rows := SentRows(Payloads(modal, form, price, env.clientNow(0), iso), env, 0);
      var want := Intended(modal, form, price, env, calendar);
      && |rows| == |want|
      && forall i :: 0 <= i < |rows| ==>
        Records.Decode(Store.ToRecord(Store.HeaderRow(), rows[i]), calendar) == Some(want[i])
  {
    var p := Payloads(modal, form, price, env.clientNow(0), iso);
    forall i | 0 <= i < |p|
      ensures Records.Decode(Store.ToRecord(Store.HeaderRow(), SentRows(p, env, 0)[i]), calendar)
              == Some(Intended(modal, form, price, env, calendar)[i])
    {
      RowReadsBack(modal, form, price, env, iso, calendar, i);
    }
  }

  /** What a submission leaves in the sheet is what the client meant: under
      the created header, the record fetched from each appended row reads as
      the intended transaction, whenever each stamp's time text denotes its
      time. */
  lemma SubmittedRecords(modal: string, form: Form, env: Env, iso: string -> string, calendar: string -> Stamp)
    requires WellFormed(form) && Stamps(env)
    ensures var price := Price(form);
      var rows := SentRows(Payloads(modal, form, price, env.clientNow(0), iso), env, 0);
      var want := Intended(modal, form, price, env, calendar);
      && |rows| == |want|
      && forall i :: 0 <= i < |rows| ==>
        Records.Decode(Store.ToRecord(Store.HeaderRow(), rows[i]), calendar) == Some(want[i])
  {
    RowsReadBack(modal, form, Price(form), env, iso, calendar);
  }

  // ---- What the new records do to the balances and the month ----

  /** How far a new deposit, withdrawal or reload moves the account it names:
      a deposit raises a regular account (and lowers a loan account) by the
      amount, a withdrawal lowers it by the amount, and a reload lowers it by
      the amount only when it was marked paid. */
  function Shift(modal: string, form: Form, price: Option<real>): real {
    if modal == "deposit" then (if Accounts.IsLoan(TextOf(form, "bank_account")) then -Amount(price) else Amount(price))
    else if modal == "withdraw" || ReloadPaid(form) then -Amount(price)
    else 0.0
  }

  /** A new deposit, withdrawal or reload moves the account it names by its
      shift and leaves every other balance alone. */
  lemma NewRecordShifts(txs: seq<Transaction>, modal: string, form: Form, price: Option<real>, env: Env,
                        calendar: string -> Stamp)
    requires modal in {"deposit", "withdraw", "reload"}
    requires Accounts.IsEnumerated(TextOf(form, "bank_account"))
    ensures var acc, before := TextOf(form, "bank_account"), Ledger.ComputeBalances(txs);
      var after := Ledger.ComputeBalances(txs + Intended(modal, form, price, env, calendar));
      && after.Keys == before.Keys
      && after[acc] == before[acc] + Shift(modal, form, price)
      && forall a :: a in before && a != acc ==> after[a] == before[a]
  {
    var acc := TextOf(form, "bank_account");
    var kind := if modal == "deposit" then Deposit else if modal == "withdraw" then Withdrawal else Reload;
    var t := Meant(form, price, kind, modal != "reload" || ReloadPaid(form), env.clientId(0), calendar(env.clientNow(0)));
    assert Intended(modal, form, price, env, calendar) == [t];
    assert Ledger.Effect(t, acc) == Shift(modal, form, price) by {
      Accounts.EnumeratedNonEmpty(acc);
    }
    Ledger.RuleTable(t);
    Ledger.AppendRecord(txs, t);
    Ledger.SameKeys(txs + [t], txs);
  }

  /** A new repair is unpaid, so it moves no balance and counts towards
      neither the month's income nor its expense. */
  lemma NewRepairInert(txs: seq<Transaction>, form: Form, price: Option<real>, env: Env, calendar: string -> Stamp,
                       ym: YearMonth)
    ensures var after := txs + Intended("repair", form, price, env, calendar);
      && Ledger.ComputeBalances(after) == Ledger.ComputeBalances(txs)
      && Monthly.Income(after, ym) == Monthly.Income(txs, ym)
      && Monthly.Expense(after, ym) == Monthly.Expense(txs, ym)
  {
    var t := Intended("repair", form, price, env, calendar)[0];
    assert Intended("repair", form, price, env, calendar) == [t];
    Ledger.InertRecord(txs, t);
    Monthly.AppendRecord(txs, t, ym);
  }

  /** A loan drawn on a loan account into a regular account raises both
      balances by the amount and leaves every other balance alone. */
  lemma NewLoanShifts(txs: seq<Transaction>, form: Form, price: Option<real>, env: Env, calendar: string -> Stamp)
    requires Accounts.IsLoan(TextOf(form, "loan_account"))
    requires TextOf(form, "bank_account") in Accounts.Regular
    ensures var loan, bank := TextOf(form, "loan_account"), TextOf(form, "bank_account");
      var before := Ledger.ComputeBalances(txs);
      var after := Ledger.ComputeBalances(txs + Intended("loan", form, price, env, calendar));
      && after.Keys == before.Keys
      && after[loan] == before[loan] + Amount(price)
      && after[bank] == before[bank] + Amount(price)
      && forall a :: a in before && a != loan && a != bank ==> after[a] == before[a]
  {
    var want := Intended("loan", form, price, env, calendar);
    assert txs + want == txs + [want[0]] + [want[1]];
    Ledger.LoanPairing(txs, want[0], want[1]);
  }

  /** Of a loan's two records only the funds count, as income of the month
      they are stamped in; the debt is neither income nor expense. */
  lemma NewLoanIncome(txs: seq<Transaction>, form: Form, price: Option<real>, env: Env, calendar: string -> Stamp,
                      ym: YearMonth)
    ensures var want := Intended("loan", form, price, env, calendar);
      && Monthly.Income(txs + want, ym) ==
         Monthly.Income(txs, ym) + (if Monthly.InMonth(want[1], ym) then Amount(price) else 0.0)
      && Monthly.Expense(txs + want, ym) == Monthly.Expense(txs, ym)
  {
    var want := Intended("loan", form, price, env, calendar);
    assert txs + want == txs + [want[0]] + [want[1]];
    Monthly.LoansNotCounted(txs, want[0], ym);
    Monthly.AppendRecord(txs + [want[0]], want[1], ym);
  }
}
