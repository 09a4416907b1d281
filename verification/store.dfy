/** The web app behind the client (backend.js): one sheet of transaction rows
    shared by all users, a fetch filtered by user, an append with defaults, and
    a PIN-gated patch of one row. The sheet is an abstract table: its values
    header row first, or `None` while it does not exist yet. */
module Store {
  import opened Wrappers
  import opened Values
  import Numbers

  /** The PIN every `updateStatus` request must carry. */
  const SecurePin: string := "239535"

  /** The column names written when the sheet is created, in column order. */
  const Header: seq<string> := [
    "id", "date", "userId", "type", "amount", "original_amount",
    "bank_account", "reason", "is_paid", "customer_name",
    "phone_name", "fault", "price_status"]

  type Row = seq<Value>

  /** All values of the sheet, the header row first. */
  type Table = seq<Row>

  function HeaderRow(): (r: Row)
    ensures |r| == |Header|
    ensures forall j :: 0 <= j < |r| ==> r[j] == Str(Header[j])
  {
    seq(|Header|, j requires 0 <= j < |Header| => Str(Header[j]))
  }

  /** `getSheet()`: the sheet as it is, or a new one holding just the header row. */
  function GetSheet(store: Option<Table>): (t: Table)
    ensures |t| >= 1 || store == Some([])
    ensures store.Some? ==> t == store.value
    ensures store.None? ==> t == [HeaderRow()]
  {
    match store
    case Some(t) => t
    case None => [HeaderRow()]
  }

  /** The header row of a table (`data[0]`). */
  function Headers(t: Table): Row {
    if |t| == 0 then [] else t[0]
  }

  /** The rows below the header (`data.slice(1)`). */
  function Body(t: Table): seq<Row> {
    if |t| == 0 then [] else t[1..]
  }

  /** A cell read through the sheet's data range: the range is as wide as the
      widest row, so a cell past the end of a shorter row reads as blank. */
  function Cell(row: Row, j: nat): Value {
    if j < |row| then row[j] else Str("")
  }

  // ---- Column lookup ----

  /** No later column of the header has the same name as column `j`. */
  predicate LastNamed(header: Row, j: int)
    requires 0 <= j < |header|
  {
    forall i :: j < i < |header| ==> Text(header[i]) != Text(header[j])
  }

  /** `cm` maps every name of `header` to the last column carrying it, and
      nothing else. */
  predicate MapsLastColumns(header: Row, cm: map<string, nat>) {
    && (forall k :: k in cm ==> cm[k] < |header| && Text(header[cm[k]]) == k && LastNamed(header, cm[k]))
    && (forall j :: 0 <= j < |header| ==> Text(header[j]) in cm)
    && (forall j :: 0 <= j < |header| && LastNamed(header, j) ==> cm[Text(header[j])] == j)
  }

  /** `colMap`: each header name to its column, the last column winning when
      a name repeats. Fetched records are built the same way. */
  function ColumnMap(header: Row): (cm: map<string, nat>)
    ensures MapsLastColumns(header, cm)
    decreases |header|
  {
    if |header| == 0 then map[]
    else
      var last := |header| - 1;
      var prev := ColumnMap(header[..last]);
      ExtendColumns(header, prev);
      prev[Text(header[last]) := last]
  }

  /** Assigning the last column's name after the others keeps the map right. */
  lemma ExtendColumns(header: Row, prev: map<string, nat>)
    requires |header| > 0 && MapsLastColumns(header[..|header| - 1], prev)
    ensures MapsLastColumns(header, prev[Text(header[|header| - 1]) := |header| - 1])
  {
    var last := |header| - 1;
    var init, name := header[..last], Text(header[last]);
    var cm := prev[name := last];
    LastNamedStep(header);
    forall k | k in cm
      ensures cm[k] < |header| && Text(header[cm[k]]) == k && LastNamed(header, cm[k])
    {
      if k != name {
        var j := prev[k];
        assert init[j] == header[j] && LastNamed(init, j);
      }
    }
    forall j | 0 <= j < |header|
      ensures Text(header[j]) in cm
    {
      if j < last {
        assert init[j] == header[j];
      }
    }
    forall j | 0 <= j < |header| && LastNamed(header, j)
      ensures cm[Text(header[j])] == j
    {
      if j < last {
        assert init[j] == header[j];
      }
    }
  }

  /** How `LastNamed` relates a header to the header without its last column. */
  lemma LastNamedStep(header: Row)
    requires |header| > 0
    ensures forall j :: 0 <= j < |header| - 1 ==>
      (LastNamed(header, j) <==> LastNamed(header[..|header| - 1], j) && Text(header[|header| - 1]) != Text(header[j]))
    ensures LastNamed(header, |header| - 1)
  {
    var init := header[..|header| - 1];
    forall j | 0 <= j < |header| - 1
      ensures LastNamed(header, j) <==> LastNamed(init, j) && Text(header[|header| - 1]) != Text(header[j])
    {
      assert forall i :: 0 <= i < |init| ==> init[i] == header[i];
    }
  }

  /** `data[i][colMap[key]]`: undefined when no column has that name. */
  function Lookup(cm: map<string, nat>, row: Row, key: string): Value {
    if key in cm then Cell(row, cm[key]) else Undefined
  }

  /** The record `handleFetchData` builds from a row: each header name maps to
      the cell below it, a later column overwriting an earlier one of the same name. */
  function ToRecord(header: Row, row: Row): (r: Record)
    ensures forall k :: k in r <==> k in ColumnMap(header)
    ensures forall k :: k in r ==> r[k] == Lookup(ColumnMap(header), row, k)
  {
    var cm := ColumnMap(header);
    map k | k in cm :: Cell(row, cm[k])
  }

  // ---- Fetch ----

  /** The rows whose third cell is strictly equal to the user id, in sheet order. */
  function Owned(rows: seq<Row>, userId: Value): (r: seq<Row>)
    ensures |r| <= |rows|
    ensures forall row :: row in r ==> row in rows && StrictEquals(Cell(row, 2), userId)
    ensures forall row :: row in rows && StrictEquals(Cell(row, 2), userId) ==> row in r
    ensures forall row :: multiset(r)[row] == if StrictEquals(Cell(row, 2), userId) then multiset(rows)[row] else 0
    decreases |rows|
  {
    if |rows| == 0 then []
    else
      var init := Owned(rows[..|rows| - 1], userId);
      var last := rows[|rows| - 1];
      assert rows == rows[..|rows| - 1] + [last];
      assert forall row :: row in rows ==> row in rows[..|rows| - 1] || row == last;
      if StrictEquals(Cell(last, 2), userId) then init + [last] else init
  }

  /** `handleFetchData`: the user's rows as records keyed by the header. */
  function Fetch(t: Table, userId: Value): (r: seq<Record>)
    ensures |r| == |Owned(Body(t), userId)|
    ensures forall i :: 0 <= i < |r| ==> r[i] == ToRecord(Headers(t), Owned(Body(t), userId)[i])
  {
    RecordsOf(Headers(t), Owned(Body(t), userId))
  }

  /** Each row read as a record under the header, in order. */
  function RecordsOf(header: Row, rows: seq<Row>): (r: seq<Record>)
    ensures |r| == |rows|
    ensures forall i :: 0 <= i < |r| ==> r[i] == ToRecord(header, rows[i])
  {
    seq(|rows|, i requires 0 <= i < |rows| => ToRecord(header, rows[i]))
  }

  // ---- Add ----

  /** The value a new row takes in a column when the payload's field is falsy. */
  function Default(column: string, uuid: string, now: string): Value {
    if column == "id" then Str(uuid)
    else if column == "date" then Str(now)
    else if column == "type" then Str("general")
    else if column == "amount" || column == "original_amount" then Num(0.0)
    else Str("")
  }

  /** The payload's paid field is strictly the boolean true or the text "TRUE". */
  predicate PaidFlag(v: Value) {
    StrictEquals(v, Bool(true)) || StrictEquals(v, Str("TRUE"))
  }

  /** The row `handleAddTransaction` appends. `uuid` stands for
      `Utilities.getUuid()` and `now` for the current time as ISO text. */
  function NewRow(userId: Value, data: Record, uuid: string, now: string): (row: Row)
    ensures |row| == |Header|
    ensures row[2] == userId
    ensures row[8] == Bool(PaidFlag(Field(data, "is_paid")))
    ensures forall j :: 0 <= j < |Header| && j != 2 && j != 8 ==>
      row[j] == Or(Field(data, Header[j]), Default(Header[j], uuid, now))
  {
    [ Or(Field(data, "id"), Str(uuid)),
      Or(Field(data, "date"), Str(now)),
      userId,
      Or(Field(data, "type"), Str("general")),
      Or(Field(data, "amount"), Num(0.0)),
      Or(Field(data, "original_amount"), Num(0.0)),
      Or(Field(data, "bank_account"), Str("")),
      Or(Field(data, "reason"), Str("")),
      Bool(Field(data, "is_paid") == Bool(true) || Field(data, "is_paid") == Str("TRUE")),
      Or(Field(data, "customer_name"), Str("")),
      Or(Field(data, "phone_name"), Str("")),
      Or(Field(data, "fault"), Str("")),
      Or(Field(data, "price_status"), Str("")) ]
  }

  // ---- Update ----

  /** The type fixing applied to an update value before it is written:
      amounts go through `Number`, and `is_paid` becomes a boolean that is
      true only for `true`, `'true'` and `'TRUE'`. */
  function Coerce(key: string, v: Value): (r: Value)
    ensures (key == "amount" || key == "original_amount") ==> r == NumberOf(v)
    ensures key == "is_paid" ==> r == Bool(v in {Bool(true), Str("true"), Str("TRUE")})
    ensures key !in {"amount", "original_amount", "is_paid"} ==> r == v
  {
    if key == "amount" || key == "original_amount" then NumberOf(v)
    else if key == "is_paid" then
      Bool(StrictEquals(v, Bool(true)) || StrictEquals(v, Str("true")) || StrictEquals(v, Str("TRUE")))
    else v
  }

  /** Column `j` is the one an update key names: its header is a key of the
      update and it is that name's column. */
  predicate Written(header: Row, updates: Record, j: int) {
    0 <= j < |header| && Text(header[j]) in updates && LastNamed(header, j)
  }

  /** The row after the update: every column an update key names holds the
      coerced value, every other cell reads as before. Keys that name no
      column are ignored. */
  function PatchRow(row: Row, header: Row, updates: Record): (r: Row)
    ensures |r| == if |row| < |header| then |header| else |row|
    ensures forall j :: 0 <= j < |r| && Written(header, updates, j) ==>
      r[j] == Coerce(Text(header[j]), updates[Text(header[j])])
    ensures forall j :: 0 <= j < |r| && !Written(header, updates, j) ==> r[j] == Cell(row, j)
  {
    var width := if |row| < |header| then |header| else |row|;
    seq(width, j requires 0 <= j < width =>
      if Written(header, updates, j) then Coerce(Text(header[j]), updates[Text(header[j])]) else Cell(row, j))
  }

  /** The row matches the requested record: `id` and `userId` both `===`. */
  predicate Matches(cm: map<string, nat>, row: Row, txId: Value, userId: Value) {
    StrictEquals(Lookup(cm, row, "id"), txId) && StrictEquals(Lookup(cm, row, "userId"), userId)
  }

  /** The first matching row at or after `from`. */
  function FirstMatch(t: Table, cm: map<string, nat>, txId: Value, userId: Value, from: nat): (r: Option<nat>)
    ensures r.Some? ==> from <= r.value < |t| && Matches(cm, t[r.value], txId, userId)
    ensures r.Some? ==> forall i :: from <= i < r.value ==> !Matches(cm, t[i], txId, userId)
    ensures r.None? ==> forall i :: from <= i < |t| ==> !Matches(cm, t[i], txId, userId)
    decreases |t| - from
  {
    if from >= |t| then None
    else if Matches(cm, t[from], txId, userId) then Some(from)
    else FirstMatch(t, cm, txId, userId, from + 1)
  }

  /** What a request returns. */
  datatype Reply =
    | Success                    // { success: true }
    | Failure(message: string)   // { success: false, message: error.toString() }
    | Listing(records: seq<Record>)
    | Refusal(error: string)     // { error: ... } from doGet

  /** The sheet after a request, and the reply. */
  datatype Outcome = Outcome(store: Option<Table>, reply: Reply)

  const NotFound: string := "Error: Transaction not found"
  const NoUpdates: string := "TypeError: Cannot convert undefined or null to object"
  const NoData: string := "TypeError: Cannot read properties of undefined (reading 'id')"

  /** `handleUpdateTransaction`: patch the first row with the given id and user. */
  function Update(t: Table, userId: Value, txId: Value, updates: Option<Record>): (o: Outcome)
    ensures o.reply == Success || o.store == Some(t)
    ensures o.reply == Failure(NotFound) <==>
      forall i :: 1 <= i < |t| ==> !Matches(ColumnMap(Headers(t)), t[i], txId, userId)
    ensures o.reply == Success <==>
      updates.Some? && exists i :: 1 <= i < |t| && Matches(ColumnMap(Headers(t)), t[i], txId, userId)
    ensures o.reply == Success ==>
      exists i ::
        && 1 <= i < |t|
        && Matches(ColumnMap(Headers(t)), t[i], txId, userId)
        && (forall j :: 1 <= j < i ==> !Matches(ColumnMap(Headers(t)), t[j], txId, userId))
        && o.store == Some(t[i := PatchRow(t[i], Headers(t), updates.value)])
  {
    var cm := ColumnMap(Headers(t));
    match FirstMatch(t, cm, txId, userId, 1)
    case None => Outcome(Some(t), Failure(NotFound))
    case Some(i) =>
      match updates
      case None => Outcome(Some(t), Failure(NoUpdates))
      case Some(u) => Outcome(Some(t[i := PatchRow(t[i], Headers(t), u)]), Success)
  }

  /** `handleAddTransaction`: the sheet is fetched (and created) first, then
      the payload is read; a missing payload fails before anything is appended. */
  function Add(t: Table, userId: Value, data: Option<Record>, uuid: string, now: string): (o: Outcome)
    ensures data.None? ==> o == Outcome(Some(t), Failure(NoData))
    ensures data.Some? ==> o == Outcome(Some(t + [NewRow(userId, data.value, uuid, now)]), Success)
  {
    match data
    case None => Outcome(Some(t), Failure(NoData))
    case Some(d) => Outcome(Some(t + [NewRow(userId, d, uuid, now)]), Success)
  }

  /** A parsed POST body. `data` and `updates` are `None` when absent. */
  datatype Request = Request(
    action: Value,
    userId: Value,
    pin: Value,
    transactionId: Value,
    data: Option<Record>,
    updates: Option<Record>)

  /** `doPost`: a user id is required, then the action decides; an update
      must carry the PIN (compared as text) before the sheet is touched. */
  function Post(store: Option<Table>, req: Request, uuid: string, now: string): (o: Outcome)
    ensures !Truthy(req.userId) ==> o == Outcome(store, Failure("Error: User ID required"))
    ensures o.reply == Success ==> Truthy(req.userId)
    ensures o.reply == Success && req.action == Str("updateStatus") ==> Text(req.pin) == SecurePin
    ensures Truthy(req.userId) && req.action !in {Str("addTransaction"), Str("updateStatus")} ==>
      o == Outcome(store, Failure("Error: Invalid Action"))
  {
    if !Truthy(req.userId) then Outcome(store, Failure("Error: User ID required"))
    else if StrictEquals(req.action, Str("addTransaction")) then
      Add(GetSheet(store), req.userId, req.data, uuid, now)
    else if StrictEquals(req.action, Str("updateStatus")) then
      if Text(req.pin) != Text(Str(SecurePin)) then Outcome(store, Failure("Error: Incorrect PIN"))
      else Update(GetSheet(store), req.userId, req.transactionId, req.updates)
    else Outcome(store, Failure("Error: Invalid Action"))
  }

  /** `doGet`: the user's records, or an error object when no user is given. */
  function Get(store: Option<Table>, userId: Value): (o: Outcome)
    ensures !Truthy(userId) ==> o == Outcome(store, Refusal("User ID required"))
    ensures Truthy(userId) ==> o.store == Some(GetSheet(store))
    ensures Truthy(userId) ==> o.reply == Listing(Fetch(GetSheet(store), userId))
  {
    if !Truthy(userId) then Outcome(store, Refusal("User ID required"))
    else Outcome(Some(GetSheet(store)), Listing(Fetch(GetSheet(store), userId)))
  }

  // ---- The update as the code runs it ----

  /** `handleUpdateTransaction` step by step: build `colMap`, scan the rows
      below the header for the first match, and write the update keys into it. */
  method HandleUpdate(t: Table, userId: Value, txId: Value, updates: Option<Record>) returns (o: Outcome)
    ensures o == Update(t, userId, txId, updates)
  {
    var cm := BuildColumnMap(Headers(t));
    var found, i := FindRow(t, cm, txId, userId);
    if !found {
      return Outcome(Some(t), Failure(NotFound));
    }
    if updates.None? {
      return Outcome(Some(t), Failure(NoUpdates));
    }
    var row := PatchStep(t[i], Headers(t), updates.value);
    o := Outcome(Some(t[i := row]), Success);
  }

  /** The column map built by visiting the header left to right, each name
      set to its column so that a later column of the same name wins. */
  method BuildColumnMap(header: Row) returns (cm: map<string, nat>)
    ensures cm == ColumnMap(header)
  {
    cm := map[];
    for c := 0 to |header|
      invariant cm == ColumnMap(header[..c])
    {
      assert header[..c + 1][..c] == header[..c];
      cm := cm[Text(header[c]) := c];
    }
    assert header[..|header|] == header;
  }

  /** The row scan: from the first row below the header, stop at the first
      row whose id and user both match. */
  method FindRow(t: Table, cm: map<string, nat>, txId: Value, userId: Value) returns (found: bool, i: nat)
    ensures found <==> FirstMatch(t, cm, txId, userId, 1).Some?
    ensures found ==> i == FirstMatch(t, cm, txId, userId, 1).value
  {
    found := false;
    i := 1;
    while i < |t|
      invariant 1 <= i
      invariant FirstMatch(t, cm, txId, userId, 1) == FirstMatch(t, cm, txId, userId, i)
      decreases |t| - i
    {
      if Matches(cm, t[i], txId, userId) {
        found := true;
        return;
      }
      i := i + 1;
    }
  }

  /** The `Object.keys(updates).forEach` loop on one row: every key that names
      a column writes its coerced value there. Two keys never name the same
      column, so the order of the keys does not matter. */
  method PatchStep(row: Row, header: Row, updates: Record) returns (r: Row)
    ensures r == PatchRow(row, header, updates)
  {
    var cm := ColumnMap(header);
    var width := if |row| < |header| then |header| else |row|;
    r := seq(width, j requires 0 <= j < width => Cell(row, j));
    var todo := updates.Keys;
    while todo != {}
      invariant todo <= updates.Keys
      invariant PatchedBut(r, row, header, updates, todo)
      decreases todo
    {
      var key :| key in todo;
      if key in cm {
        PatchWrite(r, row, header, updates, todo, cm, key);
        r := r[cm[key] := Coerce(key, updates[key])];
      } else {
        PatchSkip(r, row, header, updates, todo, cm, key);
      }
      todo := todo - {key};
    }
  }

  /** `r` is the row being patched: every column named by an update key
      outside `todo` holds the coerced value, every other cell reads as before. */
  predicate PatchedBut(r: Row, row: Row, header: Row, updates: Record, todo: set<string>) {
    && |r| == (if |row| < |header| then |header| else |row|)
    && forall j :: 0 <= j < |r| ==>
      r[j] == if Written(header, updates, j) && Text(header[j]) !in todo
        then Coerce(Text(header[j]), updates[Text(header[j])]) else Cell(row, j)
  }

  /** Writing an update key into the column it names moves the key out of
      the pending ones. */
  lemma PatchWrite(r: Row, row: Row, header: Row, updates: Record, todo: set<string>, cm: map<string, nat>, key: string)
    requires PatchedBut(r, row, header, updates, todo) && key in todo && key in updates
    requires MapsLastColumns(header, cm) && key in cm
    ensures PatchedBut(r[cm[key] := Coerce(key, updates[key])], row, header, updates, todo - {key})
  {
    var c := cm[key];
    assert Text(header[c]) == key && LastNamed(header, c);
    var r' := r[c := Coerce(key, updates[key])];
    forall j | 0 <= j < |r'|
      ensures r'[j] == if Written(header, updates, j) && Text(header[j]) !in todo - {key}
        then Coerce(Text(header[j]), updates[Text(header[j])]) else Cell(row, j)
    {
      if j != c {
        assert r'[j] == r[j];
        if Written(header, updates, j) {
          assert cm[Text(header[j])] == j;
        }
      }
    }
  }

  /** An update key that names no column leaves the row as it is. */
  lemma PatchSkip(r: Row, row: Row, header: Row, updates: Record, todo: set<string>, cm: map<string, nat>, key: string)
    requires PatchedBut(r, row, header, updates, todo) && key in todo
    requires MapsLastColumns(header, cm) && key !in cm
    ensures PatchedBut(r, row, header, updates, todo - {key})
  {
    forall j | 0 <= j < |r|
      ensures r[j] == if Written(header, updates, j) && Text(header[j]) !in todo - {key}
        then Coerce(Text(header[j]), updates[Text(header[j])]) else Cell(row, j)
    {
      if j < |header| {
        assert Text(header[j]) in cm;
      }
    }
  }

  // ---- Properties ----

  /** A header whose column names are pairwise distinct maps each name to its
      own column. */
  lemma DistinctColumns(header: Row)
    requires forall i, j :: 0 <= i < j < |header| ==> Text(header[i]) != Text(header[j])
    ensures forall j :: 0 <= j < |header| ==> LastNamed(header, j) && ColumnMap(header)[Text(header[j])] == j
  {
  }

  /** The header written at creation names thirteen distinct columns, so every
      name's column is its position. */
  lemma HeaderColumns()
    ensures forall j :: 0 <= j < |Header| ==> LastNamed(HeaderRow(), j)
    ensures forall j :: 0 <= j < |Header| ==> ColumnMap(HeaderRow())[Header[j]] == j
  {
    var h := HeaderRow();
    assert forall j :: 0 <= j < |h| ==> Text(h[j]) == Header[j];
    HeaderDistinct();
    DistinctColumns(h);
  }

  /** No two of the created column names are the same. */
  lemma HeaderDistinct()
    ensures forall i, j :: 0 <= i < j < |Header| ==> Header[i] != Header[j]
  {
  }

  /** Under the created header no name other than the thirteen has a column. */
  lemma HeaderKeysOnly()
    ensures forall k :: k in ColumnMap(HeaderRow()) ==> k in Header
  {
    var h := HeaderRow();
    forall k | k in ColumnMap(h)
      ensures k in Header
    {
      var j := ColumnMap(h)[k];
      assert h[j] == Str(Header[j]);
    }
  }

  /** Posting an add appends exactly one row, and a later fetch returns what
      it returned before plus, for the posting user only, that row's record. */
  lemma AddThenFetch(store: Option<Table>, req: Request, uuid: string, now: string, who: Value)
    requires store != Some([])
    requires Truthy(req.userId) && req.action == Str("addTransaction") && req.data.Some?
    ensures var t := GetSheet(store);
      var row := NewRow(req.userId, req.data.value, uuid, now);
      var o := Post(store, req, uuid, now);
      && o == Outcome(Some(t + [row]), Success)
      && Fetch(t + [row], who) == Fetch(t, who) + (if StrictEquals(row[2], who) then [ToRecord(Headers(t), row)] else [])
  {
    var t := GetSheet(store);
    var row := NewRow(req.userId, req.data.value, uuid, now);
    FetchAppend(t, row, who);
  }

  /** The user filter works row by row: filtering two runs of rows one after
      the other is filtering each and joining the results, so every matching
      copy is kept in sheet order. */
  lemma {:induction false} OwnedConcat(xs: seq<Row>, ys: seq<Row>, userId: Value)
    ensures Owned(xs + ys, userId) == Owned(xs, userId) + Owned(ys, userId)
    decreases |ys|
  {
    if |ys| > 0 {
      var last := ys[|ys| - 1];
      assert (xs + ys)[..|xs + ys| - 1] == xs + ys[..|ys| - 1];
      assert (xs + ys)[|xs + ys| - 1] == last;
      OwnedConcat(xs, ys[..|ys| - 1], userId);
    } else {
      assert xs + ys == xs;
    }
  }

  /** After an added row, the user's listing is the listing before it plus
      the new row's record when the row is theirs; a row added for someone
      else leaves the listing as it was. */
  lemma AddThenGet(store: Option<Table>, req: Request, uuid: string, now: string, who: Value)
    requires store != Some([])
    requires Truthy(req.userId) && req.action == Str("addTransaction") && req.data.Some?
    requires Truthy(who)
    ensures var row := NewRow(req.userId, req.data.value, uuid, now);
      var before := Get(store, who);
      var after := Get(Post(store, req, uuid, now).store, who);
      && before.reply.Listing? && after.reply.Listing?
      && after.reply.records == before.reply.records +
           (if StrictEquals(req.userId, who) then [ToRecord(Headers(GetSheet(store)), row)] else [])
  {
    AddThenFetch(store, req, uuid, now, who);
  }

  /** A fetch after a row is appended returns what it returned before, plus
      that row's record when the row belongs to the user. */
  lemma FetchAppend(t: Table, row: Row, who: Value)
    requires |t| >= 1
    ensures Fetch(t + [row], who) ==
      Fetch(t, who) + (if StrictEquals(Cell(row, 2), who) then [ToRecord(Headers(t), row)] else [])
  {
    var body, h := Body(t), Headers(t);
    var extra := if StrictEquals(Cell(row, 2), who) then [row] else [];
    assert Body(t + [row]) == body + [row];
    assert Headers(t + [row]) == h;
    OwnedSnoc(body, row, who);
    RecordsOfConcat(h, Owned(body, who), extra);
    RecordsOfExtra(h, row, extra);
  }

  /** Filtering one more row adds it exactly when it belongs to the user. */
  lemma OwnedSnoc(rows: seq<Row>, row: Row, who: Value)
    ensures Owned(rows + [row], who) == Owned(rows, who) + (if StrictEquals(Cell(row, 2), who) then [row] else [])
  {
    assert (rows + [row])[..|rows|] == rows;
  }

  /** Reading no row or the one row. */
  lemma RecordsOfExtra(header: Row, row: Row, extra: seq<Row>)
    requires extra == [] || extra == [row]
    ensures RecordsOf(header, extra) == if extra == [] then [] else [ToRecord(header, row)]
  {
  }

  /** Reading two runs of rows is reading each and joining the results. */
  lemma RecordsOfConcat(header: Row, xs: seq<Row>, ys: seq<Row>)
    ensures RecordsOf(header, xs + ys) == RecordsOf(header, xs) + RecordsOf(header, ys)
  {
    var lhs := RecordsOf(header, xs + ys);
    var rhs := RecordsOf(header, xs) + RecordsOf(header, ys);
    forall i | 0 <= i < |lhs| ensures lhs[i] == rhs[i] {
      if i < |xs| {
        assert (xs + ys)[i] == xs[i];
      } else {
        assert (xs + ys)[i] == ys[i - |xs|];
      }
    }
  }


  /** An update is refused, with nothing written, exactly when the PIN's text
      is not the secure PIN. */
  lemma PinGate(store: Option<Table>, req: Request, uuid: string, now: string)
    requires Truthy(req.userId) && req.action == Str("updateStatus")
    ensures Text(req.pin) != SecurePin <==>
      Post(store, req, uuid, now) == Outcome(store, Failure("Error: Incorrect PIN"))
  {
  }

  /** The PIN is compared as text, so the number 239535 opens the gate as well
      as the string. */
  lemma NumericPinAccepted()
    ensures Text(Num(239535.0)) == SecurePin && Text(Str(SecurePin)) == SecurePin
  {
    assert Numbers.ShowNat(2) == "2";
    assert Numbers.ShowNat(23) == "23";
    assert Numbers.ShowNat(239) == "239";
    assert Numbers.ShowNat(2395) == "2395";
    assert Numbers.ShowNat(23953) == "23953";
    assert Numbers.ShowNat(239535) == "239535";
    assert Numbers.WholePart(239535.0) == 239535;
    assert Numbers.FractionPart(239535.0) == 0.0;
    assert Numbers.Show(239535.0) == Numbers.Layout("", "239535", "");
  }

  /** On a sheet with the created header, a patch writes each update key that
      is a column name, coerced, into that column, and leaves every other cell
      as it reads. */
  lemma PatchCanonical(row: Row, updates: Record)
    ensures var r := PatchRow(row, HeaderRow(), updates);
      forall j :: 0 <= j < |r| ==>
        r[j] == if j < |Header| && Header[j] in updates then Coerce(Header[j], updates[Header[j]]) else Cell(row, j)
  {
    HeaderColumns();
  }

  /** An update that succeeds changes one row, the first that matches both the
      id and the user, and no other. */
  lemma UpdateTouchesOneRow(t: Table, userId: Value, txId: Value, updates: Option<Record>)
    requires Update(t, userId, txId, updates).reply == Success
    ensures var t' := Update(t, userId, txId, updates).store.value;
      && |t'| == |t|
      && exists i ::
           && 1 <= i < |t|
           && Matches(ColumnMap(Headers(t)), t[i], txId, userId)
           && (forall j :: 0 <= j < |t| && j != i ==> t'[j] == t[j])
  {
  }
}
