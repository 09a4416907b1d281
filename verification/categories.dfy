/** The expense breakdown pie (Charts.tsx `CategoryPieChart`): withdrawals and
    reloads, of any date and paid or not, grouped under one key each. */
module Categories {
  import opened Transactions
  import opened Sums

  /** One pie slice: a key and the total amount filed under it. */
  datatype Slice = Slice(name: string, value: real)

  /** Only withdrawals and reloads enter the pie. */
  predicate IsSpending(t: Transaction) {
    t.kind == Withdrawal || t.kind == Reload
  }

  /** `s.split(' ')[0]`: everything before the first space. */
  function FirstWord(s: string): (w: string)
    ensures |w| <= |s| && w == s[..|w|]
    ensures ' ' !in w
    ensures |w| == |s| || s[|w|] == ' '
  {
    if |s| == 0 || s[0] == ' ' then "" else [s[0]] + FirstWord(s[1..])
  }

  /** The slice a spending record is filed under: every reload under "Reload",
      a withdrawal under the first word of its reason, or "Other" without one. */
  function Key(t: Transaction): string
  {
    if t.kind == Reload then "Reload"
    else if t.reason != "" then FirstWord(t.reason)
    else "Other"
  }

  function Names(slices: seq<Slice>): (r: seq<string>)
    ensures |r| == |slices|
    ensures forall i :: 0 <= i < |r| ==> r[i] == slices[i].name
  {
    if |slices| == 0 then [] else [slices[0].name] + Names(slices[1..])
  }

  predicate DistinctNames(slices: seq<Slice>) {
    forall i, j :: 0 <= i < j < |slices| ==> slices[i].name != slices[j].name
  }

  /** `dataMap[key] || 0`: the amount under a key, zero when the key is absent. */
  function ValueOf(slices: seq<Slice>, key: string): real
  {
    if |slices| == 0 then 0.0
    else if slices[0].name == key then slices[0].value
    else ValueOf(slices[1..], key)
  }

  function SumValues(slices: seq<Slice>): real
  {
    if |slices| == 0 then 0.0 else slices[0].value + SumValues(slices[1..])
  }

  /** Adding an amount under a key: a key already present keeps
      its place and grows; a new key is appended. Names stay distinct and the
      key is among them afterwards. */
  function AddTo(slices: seq<Slice>, key: string, amount: real): (r: seq<Slice>)
    requires DistinctNames(slices)
    ensures DistinctNames(r)
    ensures forall k :: k in Names(r) <==> k in Names(slices) || k == key
  {
    if |slices| == 0 then [Slice(key, amount)]
    else if slices[0].name == key then
      var r := [Slice(key, slices[0].value + amount)] + slices[1..];
      assert Names(r) == [key] + Names(slices[1..]);
      assert Names(slices) == [key] + Names(slices[1..]);
      r
    else
      var rest := AddTo(slices[1..], key, amount);
      assert slices[0].name !in Names(slices[1..]);
      var r := [slices[0]] + rest;
      assert Names(r) == [slices[0].name] + Names(rest);
      assert Names(slices) == [slices[0].name] + Names(slices[1..]);
      DistinctCons(slices[0], rest);
      r
  }

  /** Adding to a key grows that key's value, and the total, by the amount,
      leaves every other value alone, and keeps the earlier keys in place. */
  lemma {:induction false} AddToValues(slices: seq<Slice>, key: string, amount: real)
    requires DistinctNames(slices)
    ensures var r := AddTo(slices, key, amount);
      && (forall k :: ValueOf(r, k) == ValueOf(slices, k) + (if k == key then amount else 0.0))
      && SumValues(r) == SumValues(slices) + amount
      && |slices| <= |r| && Names(r)[..|slices|] == Names(slices)
  {
    var r := AddTo(slices, key, amount);
    if |slices| > 0 {
      assert Names(slices) == [slices[0].name] + Names(slices[1..]);
      if slices[0].name == key {
        assert key !in Names(slices[1..]);
        NotNamedValue(slices[1..], key);
        assert r[1..] == slices[1..];
        assert Names(r) == [key] + Names(slices[1..]);
      } else {
        var rest := AddTo(slices[1..], key, amount);
        AddToValues(slices[1..], key, amount);
        assert r == [slices[0]] + rest;
        assert r[0] == slices[0] && r[1..] == rest;
        assert Names(r) == [slices[0].name] + Names(rest);
        assert Names(r)[..|slices|] == [slices[0].name] + Names(rest)[..|slices| - 1];
      }
    }
  }

  /** A slice whose name is not among the others' can go in front of them. */
  lemma DistinctCons(x: Slice, s: seq<Slice>)
    requires DistinctNames(s) && x.name !in Names(s)
    ensures DistinctNames([x] + s)
  {
    var r := [x] + s;
    forall i, j | 0 <= i < j < |r|
      ensures r[i].name != r[j].name
    {
      assert r[j] == s[j - 1] && Names(s)[j - 1] == s[j - 1].name;
      if i > 0 {
        assert r[i] == s[i - 1];
      }
    }
  }

  lemma {:induction false} NotNamedValue(slices: seq<Slice>, key: string)
    requires key !in Names(slices)
    ensures ValueOf(slices, key) == 0.0
  {
    if |slices| > 0 {
      assert Names(slices) == [slices[0].name] + Names(slices[1..]);
      NotNamedValue(slices[1..], key);
    }
  }

  function CategoryTerm(key: string): Transaction -> real {
    t => if IsSpending(t) && Key(t) == key then t.amount else 0.0
  }

  function SpendingTerm(): Transaction -> real {
    t => if IsSpending(t) then t.amount else 0.0
  }

  /** The pie data in the order keys first appear: one slice per distinct key,
      a key present exactly when some spending record is filed under it, each
      slice holding the total of the records under its key, and all slices
      together holding the total of all withdrawals and reloads. */
  function Breakdown(txs: seq<Transaction>): (r: seq<Slice>)
    ensures DistinctNames(r)
    ensures forall k :: k in Names(r) <==> exists i :: 0 <= i < |txs| && IsSpending(txs[i]) && Key(txs[i]) == k
    ensures forall k :: ValueOf(r, k) == SumBy(txs, CategoryTerm(k))
    ensures SumValues(r) == SumBy(txs, SpendingTerm())
  {
    if |txs| == 0 then []
    else
      var init, t := txs[..|txs| - 1], txs[|txs| - 1];
      assert txs == init + [t];
      var prev := Breakdown(init);
      SumBySnoc(init, t, SpendingTerm());
      forall k ensures SumBy(txs, CategoryTerm(k)) == SumBy(init, CategoryTerm(k)) + CategoryTerm(k)(t) {
        SumBySnoc(init, t, CategoryTerm(k));
      }
      if IsSpending(t) then
        AddToValues(prev, Key(t), t.amount);
        AddTo(prev, Key(t), t.amount)
      else prev
  }
}
