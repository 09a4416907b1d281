/** How the creation modals fill the form (App.tsx `handleInputChange`): every
    change event writes the input's reported value under the input's name. The
    reload modal's "paid" checkbox reports its fixed `value` attribute, checked
    or not, so once clicked it marks the reload paid for good. */
module Inputs {
  import opened Wrappers
  import Forms

  /** A change event: a text or select input reports what it now holds, the
      reload modal's checkbox whether it is now checked. */
  datatype Change = Edit(name: string, text: string) | Click(checked: bool)

  /** The checkbox's `value` attribute. */
  const CheckboxValue: string := "true"

  /** The change handler as written: the event's input name is set to the
      input's `value`, and a checkbox's `value` is its fixed attribute,
      whatever its checked state. */
  function Apply(form: Forms.Form, c: Change): (r: Forms.Form)
    ensures c.Click? ==> Forms.ReloadPaid(r)
  {
    match c
    case Edit(name, text) => form[name := text]
    case Click(_) => form["is_paid" := CheckboxValue]
  }

  /** The handler as evidently meant: the checkbox reports its checked state,
      as the text that the reload's paid test compares with "true". */
  function ApplyChecked(form: Forms.Form, c: Change): (r: Forms.Form)
    ensures c.Click? ==> (Forms.ReloadPaid(r) <==> c.checked)
  {
    match c
    case Edit(name, text) => form[name := text]
    case Click(b) => form["is_paid" := if b then "true" else "false"]
  }

  /** The form after a sequence of change events, handled in order. */
  function Fill(form: Forms.Form, cs: seq<Change>, handle: (Forms.Form, Change) -> Forms.Form): Forms.Form
    decreases |cs|
  {
    if |cs| == 0 then form else handle(Fill(form, cs[..|cs| - 1], handle), cs[|cs| - 1])
  }

  /** No text or select input writes the checkbox's name. */
  predicate OnlyBoxPays(cs: seq<Change>) {
    forall i :: 0 <= i < |cs| && cs[i].Edit? ==> cs[i].name != "is_paid"
  }

  /** The state the checkbox was last left in, if it was clicked at all. */
  function LastClick(cs: seq<Change>): (r: Option<bool>)
    ensures r.None? <==> forall i :: 0 <= i < |cs| ==> cs[i].Edit?
  {
    if |cs| == 0 then None
    else match cs[|cs| - 1]
      case Click(b) => Some(b)
      case Edit(_, _) =>
        var r := LastClick(cs[..|cs| - 1]);
        assert forall i :: 0 <= i < |cs| - 1 ==> cs[..|cs| - 1][i] == cs[i];
        r
  }

  /** Dropping the last event keeps the checkbox's name out of the edits. */
  lemma OnlyBoxPaysInit(cs: seq<Change>)
    requires |cs| > 0 && OnlyBoxPays(cs)
    ensures OnlyBoxPays(cs[..|cs| - 1])
    ensures cs[|cs| - 1].Edit? ==> cs[|cs| - 1].name != "is_paid"
  {
    assert forall i :: 0 <= i < |cs| - 1 ==> cs[..|cs| - 1][i] == cs[i];
  }

  /** As written: the reload is paid exactly when the checkbox was ever
      clicked (or the form already said so), whatever state it was left in. */
  lemma {:induction false} FilledPaid(form: Forms.Form, cs: seq<Change>)
    requires OnlyBoxPays(cs)
    ensures Forms.ReloadPaid(Fill(form, cs, Apply)) <==> LastClick(cs).Some? || Forms.ReloadPaid(form)
    decreases |cs|
  {
    if |cs| > 0 {
      OnlyBoxPaysInit(cs);
      FilledPaid(form, cs[..|cs| - 1]);
      var prev := Fill(form, cs[..|cs| - 1], Apply);
      if cs[|cs| - 1].Edit? {
        assert Fill(form, cs, Apply) == prev[cs[|cs| - 1].name := cs[|cs| - 1].text];
      }
    }
  }

  /** Checking the box and unchecking it again still marks the reload paid. */
  lemma UncheckedButPaid()
    ensures var cs := [Click(true), Click(false)];
      LastClick(cs) == Some(false) && Forms.ReloadPaid(Fill(map[], cs, Apply))
  {
    var cs := [Click(true), Click(false)];
    assert cs[..1] == [Click(true)];
    assert cs[..1][..0] == [];
  }

  /** With the checked state reported, the reload is paid exactly when the
      checkbox was last left checked, or, if it was never clicked, when the
      form already said so. */
  lemma {:induction false} FilledCheckedPaid(form: Forms.Form, cs: seq<Change>)
    requires OnlyBoxPays(cs)
    ensures Forms.ReloadPaid(Fill(form, cs, ApplyChecked)) <==>
      match LastClick(cs)
      case Some(b) => b
      case None => Forms.ReloadPaid(form)
    decreases |cs|
  {
    if |cs| > 0 {
      OnlyBoxPaysInit(cs);
      FilledCheckedPaid(form, cs[..|cs| - 1]);
      var prev := Fill(form, cs[..|cs| - 1], ApplyChecked);
      if cs[|cs| - 1].Edit? {
        assert Fill(form, cs, ApplyChecked) == prev[cs[|cs| - 1].name := cs[|cs| - 1].text];
      }
    }
  }
}
