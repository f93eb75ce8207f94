/**
 * One row of the list: a checkbox, the quantity (editable on click, sent on
 * blur or Enter), the price when it is truthy, and a remove control. The row
 * sends events; the list applies them by id.
 */
module ProductItem {
  import opened Wrappers
  import opened Types
  import opened ProductList

  /** What a row asks its list to do. */
  datatype ItemEvent = Update(id: string, patch: Patch) | Remove(id: string)

  /**
   * The row's local state: whether the quantity field is shown, and its text.
   * The field, once opened, stays open.
   */
  datatype Row = Row(editing: bool, text: string)

  /** The row as first rendered; `show` is `toString` on numbers. */
  function InitialRow(p: Product, show: real -> string): (r: Row)
    ensures !r.editing && r.text == show(p.quantity)
  {
    Row(false, show(p.quantity))
  }

  /** A click on the quantity opens the field; the text is kept. */
  function OpenEditor(row: Row): (r: Row)
    ensures r.editing && r.text == row.text
  {
    row.(editing := true)
  }

  /** Typing replaces the field's text. */
  function TypeText(row: Row, text: string): (r: Row)
    ensures r.editing == row.editing && r.text == text
  {
    row.(text := text)
  }

  /** What a blur (or Enter) does: the event sent, if any, and the row after. */
  datatype Blur = Blur(event: Option<ItemEvent>, row: Row)

  /**
   * `handleQuantityBlur`: a text that parses (`parse` is `parseFloat`, `None`
   * for NaN) to a positive number is sent as the new quantity; anything else
   * sends nothing and puts the product's quantity back into the field.
   */
  function QuantityBlur(p: Product, row: Row, parse: string -> Option<real>, show: real -> string): (r: Blur)
    ensures r.event.Some? <==> parse(row.text).Some? && parse(row.text).value > 0.0
    ensures r.event.Some? ==> r.event.value == Update(p.id, QuantityPatch(parse(row.text).value)) && r.row == row
    ensures r.event.None? ==> r.row == row.(text := show(p.quantity))
  {
    match parse(row.text)
    case Some(q) =>
      if q > 0.0 then Blur(Some(Update(p.id, QuantityPatch(q))), row)
      else Blur(None, row.(text := show(p.quantity)))
    case None => Blur(None, row.(text := show(p.quantity)))
  }

  /** `handleCheckboxChange`. */
  function CheckboxChange(p: Product, checked: bool): (e: ItemEvent)
    ensures e.Update? && e.id == p.id && Apply(p, e.patch) == p.(checked := checked)
  {
    Update(p.id, CheckedPatch(checked))
  }

  /** The remove control. */
  function RemoveClick(p: Product): (e: ItemEvent)
    ensures e.Remove? && e.id == p.id
  {
    Remove(p.id)
  }

  /**
   * The list's `onUpdate` / `onRemove`, which the row is given: an event for
   * an id the list does not hold changes nothing; an update keeps every row
   * of another id; a removal leaves no row of its id.
   */
  function Dispatch(list: seq<Product>, e: ItemEvent): (r: seq<Product>)
    ensures !HasId(list, e.id) ==> r == list
    ensures e.Update? ==> |r| == |list| && forall j :: 0 <= j < |list| && list[j].id != e.id ==> r[j] == list[j]
    ensures e.Remove? ==> !HasId(r, e.id) && |r| <= |list|
  {
    match e
    case Update(id, u) =>
      if HasId(list, id) then UpdateById(list, id, u)
      else UpdateUnknownId(list, id, u); UpdateById(list, id, u)
    case Remove(id) =>
      RemoveNoLonger(list, id);
      if HasId(list, id) then RemoveById(list, id)
      else RemoveUnknownId(list, id); RemoveById(list, id)
  }

  /**
   * A blur that sends a quantity changes only the quantity of the rows with
   * that product's id, and keeps every quantity positive.
   */
  lemma BlurChangesOnlyQuantity(list: seq<Product>, p: Product, row: Row, parse: string -> Option<real>, show: real -> string)
    requires QuantityBlur(p, row, parse, show).event.Some?
    ensures var r := Dispatch(list, QuantityBlur(p, row, parse, show).event.value);
      && |r| == |list|
      && (forall j :: 0 <= j < |list| ==>
            r[j] == if list[j].id == p.id then list[j].(quantity := parse(row.text).value) else list[j])
      && (PositiveQuantities(list) ==> PositiveQuantities(r))
      && (UniqueIds(list) ==> UniqueIds(r))
  {
    var q := parse(row.text).value;
    var r := Dispatch(list, QuantityBlur(p, row, parse, show).event.value);
    assert r == UpdateById(list, p.id, QuantityPatch(q));
    if UniqueIds(list) {
      UpdateKeepsIdsUnique(list, p.id, QuantityPatch(q));
    }
  }

  /** A blur that sends nothing puts the product's quantity back into the field. */
  lemma RejectedBlurRevertsText(p: Product, row: Row, parse: string -> Option<real>, show: real -> string)
    requires parse(row.text).None? || parse(row.text).value <= 0.0
    ensures QuantityBlur(p, row, parse, show).event.None?
    ensures QuantityBlur(p, row, parse, show).row.text == show(p.quantity)
  {
  }

  /** Ticking a row changes only the checked flag of the rows with its id. */
  lemma CheckboxChangesOnlyChecked(list: seq<Product>, p: Product, checked: bool)
    ensures var r := Dispatch(list, CheckboxChange(p, checked));
      && |r| == |list|
      && (forall j :: 0 <= j < |list| ==>
            r[j] == if list[j].id == p.id then list[j].(checked := checked) else list[j])
      && (PositiveQuantities(list) ==> PositiveQuantities(r))
  {
  }

  /**
   * The remove control of a row takes exactly that row off a list with unique
   * ids and keeps the others, in order.
   */
  lemma RemoveClickRemovesRow(list: seq<Product>, i: nat)
    requires UniqueIds(list) && i < |list|
    ensures Dispatch(list, RemoveClick(list[i])) == list[..i] + list[i + 1..]
  {
    RemoveOneId(list, i);
  }

  /**
   * The editing cycle of a row: open the field, type `text`, leave it. An
   * update is sent exactly when `text` parses to a positive number, and it
   * carries that number; otherwise the field shows the first-rendered text
   * again.
   */
  lemma EditCycle(p: Product, text: string, parse: string -> Option<real>, show: real -> string)
    ensures var row := TypeText(OpenEditor(InitialRow(p, show)), text);
      var b := QuantityBlur(p, row, parse, show);
      && row.editing && row.text == text
      && (b.event.Some? <==> parse(text).Some? && parse(text).value > 0.0)
      && (b.event.Some? ==> b.event.value == Update(p.id, QuantityPatch(parse(text).value)))
      && (b.event.None? ==> b.row.text == InitialRow(p, show).text)
  {
  }

  /**
   * Opening the field and leaving it untouched sends the row's own quantity
   * back, which on a list with unique ids changes nothing, as long as the
   * number survives `toString` and `parseFloat`.
   */
  lemma UntouchedEditKeepsList(list: seq<Product>, i: nat, parse: string -> Option<real>, show: real -> string)
    requires UniqueIds(list) && i < |list| && list[i].quantity > 0.0
    requires parse(show(list[i].quantity)) == Some(list[i].quantity)
    ensures var b := QuantityBlur(list[i], OpenEditor(InitialRow(list[i], show)), parse, show);
      b.event.Some? && Dispatch(list, b.event.value) == list
  {
    var p := list[i];
    UpdateOneId(list, i, QuantityPatch(p.quantity));
    assert Apply(p, QuantityPatch(p.quantity)) == p;
    assert list[i := p] == list;
  }
}
