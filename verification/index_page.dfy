/**
 * The home page's own list state. It is never shown: the list component it
 * renders keeps its own state, so nothing here reaches that list.
 */
module IndexPage {
  import opened Wrappers
  import opened Types
  import opened ProductList
  import AddProductForm

  datatype IndexState = IndexState(products: seq<Product>, showAddForm: bool)

  const Initial: IndexState := IndexState([], false)

  /** The button under the list shows or hides the form. */
  function ToggleForm(s: IndexState): (r: IndexState)
    ensures r.products == s.products
    ensures r.showAddForm != s.showAddForm
  {
    s.(showAddForm := !s.showAddForm)
  }

  /**
   * Pressing the button twice gives back the page as it was, and a manual add
   * hides the form whether or not the button was pressed before it.
   */
  lemma ToggleFormTwice(s: IndexState, p: Product)
    ensures ToggleForm(ToggleForm(s)) == s
    ensures AddManual(ToggleForm(s), p) == AddManual(s, p)
  {
  }

  /**
   * `handleAddProduct`: the form's product is appended as it is, without
   * merging, and the form is hidden.
   */
  function AddManual(s: IndexState, p: Product): (r: IndexState)
    ensures |r.products| == |s.products| + 1
    ensures r.products[..|s.products|] == s.products && r.products[|s.products|] == p
    ensures !r.showAddForm
  {
    IndexState(s.products + [p], false)
  }

  /**
   * `handleAddFromCatalog`, as written: find by name, then bump by id. No
   * control of the page is wired to it, so no user action reaches it.
   */
  function AddFromCatalog(s: IndexState, d: Draft, freshId: string): (r: IndexState)
    ensures r.showAddForm == s.showAddForm
    ensures !HasName(s.products, d.name) ==> r.products == s.products + [NewItem(d, freshId)]
    ensures HasName(s.products, d.name) ==> |r.products| == |s.products|
    ensures HasName(s.products, d.name) ==> var i := FindByName(s.products, d.name).value;
      forall j :: 0 <= j < |s.products| && s.products[j].id != s.products[i].id ==> r.products[j] == s.products[j]
  {
    match FindByName(s.products, d.name)
    case Some(i) => s.(products := BumpById(s.products, s.products[i].id))
    case None => s.(products := s.products + [NewItem(d, freshId)])
  }

  /** On a list with unique ids, the catalog add is the merge-add. */
  lemma AddFromCatalogIsMergeAdd(s: IndexState, d: Draft, freshId: string)
    requires UniqueIds(s.products)
    ensures AddFromCatalog(s, d, freshId).products == MergeAdd(s.products, d, freshId)
    ensures AddFromCatalog(s, d, freshId).showAddForm == s.showAddForm
  {
    if HasName(s.products, d.name) {
      BumpFoundIsMergeAdd(s.products, d, freshId);
    }
  }

  /**
   * A form submission on the home page: a rejected one changes nothing, an
   * accepted one appends its product even when an item of that name is
   * already listed, so the manual path can list a name twice.
   */
  lemma SubmitThenAdd(s: IndexState, form: AddProductForm.Form, freshId: string, parse: string -> Option<real>)
    ensures var sub := AddProductForm.Submit(form, freshId, parse);
      sub.outcome.Accepted? ==>
        && AddManual(s, sub.outcome.product).products == s.products + [sub.outcome.product]
        && (HasName(s.products, sub.outcome.product.name) ==>
              !UniqueNames(AddManual(s, sub.outcome.product).products))
  {
    var sub := AddProductForm.Submit(form, freshId, parse);
    if sub.outcome.Accepted? && HasName(s.products, sub.outcome.product.name) {
      var r := AddManual(s, sub.outcome.product).products;
      var j :| 0 <= j < |s.products| && s.products[j].name == sub.outcome.product.name;
      assert r[j].name == r[|s.products|].name;
    }
  }
}
