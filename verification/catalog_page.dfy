/**
 * The catalog page's add handler: it works on the stored list directly,
 * merges by name, and writes a looked-up price back for a new item.
 */
module CatalogPage {
  import opened Wrappers
  import opened Types
  import opened ProductList
  import Api

  /**
   * The stored list as read back: `None` stands for an absent key, an empty
   * value, or a value that does not parse; each of them reads as the empty list.
   */
  function Load(stored: Option<seq<Product>>): (r: seq<Product>)
    ensures stored.None? ==> r == []
    ensures stored.Some? ==> r == stored.value
  {
    stored.GetOr([])
  }

  /**
   * What one add writes: the new stored list, and for a new name the id of
   * the appended item whose price lookup is started.
   */
  datatype CatalogAdd = CatalogAdd(written: seq<Product>, pending: Option<string>)

  /** `handleAddProduct` of the catalog page up to its first write, as written. */
  function AddToStorage(stored: Option<seq<Product>>, d: Draft, freshId: string): (r: CatalogAdd)
    ensures r.pending.Some? <==> !HasName(Load(stored), d.name)
    ensures r.pending.Some? ==> r.pending.value == freshId && r.written == Load(stored) + [NewItem(d, freshId)]
    ensures r.pending.None? ==> |r.written| == |Load(stored)|
    ensures r.pending.None? ==> var list := Load(stored); var i := FindByName(list, d.name).value;
      forall j :: 0 <= j < |list| && list[j].id != list[i].id ==> r.written[j] == list[j]
  {
    var products := Load(stored);
    match FindByName(products, d.name)
    case Some(i) => CatalogAdd(BumpById(products, products[i].id), None)
    case None => CatalogAdd(products + [NewItem(d, freshId)], Some(freshId))
  }

  /**
   * On a stored list with unique ids, the first write is the merge-add on the
   * loaded list, and a price lookup is started exactly when the name is new.
   */
  lemma AddToStorageIsMergeAdd(stored: Option<seq<Product>>, d: Draft, freshId: string)
    requires UniqueIds(Load(stored))
    ensures AddToStorage(stored, d, freshId).written == MergeAdd(Load(stored), d, freshId)
    ensures AddToStorage(stored, d, freshId).pending == if HasName(Load(stored), d.name) then None else Some(freshId)
  {
    if HasName(Load(stored), d.name) {
      BumpFoundIsMergeAdd(Load(stored), d, freshId);
    }
  }

  /**
   * The `.then` of the new item's price lookup, as written: when the looked-up
   * price is truthy, the snapshot taken at add time is written again with
   * that price on the new item; otherwise nothing is written.
   */
  function WriteBack(snapshot: seq<Product>, newId: string, name: string, prices: map<string, int>): (r: Option<seq<Product>>)
    ensures r.Some? <==> Truthy(Fetched(prices, name))
    ensures r.Some? ==> |r.value| == |snapshot|
    ensures r.Some? ==> forall j :: 0 <= j < |snapshot| ==>
      r.value[j] == if snapshot[j].id == newId then snapshot[j].(price := Fetched(prices, snapshot[j].name)) else snapshot[j]
  {
    if Truthy(Fetched(prices, name)) then Some(SetPriceById(snapshot, newId, prices)) else None
  }

  /** `products.map(p => p.id === id ? { ...p, price: prices[p.name] } : p)`. */
  function SetPriceById(list: seq<Product>, id: string, prices: map<string, int>): (r: seq<Product>)
    ensures |r| == |list|
    ensures forall j :: 0 <= j < |list| ==>
      r[j] == if list[j].id == id then list[j].(price := Fetched(prices, list[j].name)) else list[j]
    decreases |list|
  {
    if |list| == 0 then []
    else
      var p := list[0];
      [if p.id == id then p.(price := Fetched(prices, p.name)) else p] + SetPriceById(list[1..], id, prices)
  }

  /**
   * What the storage holds once an add and its write-back, if any, are done,
   * with nothing stored in between: the current list is then the written one,
   * so the corrected write-back and the as-written one coincide.
   */
  function AddAndWriteBack(stored: Option<seq<Product>>, d: Draft, freshId: string, draw: nat -> Api.Random): seq<Product> {
    var add := AddToStorage(stored, d, freshId);
    match add.pending
    case None => add.written
    case Some(id) => WriteBackCurrent(add.written, id, d.name, Api.FetchPrices([d.name], draw)).GetOr(add.written)
  }

  /**
   * Without anything happening in between, an add from the catalog ends as
   * the merge-add, except that a new item also carries its looked-up price.
   * An existing name triggers no lookup at all.
   */
  lemma AddAndWriteBackSpec(stored: Option<seq<Product>>, d: Draft, freshId: string, draw: nat -> Api.Random)
    requires UniqueIds(Load(stored)) && !HasId(Load(stored), freshId)
    ensures var list := Load(stored);
      var r := AddAndWriteBack(stored, d, freshId, draw);
      && |r| == |MergeAdd(list, d, freshId)|
      && (HasName(list, d.name) ==> r == MergeAdd(list, d, freshId))
      && (!HasName(list, d.name) ==>
            && r[..|list|] == list
            && r[|list|] == NewItem(d, freshId).(price := Some(Api.FetchPrices([d.name], draw)[d.name] as real))
            && Truthy(r[|list|].price))
  {
    var list := Load(stored);
    AddToStorageIsMergeAdd(stored, d, freshId);
    if !HasName(list, d.name) {
      var prices := Api.FetchPrices([d.name], draw);
      Api.FetchPricesTruthy([d.name], draw);
      var written := list + [NewItem(d, freshId)];
      var add := AddToStorage(stored, d, freshId);
      assert add.written == written && add.pending == Some(freshId);
      var r := AddAndWriteBack(stored, d, freshId, draw);
      assert r == SetPriceById(written, freshId, prices);
      forall j | 0 <= j < |list|
        ensures r[j] == list[j]
      {
        assert written[j] == list[j];
      }
    }
  }

  // ----- the lost update of the write-back -----

  /**
   * The write-back as evidently intended: the price is put on the new item of
   * the list as it is stored now, not on the add-time snapshot.
   */
  function WriteBackCurrent(current: seq<Product>, newId: string, name: string, prices: map<string, int>): (r: Option<seq<Product>>)
    ensures r.Some? <==> Truthy(Fetched(prices, name))
    ensures r.Some? ==> |r.value| == |current|
    ensures r.Some? ==> forall j :: 0 <= j < |current| ==> SameButPrice(r.value[j], current[j])
    ensures r.Some? ==> forall j :: 0 <= j < |current| && current[j].id != newId ==> r.value[j] == current[j]
    ensures r.Some? ==> forall j :: 0 <= j < |current| && current[j].id == newId ==>
      r.value[j].price == Fetched(prices, current[j].name)
  {
    if Truthy(Fetched(prices, name)) then Some(SetPriceById(current, newId, prices)) else None
  }

  /** Milk, already on the list once. */
  const Milk: Product := Product("m", "Молоко", "Молочные продукты", None, 1.0, false, "л")

  /**
   * Adding apples (new) and then milk (existing) before the apples' price
   * arrives: the as-written write-back restores the add-time snapshot, so the
   * milk goes back to one litre although the storage held two.
   */
  lemma WriteBackLosesInterleavedAdd(draw: nat -> Api.Random)
    ensures var apples := Api.Catalog[0].products[0];
      var milk := Api.Catalog[1].products[0];
      var first := AddToStorage(Some([Milk]), apples, "a");
      var second := AddToStorage(Some(first.written), milk, "b");
      var prices := Api.FetchPrices([apples.name], draw);
      && first.pending == Some("a")
      && second.written[0].quantity == 2.0
      && WriteBack(first.written, "a", apples.name, prices).Some?
      && WriteBack(first.written, "a", apples.name, prices).value[0].quantity == 1.0
      && WriteBackCurrent(second.written, "a", apples.name, prices).value[0].quantity == 2.0
  {
    var apples := Api.Catalog[0].products[0];
    var milk := Api.Catalog[1].products[0];
    assert apples.name == "Яблоки" && milk.name == "Молоко";
    var first := AddToStorage(Some([Milk]), apples, "a");
    assert !HasName([Milk], apples.name);
    assert first.written == [Milk, NewItem(apples, "a")];
    assert FindByName(first.written, milk.name) == Some(0);
    var second := AddToStorage(Some(first.written), milk, "b");
    assert second.written[0] == Bump(Milk);
    Api.FetchPricesTruthy([apples.name], draw);
  }
}
