/**
 * The list store of the shopping-list page: merge-by-name add, update and
 * remove by id, the two clear operations, the two price merges, grouping by
 * category and the price total.
 */
module ProductList {
  import opened Wrappers
  import opened Types
  import opened Sequences
  import Api

  // ----- finding by name -----

  /** Item `j` is the first item of the list with this name. */
  predicate IsFirstNamed(list: seq<Product>, j: int, name: string)
    requires 0 <= j < |list|
  {
    list[j].name == name && forall k :: 0 <= k < j ==> list[k].name != name
  }

  /** `products.find(p => p.name === name)`, as the index of the item found. */
  function FindByName(list: seq<Product>, name: string): (r: Option<nat>)
    ensures r.Some? ==> r.value < |list| && IsFirstNamed(list, r.value, name)
    ensures r.None? <==> !HasName(list, name)
    decreases |list|
  {
    if |list| == 0 then None
    else if list[0].name == name then Some(0)
    else match FindByName(list[1..], name)
      case None => None
      case Some(k) => Some(k + 1)
  }

  // ----- merge-by-name add -----

  /** The item with one more unit. */
  function Bump(p: Product): Product {
    p.(quantity := p.quantity + 1.0)
  }

  /** `{ ...draft, id: uuidv4(), quantity: 1, checked: false }`. */
  function NewItem(d: Draft, id: string): Product {
    Product(id, d.name, d.category, d.price, 1.0, false, d.unit)
  }

  /**
   * The intended meaning of adding a catalog or search entry: when an item of
   * the same name exists, the first such item gets exactly one more unit and
   * nothing else changes; otherwise one fresh item with the entry's fields,
   * quantity 1 and unchecked is appended.
   */
  function MergeAdd(list: seq<Product>, d: Draft, freshId: string): (r: seq<Product>)
    ensures HasName(list, d.name) ==> |r| == |list|
    ensures HasName(list, d.name) ==> forall j :: 0 <= j < |list| ==>
      r[j] == if IsFirstNamed(list, j, d.name) then Bump(list[j]) else list[j]
    ensures !HasName(list, d.name) ==> |r| == |list| + 1 && r[..|list|] == list
    ensures !HasName(list, d.name) ==> (
      && r[|list|].id == freshId
      && r[|list|].name == d.name && r[|list|].category == d.category
      && r[|list|].price == d.price && r[|list|].unit == d.unit
      && r[|list|].quantity == 1.0 && !r[|list|].checked)
  {
    match FindByName(list, d.name)
    case Some(i) => list[i := Bump(list[i])]
    case None => list + [NewItem(d, freshId)]
  }

  /** Sum of all quantities. */
  function QuantitySum(list: seq<Product>): real
    decreases |list|
  {
    if |list| == 0 then 0.0 else list[0].quantity + QuantitySum(list[1..])
  }

  /** Replacing one item changes the quantity sum by the difference of the two quantities. */
  lemma {:induction false} QuantitySumUpdate(list: seq<Product>, i: nat, p: Product)
    requires i < |list|
    ensures QuantitySum(list[i := p]) == QuantitySum(list) - list[i].quantity + p.quantity
    decreases |list|
  {
    if i > 0 {
      assert list[i := p][1..] == list[1..][i - 1 := p];
      QuantitySumUpdate(list[1..], i - 1, p);
    }
  }

  /** Appending adds the appended quantities. */
  lemma {:induction false} QuantitySumAppend(a: seq<Product>, b: seq<Product>)
    ensures QuantitySum(a + b) == QuantitySum(a) + QuantitySum(b)
    decreases |a|
  {
    if |a| > 0 {
      assert (a + b)[1..] == a[1..] + b;
      QuantitySumAppend(a[1..], b);
    } else {
      assert a + b == b;
    }
  }

  /** Every merge-add puts exactly one more unit on the list, whichever branch it takes. */
  lemma MergeAddAddsOneUnit(list: seq<Product>, d: Draft, freshId: string)
    ensures QuantitySum(MergeAdd(list, d, freshId)) == QuantitySum(list) + 1.0
  {
    match FindByName(list, d.name)
    case Some(i) =>
      QuantitySumUpdate(list, i, Bump(list[i]));
    case None =>
      QuantitySumAppend(list, [NewItem(d, freshId)]);
  }

  /** A merge-add never creates a second item of one name, and the new name is on the list. */
  lemma MergeAddKeepsNamesUnique(list: seq<Product>, d: Draft, freshId: string)
    requires UniqueNames(list)
    ensures UniqueNames(MergeAdd(list, d, freshId))
    ensures HasName(MergeAdd(list, d, freshId), d.name)
  {
    var r := MergeAdd(list, d, freshId);
    if !HasName(list, d.name) {
      assert r[|list|].name == d.name;
    } else {
      var i := FindByName(list, d.name).value;
      assert r[i].name == d.name;
    }
  }

  /** With an id not yet on the list, a merge-add keeps ids unique. */
  lemma MergeAddKeepsIdsUnique(list: seq<Product>, d: Draft, freshId: string)
    requires UniqueIds(list) && !HasId(list, freshId)
    ensures UniqueIds(MergeAdd(list, d, freshId))
  {
  }

  /** A merge-add keeps every quantity positive. */
  lemma MergeAddKeepsQuantitiesPositive(list: seq<Product>, d: Draft, freshId: string)
    requires PositiveQuantities(list)
    ensures PositiveQuantities(MergeAdd(list, d, freshId))
  {
  }

  /**
   * The map the two page handlers run for an existing name,
   * `p.id === id ? { ...p, quantity: p.quantity + 1 } : p`.
   */
  function BumpById(list: seq<Product>, id: string): (r: seq<Product>)
    ensures |r| == |list|
    ensures forall j :: 0 <= j < |list| ==> r[j] == if list[j].id == id then Bump(list[j]) else list[j]
    decreases |list|
  {
    if |list| == 0 then []
    else [if list[0].id == id then Bump(list[0]) else list[0]] + BumpById(list[1..], id)
  }

  /** On a list with unique ids, bumping an item's id bumps just that item. */
  lemma BumpOneId(list: seq<Product>, i: nat)
    requires UniqueIds(list) && i < |list|
    ensures BumpById(list, list[i].id) == list[i := Bump(list[i])]
  {
    var r := BumpById(list, list[i].id);
    forall j | 0 <= j < |list|
      ensures r[j] == list[i := Bump(list[i])][j]
    {
      if j != i {
        assert list[j].id != list[i].id;
      }
    }
  }

  /**
   * The page handlers' merge: on a list with unique ids, bumping the id of the
   * first item of that name is the merge-add.
   */
  lemma BumpFoundIsMergeAdd(list: seq<Product>, d: Draft, freshId: string)
    requires UniqueIds(list) && HasName(list, d.name)
    ensures BumpById(list, list[FindByName(list, d.name).value].id) == MergeAdd(list, d, freshId)
  {
    BumpOneId(list, FindByName(list, d.name).value);
  }

  // ----- update by id -----

  /** `prev.map(p => p.id === id ? { ...p, ...updates } : p)`. */
  function UpdateById(list: seq<Product>, id: string, u: Patch): (r: seq<Product>)
    ensures |r| == |list|
    ensures forall j :: 0 <= j < |list| ==> r[j] == if list[j].id == id then Apply(list[j], u) else list[j]
    decreases |list|
  {
    if |list| == 0 then []
    else [if list[0].id == id then Apply(list[0], u) else list[0]] + UpdateById(list[1..], id, u)
  }

  /** An id that is not on the list leaves the list as it is. */
  lemma UpdateUnknownId(list: seq<Product>, id: string, u: Patch)
    requires !HasId(list, id)
    ensures UpdateById(list, id, u) == list
  {
  }

  /** Updating twice with the same patch is updating once, even when the patch rewrites the id. */
  lemma UpdateIdempotent(list: seq<Product>, id: string, u: Patch)
    ensures UpdateById(UpdateById(list, id, u), id, u) == UpdateById(list, id, u)
  {
  }

  /** A patch that does not touch ids keeps them unique. */
  lemma UpdateKeepsIdsUnique(list: seq<Product>, id: string, u: Patch)
    requires UniqueIds(list) && u.id.None?
    ensures UniqueIds(UpdateById(list, id, u))
  {
  }

  // ----- the add handler of the list page -----

  /**
   * `handleAddProduct` of the list page as written: the existing item's id
   * is updated with `{ quantity: existing.quantity + 1 }`.
   */
  function AddFromSearch(list: seq<Product>, d: Draft, freshId: string): (r: seq<Product>)
    ensures !HasName(list, d.name) ==> r == list + [NewItem(d, freshId)]
    ensures HasName(list, d.name) ==> |r| == |list|
    ensures HasName(list, d.name) ==> var i := FindByName(list, d.name).value;
      forall j :: 0 <= j < |list| && list[j].id != list[i].id ==> r[j] == list[j]
  {
    match FindByName(list, d.name)
    case Some(i) => UpdateQuantity(list, i)
    case None => list + [NewItem(d, freshId)]
  }

  /** `updateProduct(existing.id, { quantity: existing.quantity + 1 })` for item `i`. */
  function UpdateQuantity(list: seq<Product>, i: nat): seq<Product>
    requires i < |list|
  {
    UpdateById(list, list[i].id, QuantityPatch(list[i].quantity + 1.0))
  }

  /** On a list with unique ids the list page's add handler is the merge-add. */
  lemma AddFromSearchIsMergeAdd(list: seq<Product>, d: Draft, freshId: string)
    requires UniqueIds(list)
    ensures AddFromSearch(list, d, freshId) == MergeAdd(list, d, freshId)
  {
    var found := FindByName(list, d.name);
    if found.Some? {
      UpdateQuantityIsBump(list, found.value);
    }
  }

  /** On a list with unique ids, the quantity update of item `i` bumps just that item. */
  lemma UpdateQuantityIsBump(list: seq<Product>, i: nat)
    requires UniqueIds(list) && i < |list|
    ensures UpdateQuantity(list, i) == list[i := Bump(list[i])]
  {
    var u := QuantityPatch(list[i].quantity + 1.0);
    UpdateOneId(list, i, u);
    assert Apply(list[i], u) == Bump(list[i]);
  }

  /** On a list with unique ids, updating an item's id updates just that item. */
  lemma UpdateOneId(list: seq<Product>, i: nat, u: Patch)
    requires UniqueIds(list) && i < |list|
    ensures UpdateById(list, list[i].id, u) == list[i := Apply(list[i], u)]
  {
    var r := UpdateById(list, list[i].id, u);
    forall j | 0 <= j < |list|
      ensures r[j] == list[i := Apply(list[i], u)][j]
    {
      if j != i {
        assert list[j].id != list[i].id;
      }
    }
  }

  // ----- remove by id, clear checked, clear all -----

  /** `prev.filter(p => p.id !== id)`. */
  function RemoveById(list: seq<Product>, id: string): (r: seq<Product>)
    ensures !HasId(r, id)
    ensures Subsequence(r, list)
    decreases |list|
  {
    if |list| == 0 then []
    else
      var rest := RemoveById(list[1..], id);
      assert list == [list[0]] + list[1..];
      if list[0].id == id then
        SubsequenceSkip(list[0], rest, list[1..]);
        rest
      else
        SubsequenceCons(list[0], rest, list[1..]);
        [list[0]] + rest
  }

  /** Removal drops every copy of the items with that id and keeps every other item as often as it was there. */
  lemma {:induction false} RemoveByIdCounts(list: seq<Product>, id: string)
    ensures forall p :: multiset(RemoveById(list, id))[p] == if p.id == id then 0 else multiset(list)[p]
    decreases |list|
  {
    if |list| > 0 {
      RemoveByIdCounts(list[1..], id);
      assert list == [list[0]] + list[1..];
    }
  }

  /** Removing an id that is not on the list leaves the list as it is. */
  lemma {:induction false} RemoveUnknownId(list: seq<Product>, id: string)
    requires !HasId(list, id)
    ensures RemoveById(list, id) == list
    decreases |list|
  {
    if |list| > 0 {
      var tail := list[1..];
      assert !HasId(tail, id) by {
        forall j | 0 <= j < |tail|
          ensures tail[j].id != id
        {
          assert tail[j] == list[j + 1];
        }
      }
      RemoveUnknownId(tail, id);
      RemoveStep(list, id);
      assert [list[0]] + tail == list;
    }
  }

  /** On a list with unique ids, removing an item's id removes exactly that item. */
  lemma RemoveOneId(list: seq<Product>, i: nat)
    requires UniqueIds(list) && i < |list|
    ensures RemoveById(list, list[i].id) == list[..i] + list[i + 1..]
  {
    var id := list[i].id;
    var before, after := list[..i], list[i + 1..];
    SplitAt(list, i);
    RemoveAppend(before, [list[i]] + after, id);
    OthersLackId(list, i);
    RemoveUnknownId(before, id);
    RemoveUnknownId(after, id);
    RemoveDropHead([list[i]] + after, id);
  }

  /** A list is what comes before an index, the element there, and what comes after. */
  lemma SplitAt<T>(list: seq<T>, i: nat)
    requires i < |list|
    ensures list == list[..i] + ([list[i]] + list[i + 1..])
    ensures ([list[i]] + list[i + 1..])[1..] == list[i + 1..]
  {
  }

  /** Removal skips a head with that id. */
  lemma RemoveDropHead(list: seq<Product>, id: string)
    requires |list| > 0 && list[0].id == id
    ensures RemoveById(list, id) == RemoveById(list[1..], id)
  {
  }

  /** On a list with unique ids, no item before or after an item carries its id. */
  lemma OthersLackId(list: seq<Product>, i: nat)
    requires UniqueIds(list) && i < |list|
    ensures !HasId(list[..i], list[i].id) && !HasId(list[i + 1..], list[i].id)
  {
    assert forall j :: 0 <= j < i ==> list[..i][j] == list[j];
    assert forall j :: i + 1 <= j < |list| ==> list[i + 1..][j - i - 1] == list[j];
  }

  /** Removal distributes over concatenation. */
  lemma {:induction false} RemoveAppend(a: seq<Product>, b: seq<Product>, id: string)
    ensures RemoveById(a + b, id) == RemoveById(a, id) + RemoveById(b, id)
    decreases |a|
  {
    if |a| > 0 {
      RemoveAppend(a[1..], b, id);
      assert (a + b)[1..] == a[1..] + b;
      assert (a + b)[0] == a[0];
      if a[0].id != id {
        RemoveStep(a, id);
        RemoveStep(a + b, id);
      } else {
        RemoveDropHead(a, id);
        RemoveDropHead(a + b, id);
      }
    } else {
      assert a + b == b;
    }
  }

  /** The tail of a list with unique ids has unique ids. */
  lemma TailUniqueIds(list: seq<Product>)
    requires |list| > 0 && UniqueIds(list)
    ensures UniqueIds(list[1..])
  {
    var tail := list[1..];
    forall a, b | 0 <= a < b < |tail|
      ensures tail[a].id != tail[b].id
    {
      assert tail[a] == list[a + 1] && tail[b] == list[b + 1];
    }
  }

  /** On a list with unique ids, removing the head's id removes just the head. */
  lemma RemoveHead(list: seq<Product>)
    requires |list| > 0 && UniqueIds(list)
    ensures RemoveById(list, list[0].id) == list[1..]
  {
    var tail := list[1..];
    assert !HasId(tail, list[0].id) by {
      forall j | 0 <= j < |tail|
        ensures tail[j].id != list[0].id
      {
        assert tail[j] == list[j + 1];
      }
    }
    RemoveUnknownId(tail, list[0].id);
  }

  /** Removal keeps a head whose id differs. */
  lemma RemoveStep(list: seq<Product>, id: string)
    requires |list| > 0 && list[0].id != id
    ensures RemoveById(list, id) == [list[0]] + RemoveById(list[1..], id)
  {
  }

  /** Removing the same id twice is removing it once. */
  lemma RemoveIdempotent(list: seq<Product>, id: string)
    ensures RemoveById(RemoveById(list, id), id) == RemoveById(list, id)
  {
    RemoveUnknownId(RemoveById(list, id), id);
  }

  /** Removal keeps ids unique. */
  lemma {:induction false} RemoveKeepsIdsUnique(list: seq<Product>, id: string)
    requires UniqueIds(list)
    ensures UniqueIds(RemoveById(list, id))
    decreases |list|
  {
    if |list| > 0 {
      RemoveKeepsIdsUnique(list[1..], id);
      var rest := RemoveById(list[1..], id);
      if list[0].id != id {
        RemoveByIdCounts(list[1..], id);
        forall j | 0 <= j < |rest|
          ensures rest[j].id != list[0].id
        {
          assert multiset(rest)[rest[j]] > 0;
          assert rest[j] in list[1..];
        }
      }
    }
  }

  /** No item of the list is checked. */
  predicate NoneChecked(list: seq<Product>) {
    forall j :: 0 <= j < |list| ==> !list[j].checked
  }

  /** `prev.filter(p => !p.checked)`. */
  function ClearChecked(list: seq<Product>): (r: seq<Product>)
    ensures NoneChecked(r)
    ensures Subsequence(r, list)
    ensures forall p :: multiset(r)[p] == if p.checked then 0 else multiset(list)[p]
    decreases |list|
  {
    if |list| == 0 then []
    else
      var rest := ClearChecked(list[1..]);
      assert list == [list[0]] + list[1..];
      if list[0].checked then
        SubsequenceSkip(list[0], rest, list[1..]);
        rest
      else
        SubsequenceCons(list[0], rest, list[1..]);
        [list[0]] + rest
  }

  /** A list without checked items is left as it is; in particular clearing twice is clearing once. */
  lemma {:induction false} ClearCheckedNothingChecked(list: seq<Product>)
    requires NoneChecked(list)
    ensures ClearChecked(list) == list
    decreases |list|
  {
    if |list| > 0 {
      ClearCheckedNothingChecked(list[1..]);
      assert list == [list[0]] + list[1..];
    }
  }

  /** Clearing checked items twice is clearing them once. */
  lemma ClearCheckedIdempotent(list: seq<Product>)
    ensures ClearChecked(ClearChecked(list)) == ClearChecked(list)
  {
    ClearCheckedNothingChecked(ClearChecked(list));
  }

  /** `handleClearAll`: the list empties only when the user confirms. */
  function ClearAll(list: seq<Product>, confirmed: bool): (r: seq<Product>)
    ensures confirmed ==> r == []
    ensures !confirmed ==> r == list
  {
    if confirmed then [] else list
  }

  // ----- the two price merges -----

  /** `prices[name]` as a price: a missing key reads as `undefined`. */
  function Fetched(prices: map<string, int>, name: string): Option<real> {
    if name in prices then Some(prices[name] as real) else None
  }

  /** The two items differ at most in their price. */
  predicate SameButPrice(p: Product, q: Product) {
    p.(price := None) == q.(price := None)
  }

  /**
   * The background sync, `price: prices[p.name] || p.price`: a truthy fetched
   * price replaces the old one, otherwise the old one stays.
   */
  function SyncPrices(list: seq<Product>, prices: map<string, int>): (r: seq<Product>)
    ensures |r| == |list|
    ensures forall j :: 0 <= j < |list| ==> SameButPrice(r[j], list[j])
    ensures forall j :: 0 <= j < |list| && Truthy(Fetched(prices, list[j].name)) ==>
      r[j].price == Fetched(prices, list[j].name)
    ensures forall j :: 0 <= j < |list| && !Truthy(Fetched(prices, list[j].name)) ==>
      r[j].price == list[j].price
    decreases |list|
  {
    if |list| == 0 then []
    else
      var p := list[0];
      var fetched := Fetched(prices, p.name);
      [p.(price := if Truthy(fetched) then fetched else p.price)] + SyncPrices(list[1..], prices)
  }

  /** The explicit refresh, `price: prices[p.name]`: the fetched value, even when it is missing. */
  function RefreshPrices(list: seq<Product>, prices: map<string, int>): (r: seq<Product>)
    ensures |r| == |list|
    ensures forall j :: 0 <= j < |list| ==> SameButPrice(r[j], list[j])
    ensures forall j :: 0 <= j < |list| ==> r[j].price == Fetched(prices, list[j].name)
    decreases |list|
  {
    if |list| == 0 then []
    else [list[0].(price := Fetched(prices, list[0].name))] + RefreshPrices(list[1..], prices)
  }

  /** Syncing twice with the same prices is syncing once. */
  lemma SyncIdempotent(list: seq<Product>, prices: map<string, int>)
    ensures SyncPrices(SyncPrices(list, prices), prices) == SyncPrices(list, prices)
  {
    var once := SyncPrices(list, prices);
    var twice := SyncPrices(once, prices);
    forall j | 0 <= j < |list|
      ensures twice[j] == once[j]
    {
      assert once[j].name == list[j].name;
    }
  }

  /** A sync after a refresh with the same prices changes nothing. */
  lemma SyncAfterRefresh(list: seq<Product>, prices: map<string, int>)
    ensures SyncPrices(RefreshPrices(list, prices), prices) == RefreshPrices(list, prices)
  {
    var refreshed := RefreshPrices(list, prices);
    var synced := SyncPrices(refreshed, prices);
    forall j | 0 <= j < |list|
      ensures synced[j] == refreshed[j]
    {
      assert refreshed[j].name == list[j].name;
    }
  }

  /** The two merges agree when every fetched price is truthy. */
  lemma SyncAgreesWithRefresh(list: seq<Product>, prices: map<string, int>)
    requires forall j :: 0 <= j < |list| ==> Truthy(Fetched(prices, list[j].name))
    ensures SyncPrices(list, prices) == RefreshPrices(list, prices)
  {
    var synced, refreshed := SyncPrices(list, prices), RefreshPrices(list, prices);
    forall j | 0 <= j < |list|
      ensures synced[j] == refreshed[j]
    {
      assert SameButPrice(synced[j], list[j]) && SameButPrice(refreshed[j], list[j]);
    }
  }

  /** A refresh whose lookup answered nothing leaves every item without a price. */
  lemma RefreshWithNoAnswer(list: seq<Product>)
    ensures forall j :: 0 <= j < |list| ==> RefreshPrices(list, map[])[j].price.None?
  {
  }

  /**
   * The background sync as one step: skipped on an empty list, otherwise the
   * list's names are looked up and merged back.
   */
  function AutoSync(list: seq<Product>, draw: nat -> Api.Random): (r: seq<Product>)
    ensures |r| == |list|
    ensures forall j :: 0 <= j < |list| ==> SameButPrice(r[j], list[j])
  {
    if |list| == 0 then list else SyncPrices(list, Api.FetchPrices(Names(list), draw))
  }

  /**
   * The background sync depends on `products.length` only: it runs after a
   * change exactly when the number of items changed.
   */
  predicate SyncRuns(before: seq<Product>, after: seq<Product>) {
    |before| != |after|
  }

  /** Removing an id that is listed shortens the list. */
  lemma {:induction false} RemoveShrinks(list: seq<Product>, id: string)
    requires HasId(list, id)
    ensures |RemoveById(list, id)| < |list|
    decreases |list|
  {
    if list[0].id == id {
      RemoveDropHead(list, id);
      RemoveNoLonger(list[1..], id);
    } else {
      var j :| 0 <= j < |list| && list[j].id == id;
      assert list[1..][j - 1] == list[j];
      RemoveShrinks(list[1..], id);
      RemoveStep(list, id);
    }
  }

  /** Removal never lengthens the list. */
  lemma {:induction false} RemoveNoLonger(list: seq<Product>, id: string)
    ensures |RemoveById(list, id)| <= |list|
    decreases |list|
  {
    if |list| > 0 {
      RemoveNoLonger(list[1..], id);
      if list[0].id == id {
        RemoveDropHead(list, id);
      } else {
        RemoveStep(list, id);
      }
    }
  }

  /** Clearing a list with a checked item shortens it. */
  lemma {:induction false} ClearCheckedShrinks(list: seq<Product>)
    requires !NoneChecked(list)
    ensures |ClearChecked(list)| < |list|
    decreases |list|
  {
    assert list == [list[0]] + list[1..];
    if !list[0].checked {
      var j :| 0 <= j < |list| && list[j].checked;
      assert list[1..][j - 1] == list[j];
      ClearCheckedShrinks(list[1..]);
    } else {
      ClearCheckedNoLonger(list[1..]);
    }
  }

  /** Clearing checked items never lengthens the list. */
  lemma {:induction false} ClearCheckedNoLonger(list: seq<Product>)
    ensures |ClearChecked(list)| <= |list|
    decreases |list|
  {
    if |list| > 0 {
      ClearCheckedNoLonger(list[1..]);
      var rest := ClearChecked(list[1..]);
      assert ClearChecked(list) == if list[0].checked then rest else [list[0]] + rest;
    }
  }

  /**
   * Which list changes set the background sync off: adding a new name,
   * removing a listed id, and clearing when something is checked; never a
   * quantity bump of a listed name or any other update.
   */
  lemma SyncTriggers(list: seq<Product>, d: Draft, freshId: string, id: string, u: Patch)
    ensures SyncRuns(list, MergeAdd(list, d, freshId)) <==> !HasName(list, d.name)
    ensures !SyncRuns(list, UpdateById(list, id, u))
    ensures SyncRuns(list, RemoveById(list, id)) <==> HasId(list, id)
    ensures SyncRuns(list, ClearChecked(list)) <==> !NoneChecked(list)
  {
    if HasId(list, id) {
      RemoveShrinks(list, id);
    } else {
      RemoveUnknownId(list, id);
    }
    if NoneChecked(list) {
      ClearCheckedNothingChecked(list);
    } else {
      ClearCheckedShrinks(list);
    }
  }

  /** `handleRefreshPrices` as one step. */
  function Refresh(list: seq<Product>, draw: nat -> Api.Random): (r: seq<Product>)
    ensures |r| == |list|
    ensures forall j :: 0 <= j < |list| ==> SameButPrice(r[j], list[j])
  {
    if |list| == 0 then list else RefreshPrices(list, Api.FetchPrices(Names(list), draw))
  }

  /**
   * Because the mock lookup answers every name with a positive price, both
   * merges leave every item priced, and they agree.
   */
  lemma MergesPriceEverything(list: seq<Product>, draw: nat -> Api.Random)
    ensures forall j :: 0 <= j < |list| ==> Truthy(AutoSync(list, draw)[j].price)
    ensures AutoSync(list, draw) == Refresh(list, draw)
  {
    if |list| > 0 {
      var names := Names(list);
      var prices := Api.FetchPrices(names, draw);
      Api.FetchPricesTruthy(names, draw);
      forall j | 0 <= j < |list|
        ensures Truthy(Fetched(prices, list[j].name))
      {
        assert names[j] == list[j].name;
        assert list[j].name in names;
      }
      SyncAgreesWithRefresh(list, prices);
    }
  }

  // ----- grouping by category -----

  /** The heading of items without a category. */
  const Other: string := "Другое"

  /** `product.category || 'Другое'`. */
  function CategoryKey(p: Product): string {
    if p.category == "" then Other else p.category
  }

  /** One heading of the list page and its items. */
  datatype Group = Group(key: string, items: seq<Product>)

  /** The items filed under `key`, in list order. */
  function ItemsIn(list: seq<Product>, key: string): (r: seq<Product>)
    ensures forall p :: p in r <==> p in list && CategoryKey(p) == key
    ensures Subsequence(r, list)
    decreases |list|
  {
    if |list| == 0 then []
    else
      var prefix, last := list[..|list| - 1], list[|list| - 1];
      var before := ItemsIn(prefix, key);
      assert list == prefix + [last];
      if CategoryKey(last) == key then
        SubsequenceSnoc(before, prefix, last);
        before + [last]
      else
        SubsequenceExtend(before, prefix, last);
        before
  }

  /** A group holds each item of its key as often as the list does, and nothing else. */
  lemma {:induction false} ItemsInCounts(list: seq<Product>, key: string)
    ensures forall p :: multiset(ItemsIn(list, key))[p] == if CategoryKey(p) == key then multiset(list)[p] else 0
    decreases |list|
  {
    if |list| > 0 {
      var prefix, last := list[..|list| - 1], list[|list| - 1];
      ItemsInCounts(prefix, key);
      assert list == prefix + [last];
    }
  }

  /** No two groups share a key. */
  predicate DistinctKeys(groups: seq<Group>) {
    forall i, j :: 0 <= i < j < |groups| ==> groups[i].key != groups[j].key
  }

  /** The items of the group with this key; none when there is no such group. */
  function GroupOf(groups: seq<Group>, key: string): seq<Product>
    decreases |groups|
  {
    if |groups| == 0 then []
    else if groups[0].key == key then groups[0].items
    else GroupOf(groups[1..], key)
  }

  /** A group with this key exists. */
  predicate HasGroup(groups: seq<Group>, key: string) {
    exists i :: 0 <= i < |groups| && groups[i].key == key
  }

  /**
   * The groups partition the list: keys are distinct, no group is empty, and
   * the group of every key holds exactly the list's items of that key, in
   * list order.
   */
  ghost predicate Partitions(groups: seq<Group>, list: seq<Product>) {
    && DistinctKeys(groups)
    && (forall i :: 0 <= i < |groups| ==> |groups[i].items| > 0)
    && (forall key :: GroupOf(groups, key) == ItemsIn(list, key))
  }

  /** One step of the reduce: push onto the item's group, opening it at the end if new. */
  function AddToGroups(groups: seq<Group>, p: Product): seq<Group>
    decreases |groups|
  {
    if |groups| == 0 then [Group(CategoryKey(p), [p])]
    else if groups[0].key == CategoryKey(p) then [groups[0].(items := groups[0].items + [p])] + groups[1..]
    else [groups[0]] + AddToGroups(groups[1..], p)
  }

  /** A missing key has no items. */
  lemma {:induction false} GroupOfMissing(groups: seq<Group>, key: string)
    requires !HasGroup(groups, key)
    ensures GroupOf(groups, key) == []
    decreases |groups|
  {
    if |groups| > 0 {
      GroupOfMissing(groups[1..], key);
    }
  }

  /**
   * A reduce step keeps the keys where they are and opens one group at the
   * end exactly when the item's key is new.
   */
  lemma {:induction false} AddToGroupsShape(groups: seq<Group>, p: Product)
    ensures |AddToGroups(groups, p)| == |groups| + (if HasGroup(groups, CategoryKey(p)) then 0 else 1)
    ensures forall i :: 0 <= i < |groups| ==> AddToGroups(groups, p)[i].key == groups[i].key
    ensures !HasGroup(groups, CategoryKey(p)) ==> AddToGroups(groups, p)[|groups|].key == CategoryKey(p)
    decreases |groups|
  {
    var key := CategoryKey(p);
    if |groups| > 0 && groups[0].key != key {
      var tail := groups[1..];
      AddToGroupsShape(tail, p);
      var r := AddToGroups(groups, p);
      var rest := AddToGroups(tail, p);
      assert r == [groups[0]] + rest;
      assert HasGroup(groups, key) <==> HasGroup(tail, key) by {
        if HasGroup(groups, key) {
          var i :| 0 <= i < |groups| && groups[i].key == key;
          assert tail[i - 1] == groups[i];
        }
        if HasGroup(tail, key) {
          var i :| 0 <= i < |tail| && tail[i].key == key;
          assert groups[i + 1] == tail[i];
        }
      }
      forall i | 0 <= i < |groups|
        ensures r[i].key == groups[i].key
      {
        if i > 0 {
          assert r[i] == rest[i - 1] && groups[i] == tail[i - 1];
        }
      }
    } else if |groups| > 0 {
      assert HasGroup(groups, key) by {
        assert groups[0].key == key;
      }
    }
  }

  /** A reduce step opens a group exactly for a new key, and keeps keys distinct. */
  lemma AddToGroupsKeys(groups: seq<Group>, p: Product)
    requires DistinctKeys(groups)
    ensures DistinctKeys(AddToGroups(groups, p))
    ensures forall key :: HasGroup(AddToGroups(groups, p), key) <==> HasGroup(groups, key) || key == CategoryKey(p)
  {
    var r := AddToGroups(groups, p);
    var key := CategoryKey(p);
    AddToGroupsShape(groups, p);
    forall i, j | 0 <= i < j < |r|
      ensures r[i].key != r[j].key
    {
      if j == |groups| {
        assert groups[i].key != key;
      }
    }
    forall k
      ensures HasGroup(r, k) <==> HasGroup(groups, k) || k == key
    {
      if HasGroup(r, k) {
        var i :| 0 <= i < |r| && r[i].key == k;
        if i < |groups| {
          assert groups[i].key == k;
        }
      }
      if HasGroup(groups, k) {
        var i :| 0 <= i < |groups| && groups[i].key == k;
        assert r[i].key == k;
      }
      if k == key && HasGroup(groups, key) {
        var i :| 0 <= i < |groups| && groups[i].key == key;
        assert r[i].key == key;
      } else if k == key {
        assert r[|groups|].key == key;
      }
    }
  }

  /** A reduce step keeps every group non-empty. */
  lemma {:induction false} AddToGroupsNonEmpty(groups: seq<Group>, p: Product)
    requires forall i :: 0 <= i < |groups| ==> |groups[i].items| > 0
    ensures forall i :: 0 <= i < |AddToGroups(groups, p)| ==> |AddToGroups(groups, p)[i].items| > 0
    decreases |groups|
  {
    if |groups| > 0 && groups[0].key != CategoryKey(p) {
      AddToGroupsNonEmpty(groups[1..], p);
      var r := AddToGroups(groups, p);
      assert forall i :: 1 <= i < |r| ==> r[i] == AddToGroups(groups[1..], p)[i - 1];
    }
  }

  /** A reduce step appends the item to its own key's group and to no other. */
  lemma {:induction false} AddToGroupsItems(groups: seq<Group>, p: Product, key: string)
    ensures GroupOf(AddToGroups(groups, p), key) == GroupOf(groups, key) + (if key == CategoryKey(p) then [p] else [])
    decreases |groups|
  {
    var r := AddToGroups(groups, p);
    if |groups| == 0 {
      assert GroupOf(r, key) == (if key == CategoryKey(p) then [p] else GroupOf(r[1..], key));
    } else if groups[0].key == CategoryKey(p) {
      assert r[1..] == groups[1..];
    } else {
      AddToGroupsItems(groups[1..], p, key);
      assert r[1..] == AddToGroups(groups[1..], p);
    }
  }

  /** `groupedProducts`: the reduce over the list, left to right. */
  function GroupByCategory(list: seq<Product>): (r: seq<Group>)
    ensures Partitions(r, list)
    ensures forall key :: HasGroup(r, key) <==> exists j :: 0 <= j < |list| && CategoryKey(list[j]) == key
    decreases |list|
  {
    if |list| == 0 then []
    else
      var prefix, last := list[..|list| - 1], list[|list| - 1];
      var before := GroupByCategory(prefix);
      AddToGroupsKeys(before, last);
      AddToGroupsNonEmpty(before, last);
      forall key
        ensures GroupOf(AddToGroups(before, last), key) == GroupOf(before, key) + (if key == CategoryKey(last) then [last] else [])
      {
        AddToGroupsItems(before, last, key);
      }
      assert list == prefix + [last];
      assert forall j :: 0 <= j < |prefix| ==> prefix[j] == list[j];
      AddToGroups(before, last)
  }

  /** Every item is filed in exactly one group: the one of its own key. */
  lemma ItemInExactlyOneGroup(list: seq<Product>, j: nat)
    requires j < |list|
    ensures exists i :: (
      && 0 <= i < |GroupByCategory(list)|
      && GroupByCategory(list)[i].key == CategoryKey(list[j])
      && list[j] in GroupByCategory(list)[i].items)
    ensures forall i :: (
      0 <= i < |GroupByCategory(list)| && list[j] in GroupByCategory(list)[i].items ==>
      GroupByCategory(list)[i].key == CategoryKey(list[j]))
  {
    var groups := GroupByCategory(list);
    var key := CategoryKey(list[j]);
    assert Partitions(groups, list);
    assert HasGroup(groups, key);
    var i :| 0 <= i < |groups| && groups[i].key == key;
    GroupOfFound(groups, i);
    assert GroupOf(groups, key) == ItemsIn(list, key);
    assert list[j] in list;
    assert list[j] in groups[i].items;
    forall i' | 0 <= i' < |groups| && list[j] in groups[i'].items
      ensures groups[i'].key == key
    {
      GroupOfFound(groups, i');
      assert GroupOf(groups, groups[i'].key) == ItemsIn(list, groups[i'].key);
    }
  }

  /** With distinct keys, a group's items are what `GroupOf` finds for its key. */
  lemma {:induction false} GroupOfFound(groups: seq<Group>, i: nat)
    requires DistinctKeys(groups) && i < |groups|
    ensures GroupOf(groups, groups[i].key) == groups[i].items
    decreases |groups|
  {
    if i > 0 {
      GroupOfFound(groups[1..], i - 1);
    }
  }

  // ----- the total -----

  /** What one item adds to the total: `price * quantity` when the price is truthy. */
  function LineCost(p: Product): real {
    if Truthy(p.price) then p.price.value * p.quantity else 0.0
  }

  /** The `reduce` of the total line, left to right from 0. */
  function Total(list: seq<Product>): (r: real)
    ensures (forall j :: 0 <= j < |list| ==> !Truthy(list[j].price)) ==> r == 0.0
    decreases |list|
  {
    if |list| == 0 then 0.0 else Total(list[..|list| - 1]) + LineCost(list[|list| - 1])
  }

  /** The sum over the priced items only, taken from the front. */
  function PricedSum(list: seq<Product>): real
    decreases |list|
  {
    if |list| == 0 then 0.0
    else if Truthy(list[0].price) then list[0].price.value * list[0].quantity + PricedSum(list[1..])
    else PricedSum(list[1..])
  }

  /** The total of a concatenation is the sum of the totals. */
  lemma {:induction false} TotalAppend(a: seq<Product>, b: seq<Product>)
    ensures Total(a + b) == Total(a) + Total(b)
    decreases |b|
  {
    if |b| > 0 {
      var b' := b[..|b| - 1];
      TotalAppend(a, b');
      assert (a + b)[..|a + b| - 1] == a + b';
    } else {
      assert a + b == a;
    }
  }

  /** The total is the sum of price times quantity over the items with a truthy price. */
  lemma {:induction false} TotalIsPricedSum(list: seq<Product>)
    ensures Total(list) == PricedSum(list)
    decreases |list|
  {
    if |list| > 0 {
      TotalIsPricedSum(list[1..]);
      TotalAppend([list[0]], list[1..]);
      TotalSingleton(list[0]);
      PricedSumStep(list);
      assert [list[0]] + list[1..] == list;
    }
  }

  /** The total of one item is its line cost. */
  lemma TotalSingleton(p: Product)
    ensures Total([p]) == LineCost(p)
  {
    assert [p][..0] == [];
  }

  /** The priced sum takes the first item's line cost, then the rest's. */
  lemma PricedSumStep(list: seq<Product>)
    requires |list| > 0
    ensures PricedSum(list) == LineCost(list[0]) + PricedSum(list[1..])
  {
  }

  /** An item without a truthy price contributes nothing, wherever it stands. */
  lemma UnpricedContributesNothing(a: seq<Product>, p: Product, b: seq<Product>)
    requires !Truthy(p.price)
    ensures Total(a + [p] + b) == Total(a + b)
  {
    TotalAppend(a + [p], b);
    TotalAppend(a, [p]);
    TotalAppend(a, b);
    assert [p][..0] == [];
  }

  /** With non-negative prices and positive quantities the total is non-negative. */
  lemma {:induction false} TotalNonNegative(list: seq<Product>)
    requires PositiveQuantities(list)
    requires forall j :: 0 <= j < |list| && list[j].price.Some? ==> list[j].price.value >= 0.0
    ensures Total(list) >= 0.0
    decreases |list|
  {
    if |list| > 0 {
      var last := list[|list| - 1];
      TotalNonNegative(list[..|list| - 1]);
      if Truthy(last.price) {
        assert last.price.value * last.quantity >= 0.0;
      }
    }
  }

  /**
   * What a confirmed clear-all leaves for the page: no heading, a total of 0,
   * and a skipped background sync on the now-empty list, which ran only if
   * the list had items; a declined one changes nothing and sets nothing off.
   */
  lemma ClearAllEmptiesPage(list: seq<Product>, confirmed: bool, draw: nat -> Api.Random)
    ensures var r := ClearAll(list, confirmed);
      && (confirmed ==> GroupByCategory(r) == [] && Total(r) == 0.0 && AutoSync(r, draw) == r)
      && (confirmed ==> (SyncRuns(list, r) <==> |list| > 0))
      && (!confirmed ==> r == list && !SyncRuns(list, r))
  {
  }
}
