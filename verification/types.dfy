/** The records of the shopping list (the `Product` interface and its derived shapes). */
module Types {
  import opened Wrappers

  /**
   * One entry of a shopping list. `price` is absent until a lookup fills it;
   * `quantity` is a JavaScript number, modelled as an exact real.
   */
  datatype Product = Product(
    id: string,
    name: string,
    category: string,
    price: Option<real>,
    quantity: real,
    checked: bool,
    unit: string)

  /**
   * `Omit<Product, 'quantity' | 'checked'>`: what the catalog, the search box
   * and the catalog page hand to an add handler.
   */
  datatype Draft = Draft(
    id: string,
    name: string,
    category: string,
    price: Option<real>,
    unit: string)

  /**
   * `Partial<Product>`: each field is either left alone (`None`) or replaced.
   * A price field of `Some(None)` writes `price: undefined`.
   */
  datatype Patch = Patch(
    id: Option<string>,
    name: Option<string>,
    category: Option<string>,
    price: Option<Option<real>>,
    quantity: Option<real>,
    checked: Option<bool>,
    unit: Option<string>)

  /** `{ ...p, ...u }`: the supplied fields of `u` win, the rest come from `p`. */
  function Apply(p: Product, u: Patch): Product {
    Product(
      u.id.GetOr(p.id),
      u.name.GetOr(p.name),
      u.category.GetOr(p.category),
      u.price.GetOr(p.price),
      u.quantity.GetOr(p.quantity),
      u.checked.GetOr(p.checked),
      u.unit.GetOr(p.unit))
  }

  /** The patch `{ quantity: q }`. */
  function QuantityPatch(q: real): Patch {
    Patch(None, None, None, None, Some(q), None, None)
  }

  /** The patch `{ checked: b }`. */
  function CheckedPatch(b: bool): Patch {
    Patch(None, None, None, None, None, Some(b), None)
  }

  /** JavaScript truthiness of an optional price: present and not 0. */
  predicate Truthy(price: Option<real>) {
    price.Some? && price.value != 0.0
  }

  /** No two items of the list share an id. */
  predicate UniqueIds(list: seq<Product>) {
    forall i, j :: 0 <= i < j < |list| ==> list[i].id != list[j].id
  }

  /** Some item of the list has this id. */
  predicate HasId(list: seq<Product>, id: string) {
    exists j :: 0 <= j < |list| && list[j].id == id
  }

  /** Some item of the list has exactly this name. */
  predicate HasName(list: seq<Product>, name: string) {
    exists j :: 0 <= j < |list| && list[j].name == name
  }

  /** No two items of the list share a name. */
  predicate UniqueNames(list: seq<Product>) {
    forall i, j :: 0 <= i < j < |list| ==> list[i].name != list[j].name
  }

  /** Every quantity is positive, as the add and edit paths intend. */
  predicate PositiveQuantities(list: seq<Product>) {
    forall j :: 0 <= j < |list| ==> list[j].quantity > 0.0
  }

  /** `products.map(p => p.name)`. */
  function Names(list: seq<Product>): (r: seq<string>)
    ensures |r| == |list|
    ensures forall j :: 0 <= j < |list| ==> r[j] == list[j].name
    decreases |list|
  {
    if |list| == 0 then [] else [list[0].name] + Names(list[1..])
  }
}
