/**
 * The mock back end: the static catalog, the mock price lookup and the
 * catalog search.
 */
module Api {
  import opened Wrappers
  import opened Types
  import opened Text
  import opened Sequences

  /** A catalog category: `ProductCategory`. */
  datatype Category = Category(id: string, name: string, products: seq<Draft>)

  /** A catalog entry carries no price. */
  function Entry(id: string, name: string, category: string, unit: string): Draft {
    Draft(id, name, category, None, unit)
  }

  /** `mockCatalog`. */
  const Catalog: seq<Category> := [
    Category("cat-1", "Фрукты и овощи", [
      Entry("p-1", "Яблоки", "Фрукты и овощи", "кг"),
      Entry("p-2", "Бананы", "Фрукты и овощи", "кг"),
      Entry("p-3", "Огурцы", "Фрукты и овощи", "кг"),
      Entry("p-4", "Помидоры", "Фрукты и овощи", "кг"),
      Entry("p-5", "Картофель", "Фрукты и овощи", "кг"),
      Entry("p-6", "Морковь", "Фрукты и овощи", "кг"),
      Entry("p-7", "Лук", "Фрукты и овощи", "кг")]),
    Category("cat-2", "Молочные продукты", [
      Entry("p-8", "Молоко", "Молочные продукты", "л"),
      Entry("p-9", "Сыр", "Молочные продукты", "кг"),
      Entry("p-10", "Йогурт", "Молочные продукты", "шт"),
      Entry("p-11", "Творог", "Молочные продукты", "кг"),
      Entry("p-12", "Сметана", "Молочные продукты", "шт")]),
    Category("cat-3", "Мясо и рыба", [
      Entry("p-13", "Курица", "Мясо и рыба", "кг"),
      Entry("p-14", "Говядина", "Мясо и рыба", "кг"),
      Entry("p-15", "Свинина", "Мясо и рыба", "кг"),
      Entry("p-16", "Лосось", "Мясо и рыба", "кг"),
      Entry("p-17", "Треска", "Мясо и рыба", "кг")]),
    Category("cat-4", "Бакалея", [
      Entry("p-18", "Рис", "Бакалея", "кг"),
      Entry("p-19", "Макароны", "Бакалея", "кг"),
      Entry("p-20", "Гречка", "Бакалея", "кг"),
      Entry("p-21", "Мука", "Бакалея", "кг"),
      Entry("p-22", "Сахар", "Бакалея", "кг"),
      Entry("p-23", "Соль", "Бакалея", "кг")]),
    Category("cat-5", "Напитки", [
      Entry("p-24", "Вода", "Напитки", "л"),
      Entry("p-25", "Сок", "Напитки", "л"),
      Entry("p-26", "Чай", "Напитки", "уп"),
      Entry("p-27", "Кофе", "Напитки", "уп")])
  ]

  /** The concatenation of each category's products, in category order. */
  function Flatten(cats: seq<Category>): (r: seq<Draft>)
    ensures forall d :: d in r <==> exists c :: c in cats && d in c.products
    decreases |cats|
  {
    if |cats| == 0 then [] else cats[0].products + Flatten(cats[1..])
  }

  /**
   * Flattening distributes over joining catalogs: the result is the
   * categories' product lists laid end to end, in category order.
   */
  lemma {:induction false} FlattenAppend(a: seq<Category>, b: seq<Category>)
    ensures Flatten(a + b) == Flatten(a) + Flatten(b)
    decreases |a|
  {
    if |a| == 0 {
      assert a + b == b;
    } else {
      assert (a + b)[0] == a[0];
      assert (a + b)[1..] == a[1..] + b;
      FlattenAppend(a[1..], b);
      assert Flatten(a + b) == a[0].products + Flatten(a[1..] + b);
    }
  }

  /** One category flattens to its own product list. */
  lemma FlattenSingle(c: Category)
    ensures Flatten([c]) == c.products
  {
    assert [c][1..] == [];
  }

  /** `getAllProducts()`: every product of every category, and nothing else. */
  function AllProducts(): (r: seq<Draft>)
    ensures forall d :: d in r <==> exists a :: 0 <= a < |Catalog| && d in Catalog[a].products
  {
    Flatten(Catalog)
  }

  /** Category ids are distinct. */
  predicate UniqueCategoryIds(cats: seq<Category>) {
    forall i, j :: 0 <= i < j < |cats| ==> cats[i].id != cats[j].id
  }

  /** Entry ids are distinct. */
  predicate UniqueEntryIds(entries: seq<Draft>) {
    forall i, j :: 0 <= i < j < |entries| ==> entries[i].id != entries[j].id
  }

  /** No id of `xs` is an id of `ys`. */
  predicate IdsDisjoint(xs: seq<Draft>, ys: seq<Draft>) {
    forall i, j :: 0 <= i < |xs| && 0 <= j < |ys| ==> xs[i].id != ys[j].id
  }

  /** Ids unique within each category and disjoint between categories are unique in the flattened catalog. */
  lemma {:induction false} FlattenUniqueIds(cats: seq<Category>)
    requires forall a :: 0 <= a < |cats| ==> UniqueEntryIds(cats[a].products)
    requires forall a, b :: 0 <= a < b < |cats| ==> IdsDisjoint(cats[a].products, cats[b].products)
    ensures UniqueEntryIds(Flatten(cats))
    decreases |cats|
  {
    if |cats| > 0 {
      FlattenUniqueIds(cats[1..]);
      var head, rest := cats[0].products, Flatten(cats[1..]);
      forall i, j | 0 <= i < |head| && 0 <= j < |rest|
        ensures head[i].id != rest[j].id
      {
        assert rest[j] in rest;
        var c :| c in cats[1..] && rest[j] in c.products;
        var b :| 1 <= b < |cats| && cats[b] == c;
        var j' :| 0 <= j' < |c.products| && c.products[j'] == rest[j];
        assert IdsDisjoint(cats[0].products, cats[b].products);
      }
    }
  }

  /** Within one of the first two catalog categories the ids are distinct. */
  lemma CategoryIdsUniqueEarly(a: nat)
    requires a < 2
    ensures UniqueEntryIds(Catalog[a].products)
  {
    if a == 0 { }
    else if a == 1 { }
  }

  /** Within one of the last three catalog categories the ids are distinct. */
  lemma CategoryIdsUniqueLate(a: nat)
    requires 2 <= a < |Catalog|
    ensures UniqueEntryIds(Catalog[a].products)
  {
    if a == 2 { }
    else if a == 3 { }
    else if a == 4 { }
  }

  /** The first catalog category shares no id with a later one. */
  lemma CategoryIdsApartFirst(b: nat)
    requires 0 < b < |Catalog|
    ensures IdsDisjoint(Catalog[0].products, Catalog[b].products)
  {
    if b == 1 { }
    else if b == 2 { }
    else if b == 3 { }
    else if b == 4 { }
  }

  /** The second catalog category shares no id with a later one. */
  lemma CategoryIdsApartSecond(b: nat)
    requires 1 < b < |Catalog|
    ensures IdsDisjoint(Catalog[1].products, Catalog[b].products)
  {
    if b == 2 { }
    else if b == 3 { }
    else if b == 4 { }
  }

  /** Two of the last three catalog categories share no id. */
  lemma CategoryIdsApartLate(a: nat, b: nat)
    requires 2 <= a < b < |Catalog|
    ensures IdsDisjoint(Catalog[a].products, Catalog[b].products)
  {
    if a == 2 && b == 3 { }
    else if a == 2 && b == 4 { }
    else if a == 3 && b == 4 { }
  }

  /**
   * The data invariants of `mockCatalog`: each product is labelled with its
   * enclosing category's name, category ids and product ids are unique, no
   * catalog entry carries a price, and the price table knows every catalog
   * name.
   */
  lemma CatalogWellFormed()
    ensures forall a, i :: 0 <= a < |Catalog| && 0 <= i < |Catalog[a].products| ==>
      Catalog[a].products[i].category == Catalog[a].name
    ensures UniqueCategoryIds(Catalog)
    ensures UniqueEntryIds(AllProducts())
    ensures forall i :: 0 <= i < |AllProducts()| ==> AllProducts()[i].price.None? && AllProducts()[i].name in PriceTable
  {
    CatalogLabels();
    CatalogPriced();
    CatalogCategoryIds();
    CatalogEntryIds();
  }

  /** Category ids are distinct. */
  lemma CatalogCategoryIds()
    ensures UniqueCategoryIds(Catalog)
  {
    var ids := seq(|Catalog|, i requires 0 <= i < |Catalog| => Catalog[i].id);
    assert ids == ["cat-1", "cat-2", "cat-3", "cat-4", "cat-5"];
    forall i, j | 0 <= i < j < |Catalog|
      ensures Catalog[i].id != Catalog[j].id
    {
      assert ids[i] == Catalog[i].id && ids[j] == Catalog[j].id;
    }
  }

  /** Entry ids are distinct across the whole catalog. */
  lemma CatalogEntryIds()
    ensures UniqueEntryIds(AllProducts())
  {
    forall a | 0 <= a < |Catalog|
      ensures UniqueEntryIds(Catalog[a].products)
    {
      if a < 2 {
        CategoryIdsUniqueEarly(a);
      } else {
        CategoryIdsUniqueLate(a);
      }
    }
    forall a, b | 0 <= a < b < |Catalog|
      ensures IdsDisjoint(Catalog[a].products, Catalog[b].products)
    {
      if a == 0 {
        CategoryIdsApartFirst(b);
      } else if a == 1 {
        CategoryIdsApartSecond(b);
      } else {
        CategoryIdsApartLate(a, b);
      }
    }
    FlattenUniqueIds(Catalog);
  }

  /** Each catalog entry is labelled with its category's name. */
  lemma CatalogLabels()
    ensures forall a, i :: 0 <= a < |Catalog| && 0 <= i < |Catalog[a].products| ==>
      Catalog[a].products[i].category == Catalog[a].name
  {
  }

  /** No catalog entry carries a price, and the price table knows each name. */
  lemma CatalogPriced()
    ensures forall i :: 0 <= i < |AllProducts()| ==> AllProducts()[i].price.None? && AllProducts()[i].name in PriceTable
  {
  }

  /** The mock price table of `fetchProductPrices`, in roubles. */
  const PriceTable: map<string, int> := map[
    "Яблоки" := 120, "Бананы" := 90, "Огурцы" := 150, "Помидоры" := 180,
    "Картофель" := 45, "Морковь" := 60, "Лук" := 40,
    "Молоко" := 85, "Сыр" := 450, "Йогурт" := 75, "Творог" := 230, "Сметана" := 110,
    "Курица" := 230, "Говядина" := 450, "Свинина" := 320, "Лосось" := 650, "Треска" := 380,
    "Рис" := 95, "Макароны" := 70, "Гречка" := 85, "Мука" := 65, "Сахар" := 80, "Соль" := 35,
    "Вода" := 45, "Сок" := 120, "Чай" := 150, "Кофе" := 350
  ]

  /** Every table price is a positive number, so a table hit is always truthy. */
  lemma PriceTablePositive()
    ensures forall n :: n in PriceTable ==> 35 <= PriceTable[n] <= 650
  {
  }

  /** A value of `Math.random()`. */
  type Random = x: real | 0.0 <= x < 1.0

  /** `Math.floor(Math.random() * 470) + 30`. */
  function RandomPrice(x: Random): (r: int)
    ensures 30 <= r <= 499
  {
    (x * 470.0).Floor + 30
  }

  /** Every integer of the fallback range is produced by some random draw. */
  lemma RandomPriceCovers(k: int)
    requires 30 <= k <= 499
    ensures exists x: Random :: RandomPrice(x) == k
  {
    var x: Random := (k - 30) as real / 470.0;
    assert x * 470.0 == (k - 30) as real;
    assert RandomPrice(x) == k;
  }

  /** `names[k]` does not occur again after position `k`. */
  predicate LastOccurrence(names: seq<string>, k: int)
    requires 0 <= k < |names|
  {
    forall k' :: k < k' < |names| ==> names[k'] != names[k]
  }

  /**
   * The `forEach` of `fetchProductPrices` against a given table: a truthy
   * table entry is copied, any other name gets a random price. The k-th name
   * uses `draw(k)` as its `Math.random()` value. The result has a key for
   * every requested name and no other key.
   */
  function FetchFrom(table: map<string, int>, names: seq<string>, draw: nat -> Random): (r: map<string, int>)
    ensures r.Keys == set n | n in names
    ensures forall n :: n in r && n in table && table[n] != 0 ==> r[n] == table[n]
    ensures forall n :: n in r && !(n in table && table[n] != 0) ==> 30 <= r[n] <= 499
    decreases |names|
  {
    if |names| == 0 then map[]
    else
      var k := |names| - 1;
      var n := names[k];
      var known := n in table && table[n] != 0;
      assert names == names[..k] + [n];
      FetchFrom(table, names[..k], draw)[n := if known then table[n] else RandomPrice(draw(k))]
  }

  /**
   * `fetchProductPrices(names)` once its delay has elapsed: a name of the
   * price table gets its table price, any other name a price in [30, 499].
   */
  function FetchPrices(names: seq<string>, draw: nat -> Random): (r: map<string, int>)
    ensures r.Keys == set n | n in names
    ensures forall n :: n in r && n in PriceTable ==> r[n] == PriceTable[n]
    ensures forall n :: n in r && n !in PriceTable ==> 30 <= r[n] <= 499
  {
    PriceTablePositive();
    FetchFrom(PriceTable, names, draw)
  }

  /** A name missing from the table keeps the random price drawn at its last occurrence. */
  lemma {:induction false} FetchFromLast(table: map<string, int>, names: seq<string>, draw: nat -> Random, k: nat)
    requires k < |names| && names[k] !in table && LastOccurrence(names, k)
    ensures names[k] in FetchFrom(table, names, draw)
    ensures FetchFrom(table, names, draw)[names[k]] == RandomPrice(draw(k))
    decreases |names|
  {
    var last := |names| - 1;
    if k < last {
      var prefix := names[..last];
      assert prefix[k] == names[k];
      assert LastOccurrence(prefix, k);
      FetchFromLast(table, prefix, draw, k);
      assert names[last] != names[k];
      assert FetchFrom(table, names, draw)[names[k]] == FetchFrom(table, prefix, draw)[names[k]];
    }
  }

  /**
   * `fetchProductPrices` returns a key for every requested name and no other
   * key; a table name gets exactly its table price, any other name an integer
   * price in [30, 499] drawn at its last occurrence.
   */
  lemma FetchPricesSpec(names: seq<string>, draw: nat -> Random)
    ensures FetchPrices(names, draw).Keys == set n | n in names
    ensures forall n :: n in FetchPrices(names, draw) && n in PriceTable ==> FetchPrices(names, draw)[n] == PriceTable[n]
    ensures forall n :: n in FetchPrices(names, draw) && n !in PriceTable ==> 30 <= FetchPrices(names, draw)[n] <= 499
    ensures forall k :: 0 <= k < |names| && names[k] !in PriceTable && LastOccurrence(names, k) ==>
      FetchPrices(names, draw)[names[k]] == RandomPrice(draw(k))
  {
    forall k | 0 <= k < |names| && names[k] !in PriceTable && LastOccurrence(names, k)
      ensures FetchPrices(names, draw)[names[k]] == RandomPrice(draw(k))
    {
      FetchFromLast(PriceTable, names, draw, k);
    }
  }

  /** A fetch answers every requested name with a positive, hence truthy, price. */
  lemma FetchPricesTruthy(names: seq<string>, draw: nat -> Random)
    ensures forall n :: n in names ==> n in FetchPrices(names, draw) && FetchPrices(names, draw)[n] > 0
  {
    PriceTablePositive();
    FetchPricesSpec(names, draw);
  }

  /** Lower-cased catalog names containing the lower-cased query, in order. */
  function Matching(entries: seq<Draft>, lowerQuery: string): (r: seq<Draft>)
    ensures forall d :: d in r <==> d in entries && Includes(Lower(d.name), lowerQuery)
    ensures Subsequence(r, entries)
    decreases |entries|
  {
    if |entries| == 0 then []
    else
      var rest := Matching(entries[1..], lowerQuery);
      assert entries == [entries[0]] + entries[1..];
      if Includes(Lower(entries[0].name), lowerQuery) then
        SubsequenceCons(entries[0], rest, entries[1..]);
        [entries[0]] + rest
      else
        SubsequenceSkip(entries[0], rest, entries[1..]);
        rest
  }

  /** The filter keeps every matching entry as often as it occurs, and no other. */
  lemma {:induction false} MatchingCounts(entries: seq<Draft>, lowerQuery: string)
    ensures forall d ::
      multiset(Matching(entries, lowerQuery))[d] == if Includes(Lower(d.name), lowerQuery) then multiset(entries)[d] else 0
    decreases |entries|
  {
    if |entries| > 0 {
      var x, rest := entries[0], entries[1..];
      var head := if Includes(Lower(x.name), lowerQuery) then [x] else [];
      MatchingCounts(rest, lowerQuery);
      MatchingHeadBags(entries, lowerQuery);
      forall d
        ensures multiset(Matching(entries, lowerQuery))[d] ==
          if Includes(Lower(d.name), lowerQuery) then multiset(entries)[d] else 0
      {
        assert multiset(head)[d] == if Includes(Lower(d.name), lowerQuery) then multiset([x])[d] else 0;
      }
    }
  }

  /** Filtering a non-empty list keeps or drops its head, then filters the rest. */
  lemma MatchingHead(entries: seq<Draft>, lowerQuery: string)
    requires |entries| > 0
    ensures Matching(entries, lowerQuery) ==
      (if Includes(Lower(entries[0].name), lowerQuery) then [entries[0]] else []) + Matching(entries[1..], lowerQuery)
  {
  }

  /** `MatchingHead` on the bags: the filter's bag is the kept head's bag plus the rest's. */
  lemma MatchingHeadBags(entries: seq<Draft>, lowerQuery: string)
    requires |entries| > 0
    ensures multiset(entries) == multiset([entries[0]]) + multiset(entries[1..])
    ensures multiset(Matching(entries, lowerQuery)) ==
      multiset(if Includes(Lower(entries[0].name), lowerQuery) then [entries[0]] else []) + multiset(Matching(entries[1..], lowerQuery))
  {
    MatchingHead(entries, lowerQuery);
    assert entries == [entries[0]] + entries[1..];
  }

  /** Filtering a concatenation filters each part. */
  lemma {:induction false} MatchingAppend(a: seq<Draft>, b: seq<Draft>, lowerQuery: string)
    ensures Matching(a + b, lowerQuery) == Matching(a, lowerQuery) + Matching(b, lowerQuery)
    decreases |a|
  {
    if |a| > 0 {
      assert (a + b)[0] == a[0];
      assert (a + b)[1..] == a[1..] + b;
      MatchingAppend(a[1..], b, lowerQuery);
      MatchingHead(a + b, lowerQuery);
      MatchingHead(a, lowerQuery);
    } else {
      assert a + b == b;
    }
  }

  /**
   * The two nested `forEach` loops of `searchProducts`, after the blank
   * check: the entries of any category whose lower-cased name contains the
   * query.
   */
  function SearchCategories(cats: seq<Category>, lowerQuery: string): (r: seq<Draft>)
    ensures forall d :: d in r <==> d in Flatten(cats) && Includes(Lower(d.name), lowerQuery)
    decreases |cats|
  {
    if |cats| == 0 then [] else Matching(cats[0].products, lowerQuery) + SearchCategories(cats[1..], lowerQuery)
  }

  /** `searchProducts(query)` over a given catalog. */
  function SearchIn(cats: seq<Category>, query: string): (r: seq<Draft>)
    ensures IsBlank(query) ==> r == []
    ensures !IsBlank(query) ==> forall d :: d in r <==> d in Flatten(cats) && Includes(Lower(d.name), Lower(query))
  {
    if IsBlank(query) then [] else SearchCategories(cats, Lower(query))
  }

  /**
   * `searchProducts(query)`: nothing for a blank query, otherwise the
   * matching entries of `getAllProducts()` in catalog order.
   */
  function SearchProducts(query: string): (r: seq<Draft>)
    ensures IsBlank(query) ==> r == []
    ensures !IsBlank(query) ==> r == Matching(AllProducts(), Lower(query))
  {
    SearchIsFilterOfAll(Catalog, query);
    SearchIn(Catalog, query)
  }

  /**
   * A blank query finds nothing; any other query finds exactly the entries of
   * the flattened catalog whose lower-cased name contains the lower-cased,
   * untrimmed query, in catalog order.
   */
  lemma {:induction false} SearchIsFilterOfAll(cats: seq<Category>, query: string)
    ensures IsBlank(query) ==> SearchIn(cats, query) == []
    ensures !IsBlank(query) ==> SearchIn(cats, query) == Matching(Flatten(cats), Lower(query))
    decreases |cats|
  {
    if !IsBlank(query) && |cats| > 0 {
      SearchIsFilterOfAll(cats[1..], query);
      MatchingAppend(cats[0].products, Flatten(cats[1..]), Lower(query));
    }
  }
}
