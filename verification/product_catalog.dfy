/**
 * The catalog browser: a search box that narrows every category to its
 * matching entries and hides the categories left empty, a sidebar that picks
 * the active category, and a pane with the active category's entries.
 */
module ProductCatalog {
  import opened Wrappers
  import opened Types
  import opened Text
  import opened Sequences
  import opened Api

  /** Every category, its entries narrowed to those matching the lower-cased query. */
  function Narrow(cats: seq<Category>, lowerQuery: string): (r: seq<Category>)
    ensures |r| == |cats|
    ensures forall i :: 0 <= i < |cats| ==>
      r[i].id == cats[i].id && r[i].name == cats[i].name
      && r[i].products == Matching(cats[i].products, lowerQuery)
    decreases |cats|
  {
    if |cats| == 0 then []
    else [cats[0].(products := Matching(cats[0].products, lowerQuery))] + Narrow(cats[1..], lowerQuery)
  }

  /** `.filter(category => category.products.length > 0)`. */
  function DropEmpty(cats: seq<Category>): (r: seq<Category>)
    ensures forall c :: c in r <==> c in cats && |c.products| > 0
    ensures Subsequence(r, cats)
    decreases |cats|
  {
    if |cats| == 0 then []
    else
      var rest := DropEmpty(cats[1..]);
      assert cats == [cats[0]] + cats[1..];
      if |cats[0].products| > 0 then
        SubsequenceCons(cats[0], rest, cats[1..]);
        [cats[0]] + rest
      else
        SubsequenceSkip(cats[0], rest, cats[1..]);
        rest
  }

  /** Dropping the empty categories keeps each other category as often as it occurred. */
  lemma {:induction false} DropEmptyCounts(cats: seq<Category>)
    ensures forall c :: multiset(DropEmpty(cats))[c] == if |c.products| > 0 then multiset(cats)[c] else 0
    decreases |cats|
  {
    if |cats| > 0 {
      DropEmptyCounts(cats[1..]);
      assert cats == [cats[0]] + cats[1..];
    }
  }

  /**
   * `filteredCatalog`: the whole catalog for a blank query; otherwise the
   * narrowed categories that kept an entry, in catalog order.
   */
  function FilterCatalog(cats: seq<Category>, query: string): (r: seq<Category>)
    ensures IsBlank(query) ==> r == cats
    ensures !IsBlank(query) ==> forall c :: c in r <==> c in Narrow(cats, Lower(query)) && |c.products| > 0
    ensures !IsBlank(query) ==> Subsequence(r, Narrow(cats, Lower(query)))
  {
    if IsBlank(query) then cats else DropEmpty(Narrow(cats, Lower(query)))
  }

  /**
   * The entries of the first category with the given id, or none. This is
   * `filteredCatalog.find(c => c.id === id)?.products || []`.
   */
  function ProductsOf(cats: seq<Category>, id: string): (r: seq<Draft>)
    ensures (forall k :: 0 <= k < |cats| ==> cats[k].id != id) ==> r == []
    ensures r != [] ==> exists k :: 0 <= k < |cats| && cats[k].id == id && cats[k].products == r
    ensures forall k :: 0 <= k < |cats| && cats[k].id == id && (forall m :: 0 <= m < k ==> cats[m].id != id) ==>
      r == cats[k].products
    decreases |cats|
  {
    if |cats| == 0 then []
    else if cats[0].id == id then cats[0].products
    else
      var r := ProductsOf(cats[1..], id);
      assert forall k :: 1 <= k < |cats| ==> cats[1..][k - 1] == cats[k];
      r
  }

  /**
   * `activeProducts`: nothing when no category (or the empty id) is active;
   * what the pane shows is always the list of a shown category with the
   * active id.
   */
  function ActiveProducts(filtered: seq<Category>, active: Option<string>): (r: seq<Draft>)
    ensures active.None? || active == Some("") ==> r == []
    ensures r != [] ==> exists k :: 0 <= k < |filtered| && Some(filtered[k].id) == active && filtered[k].products == r
  {
    match active
    case None => []
    case Some(id) => if id == "" then [] else ProductsOf(filtered, id)
  }

  /** The sidebar's buttons: picking a category makes it active. */
  function SelectCategory(c: Category): (r: Option<string>)
    ensures r == Some(c.id)
  {
    Some(c.id)
  }

  /**
   * With distinct category ids, clicking a category of the sidebar shows its
   * own entries in the pane, for whatever query the sidebar was built from.
   */
  lemma SelectShowsCategory(cats: seq<Category>, query: string, c: Category)
    requires UniqueCategoryIds(cats) && c in FilterCatalog(cats, query) && c.id != ""
    ensures ActiveProducts(FilterCatalog(cats, query), SelectCategory(c)) == c.products
  {
    if IsBlank(query) {
      var i :| 0 <= i < |cats| && cats[i] == c;
      ActiveProductsMatches(cats, query, i);
    } else {
      var n := Narrow(cats, Lower(query));
      var i :| 0 <= i < |n| && n[i] == c;
      ActiveProductsMatches(cats, query, i);
    }
  }

  /** The category shown first: the catalog's first. */
  const InitialActive: Option<string> := Some(Catalog[0].id)

  /**
   * A blank query shows the catalog unchanged; any other query shows, in
   * catalog order, exactly the narrowed categories that kept an entry, and
   * their entries are together what the catalog search finds.
   */
  lemma FilterCatalogSpec(cats: seq<Category>, query: string)
    ensures IsBlank(query) ==> FilterCatalog(cats, query) == cats
    ensures !IsBlank(query) ==> forall c :: c in FilterCatalog(cats, query) <==>
      |c.products| > 0 && exists i :: 0 <= i < |cats| && c == cats[i].(products := Matching(cats[i].products, Lower(query)))
    ensures !IsBlank(query) ==> Subsequence(FilterCatalog(cats, query), Narrow(cats, Lower(query)))
    ensures !IsBlank(query) ==> Flatten(FilterCatalog(cats, query)) == SearchIn(cats, query)
  {
    if !IsBlank(query) {
      FilteredMembers(cats, Lower(query));
      FilteredFlatten(cats, Lower(query));
    }
  }

  /** The narrowed, non-empty categories are the narrowings of catalog categories that kept an entry. */
  lemma FilteredMembers(cats: seq<Category>, lowerQuery: string)
    ensures forall c :: c in DropEmpty(Narrow(cats, lowerQuery)) <==>
      |c.products| > 0 && exists i :: 0 <= i < |cats| && c == cats[i].(products := Matching(cats[i].products, lowerQuery))
  {
    var n := Narrow(cats, lowerQuery);
    forall c | c in DropEmpty(n)
      ensures exists i :: 0 <= i < |cats| && c == cats[i].(products := Matching(cats[i].products, lowerQuery))
    {
      var i :| 0 <= i < |n| && n[i] == c;
      assert c == cats[i].(products := Matching(cats[i].products, lowerQuery));
    }
    forall c: Category | |c.products| > 0 && (exists i :: 0 <= i < |cats| && c == cats[i].(products := Matching(cats[i].products, lowerQuery)))
      ensures c in DropEmpty(n)
    {
      var i :| 0 <= i < |cats| && c == cats[i].(products := Matching(cats[i].products, lowerQuery));
      assert n[i] == c;
    }
  }

  /** The narrowed, non-empty categories hold the search's matches, in order. */
  lemma {:induction false} FilteredFlatten(cats: seq<Category>, lowerQuery: string)
    ensures Flatten(DropEmpty(Narrow(cats, lowerQuery))) == SearchCategories(cats, lowerQuery)
    decreases |cats|
  {
    if |cats| > 0 {
      FilteredFlatten(cats[1..], lowerQuery);
      var head := cats[0].(products := Matching(cats[0].products, lowerQuery));
      var rest := DropEmpty(Narrow(cats[1..], lowerQuery));
      NarrowedStep(cats, lowerQuery);
      assert SearchCategories(cats, lowerQuery) == head.products + SearchCategories(cats[1..], lowerQuery);
      if |head.products| > 0 {
        assert ([head] + rest)[1..] == rest;
        assert Flatten([head] + rest) == head.products + Flatten(rest);
      } else {
        assert [] + rest == rest;
      }
    } else {
      assert Narrow(cats, lowerQuery) == [];
    }
  }

  /**
   * With distinct category ids, the pane for a category shows exactly that
   * category's matches: all its entries for a blank query, and nothing when
   * the search left it empty, whatever the other categories match.
   */
  lemma {:induction false} ActiveProductsMatches(cats: seq<Category>, query: string, i: nat)
    requires UniqueCategoryIds(cats) && i < |cats| && cats[i].id != ""
    ensures IsBlank(query) ==> ActiveProducts(FilterCatalog(cats, query), Some(cats[i].id)) == cats[i].products
    ensures !IsBlank(query) ==>
      ActiveProducts(FilterCatalog(cats, query), Some(cats[i].id)) == Matching(cats[i].products, Lower(query))
  {
    if !IsBlank(query) {
      PaneOfNarrowed(cats, Lower(query), i);
    }
  }

  /** `ProductsOf` over the narrowed, non-empty categories. */
  lemma {:induction false} PaneOfNarrowed(cats: seq<Category>, lowerQuery: string, i: nat)
    requires UniqueCategoryIds(cats) && i < |cats|
    ensures ProductsOf(DropEmpty(Narrow(cats, lowerQuery)), cats[i].id) == Matching(cats[i].products, lowerQuery)
    decreases |cats|
  {
    var tail := cats[1..];
    var head := cats[0].(products := Matching(cats[0].products, lowerQuery));
    var pre: seq<Category> := if |head.products| > 0 then [head] else [];
    NarrowedStep(cats, lowerQuery);
    TailUniqueCategoryIds(cats);
    if i == 0 {
      PaneOfFirst(cats, lowerQuery);
    } else {
      assert tail[i - 1] == cats[i];
      PaneOfNarrowed(tail, lowerQuery, i - 1);
      ProductsOfSkip(pre, DropEmpty(Narrow(tail, lowerQuery)), cats[i].id);
    }
  }

  /** The pane of the first category: its matches, found first or not at all. */
  lemma PaneOfFirst(cats: seq<Category>, lowerQuery: string)
    requires UniqueCategoryIds(cats) && |cats| > 0
    ensures ProductsOf(DropEmpty(Narrow(cats, lowerQuery)), cats[0].id) == Matching(cats[0].products, lowerQuery)
  {
    var tail := cats[1..];
    var rest := DropEmpty(Narrow(tail, lowerQuery));
    var head := cats[0].(products := Matching(cats[0].products, lowerQuery));
    NarrowedStep(cats, lowerQuery);
    if |head.products| > 0 {
      assert ([head] + rest)[0] == head;
    } else {
      assert DropEmpty(Narrow(cats, lowerQuery)) == rest;
      RestLacksFirstId(cats, lowerQuery);
    }
  }

  /** No category filtered from the tail carries the first category's id. */
  lemma RestLacksFirstId(cats: seq<Category>, lowerQuery: string)
    requires UniqueCategoryIds(cats) && |cats| > 0
    ensures ProductsOf(DropEmpty(Narrow(cats[1..], lowerQuery)), cats[0].id) == []
  {
    RestIdsDiffer(cats, lowerQuery);
  }

  /** The categories filtered from the tail carry ids other than the first category's. */
  lemma RestIdsDiffer(cats: seq<Category>, lowerQuery: string)
    requires UniqueCategoryIds(cats) && |cats| > 0
    ensures var rest := DropEmpty(Narrow(cats[1..], lowerQuery));
      forall k :: 0 <= k < |rest| ==> rest[k].id != cats[0].id
  {
    var tail := cats[1..];
    var rest := DropEmpty(Narrow(tail, lowerQuery));
    NarrowedIdsFrom(tail, lowerQuery);
    forall k | 0 <= k < |rest|
      ensures rest[k].id != cats[0].id
    {
      assert rest[k] in rest;
      var m :| 0 <= m < |tail| && rest[k].id == tail[m].id;
      assert tail[m] == cats[m + 1];
    }
  }

  /** Categories of other ids before the rest do not change what is found. */
  lemma ProductsOfSkip(pre: seq<Category>, rest: seq<Category>, id: string)
    requires forall c :: c in pre ==> c.id != id
    ensures ProductsOf(pre + rest, id) == ProductsOf(rest, id)
    decreases |pre|
  {
    if |pre| > 0 {
      assert (pre + rest)[1..] == pre[1..] + rest;
      ProductsOfSkip(pre[1..], rest, id);
    } else {
      assert pre + rest == rest;
    }
  }

  /** The tail of a catalog with distinct ids has distinct ids. */
  lemma TailUniqueCategoryIds(cats: seq<Category>)
    requires |cats| > 0 && UniqueCategoryIds(cats)
    ensures UniqueCategoryIds(cats[1..])
  {
    var tail := cats[1..];
    forall a, b | 0 <= a < b < |tail|
      ensures tail[a].id != tail[b].id
    {
      assert tail[a] == cats[a + 1] && tail[b] == cats[b + 1];
    }
  }

  /** Filtering a non-empty catalog filters its first category, then the rest. */
  lemma NarrowedStep(cats: seq<Category>, lowerQuery: string)
    requires |cats| > 0
    ensures var head := cats[0].(products := Matching(cats[0].products, lowerQuery));
      DropEmpty(Narrow(cats, lowerQuery))
        == (if |head.products| > 0 then [head] else []) + DropEmpty(Narrow(cats[1..], lowerQuery))
  {
    var n := Narrow(cats, lowerQuery);
    assert n[1..] == Narrow(cats[1..], lowerQuery);
  }

  /** Every filtered category carries the id of a category it came from. */
  lemma NarrowedIdsFrom(cats: seq<Category>, lowerQuery: string)
    ensures forall c :: c in DropEmpty(Narrow(cats, lowerQuery)) ==>
      exists m :: 0 <= m < |cats| && c.id == cats[m].id
  {
    var n := Narrow(cats, lowerQuery);
    forall c | c in DropEmpty(n)
      ensures exists m :: 0 <= m < |cats| && c.id == cats[m].id
    {
      var m :| 0 <= m < |n| && n[m] == c;
      assert c.id == cats[m].id;
    }
  }

  /** On first render the pane shows the whole first category. */
  lemma InitialPane()
    ensures ActiveProducts(FilterCatalog(Catalog, ""), InitialActive) == Catalog[0].products
  {
    assert IsBlank("");
  }
}
