/**
 * The list page's search box: from two UTF-16 code units on, the query runs
 * the catalog search and opens a drop-down; picking a result forwards it and
 * clears the box. The catalog searched is a parameter `cats`; the page
 * searches `Api.Catalog`, through `Api.SearchProducts`.
 */
module SearchBar {
  import opened Wrappers
  import opened Types
  import opened Text
  import Api

  datatype SearchState = SearchState(query: string, results: seq<Draft>, isOpen: bool)

  const Initial: SearchState := SearchState("", [], false)

  /** The length the box compares against 2: `query.length`. */
  predicate LongEnough(query: string) {
    Utf16Length(query) >= 2
  }

  /**
   * What the results are meant to be: the catalog search's answer for a
   * query long enough, nothing otherwise; and the drop-down only ever opens
   * for a query long enough.
   */
  predicate Consistent(cats: seq<Api.Category>, s: SearchState) {
    && s.results == (if LongEnough(s.query) then Api.SearchIn(cats, s.query) else [])
    && (s.isOpen ==> LongEnough(s.query))
  }

  /** Typing: the query changes, then the effect on `[query]` runs. */
  function SetQuery(cats: seq<Api.Category>, s: SearchState, query: string): (r: SearchState)
    ensures r.query == query
    ensures LongEnough(query) ==> r.isOpen && r.results == Api.SearchIn(cats, query)
    ensures !LongEnough(query) ==> !r.isOpen && r.results == []
  {
    if LongEnough(query) then SearchState(query, Api.SearchIn(cats, query), true)
    else SearchState(query, [], false)
  }

  /** Focusing the box reopens the drop-down for a query long enough. */
  function Focus(s: SearchState): (r: SearchState)
    ensures r.query == s.query && r.results == s.results
    ensures r.isOpen <==> s.isOpen || LongEnough(s.query)
  {
    if LongEnough(s.query) then s.(isOpen := true) else s
  }

  /** A mouse press: outside the box it closes the drop-down. */
  function MouseDown(s: SearchState, inside: bool): (r: SearchState)
    ensures r.query == s.query && r.results == s.results
    ensures r.isOpen <==> s.isOpen && inside
  {
    if inside then s else s.(isOpen := false)
  }

  /** Picking a result: the entry forwarded to the list, and the box after. */
  datatype Pick = Pick(forwarded: Draft, after: SearchState)

  /**
   * `handleAddProduct`: the entry goes to the list unchanged, then the query
   * is cleared (which runs the effect) and the drop-down closes.
   */
  function Select(cats: seq<Api.Category>, s: SearchState, d: Draft): (r: Pick)
    ensures r.forwarded == d
    ensures r.after == Initial
  {
    Pick(d, SetQuery(cats, s.(isOpen := false), ""))
  }

  /** The results panel. */
  predicate ShowsResults(s: SearchState) {
    s.isOpen && |s.results| > 0
  }

  /** The "nothing found" panel. */
  predicate ShowsNothingFound(s: SearchState) {
    s.isOpen && LongEnough(s.query) && |s.results| == 0
  }

  /** Every handler keeps the box consistent, starting from the first render. */
  lemma HandlersKeepConsistent(cats: seq<Api.Category>, s: SearchState, query: string, inside: bool, d: Draft)
    ensures Consistent(cats, Initial)
    ensures Consistent(cats, SetQuery(cats, s, query))
    ensures Consistent(cats, s) ==> Consistent(cats, Focus(s))
    ensures Consistent(cats, s) ==> Consistent(cats, MouseDown(s, inside))
    ensures Consistent(cats, Select(cats, s, d).after)
  {
  }

  /**
   * On a consistent box, the results panel lists only catalog entries whose
   * lower-cased name contains the lower-cased query, and the "nothing found"
   * panel appears exactly when the open drop-down has no such entry; the two
   * never show together.
   */
  lemma PanelsMeaning(cats: seq<Api.Category>, s: SearchState)
    requires Consistent(cats, s)
    ensures ShowsResults(s) ==> forall d :: d in s.results ==>
      d in Api.Flatten(cats) && Includes(Lower(d.name), Lower(s.query))
    ensures ShowsNothingFound(s) <==>
      s.isOpen && (IsBlank(s.query)
        || forall d :: d in Api.Flatten(cats) ==> !Includes(Lower(d.name), Lower(s.query)))
    ensures !(ShowsResults(s) && ShowsNothingFound(s))
  {
    if s.isOpen {
      SearchMeaning(cats, s.query);
    }
  }

  /** What a search over any catalog finds, and when it finds nothing. */
  lemma SearchMeaning(cats: seq<Api.Category>, query: string)
    ensures forall d :: d in Api.SearchIn(cats, query) ==>
      d in Api.Flatten(cats) && Includes(Lower(d.name), Lower(query))
    ensures |Api.SearchIn(cats, query)| == 0 <==>
      IsBlank(query) || forall d :: d in Api.Flatten(cats) ==> !Includes(Lower(d.name), Lower(query))
  {
    Api.SearchIsFilterOfAll(cats, query);
    var r := Api.SearchIn(cats, query);
    if |r| > 0 {
      assert r[0] in r;
    }
  }

  /**
   * One character above the Basic Multilingual Plane, such as an emoji, is
   * two UTF-16 code units and so long enough to run the search; one Cyrillic
   * letter is not.
   */
  lemma EmojiIsLongEnough()
    ensures LongEnough("\U{1F34E}")
    ensures !LongEnough("я")
  {
  }

  /**
   * Two spaces are long enough to open the drop-down but blank for the
   * search, so the box shows "nothing found".
   */
  lemma TwoSpacesShowNothingFound(cats: seq<Api.Category>)
    ensures ShowsNothingFound(SetQuery(cats, Initial, "  "))
  {
    assert Utf16Units(' ') == 1;
    assert IsBlank("  ") by {
      assert TrimStart("  ") == TrimStart(" ") == "";
    }
  }
}
