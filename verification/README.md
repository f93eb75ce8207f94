# Shopping list — a Dafny model of its list logic

The app is a React shopping list. Items are `Product` records: id, name,
category, optional price, quantity, checked flag and unit. They are kept in
browser storage and priced by a mock lookup. Items can come from three places:
- the search box on the list page;
- the catalog browser on the catalog page;
- the manual form on the index page.

The index page also defines a catalog add handler, `handleAddFromCatalog`
(`Index.tsx:18-41`). No control is wired to it: the page passes no handler to
`<ProductList />` and renders no catalog browser, so nothing calls it.

This project lifts the list operations out of the React handlers and states
them as pure Dafny functions over `seq<Product>`. It then proves what each one
does.

- **Text** covers the JavaScript string operations the app relies on:
  - `trim`, with the JavaScript whitespace set written out;
  - `toLowerCase`, for Latin and Cyrillic;
  - `includes`;
  - `length` in UTF-16 code units.
- **Types** holds `Product` and the `Omit<Product, 'quantity' | 'checked'>`
  record the add handlers receive (`Draft`). It also holds `Partial<Product>`
  (`Patch`) and the object spread `{ ...p, ...u }` (`Apply`).
- **Api** holds:
  - the mock catalog and its flattening (`getAllProducts`);
  - the catalog search;
  - the mock price lookup. `Math.random` is an oracle `draw: nat -> Random`,
    one draw per requested name.
- **ProductList** is the list page:
  - `MergeAdd`, the single reference definition of the merge-by-name add;
  - the page's own add handler, update, remove, clear-checked and clear-all;
  - the two price-merge rules: the background sync and the explicit refresh;
  - the category grouping and the total.
- **CatalogPage** is the catalog page's add handler. It loads the stored list,
  merge-adds and writes back. For a new name it later writes the looked-up
  price into the snapshot it wrote.
- **IndexPage** is the index page's state:
  - its own product list and the form-visibility flag;
  - the plain-append manual add;
  - the catalog add handler, modelled as written although nothing on the page
    reaches it.

  That list is separate from the list page's: the page renders
  `<ProductList />` with no props, so the list page never sees the manual
  additions.
- **AddProductForm** is the manual form's submit. It checks the name, parses
  the quantity (`parseFloat` is a parameter `string -> Option<real>`, with
  `None` for NaN), builds the product and resets the form.
- **ProductItem** is one row. It covers the quantity editor and its blur
  validation, the checkbox and the remove control. It also has `Dispatch`,
  which routes a row's events into the list operations.
- **ProductCatalog** is the catalog browser: the filtered catalog, the active
  category and its product pane.
- **SearchBar** is the list page's search box. It models:
  - the two-code-unit gate;
  - the drop-down open and close rules;
  - the reset after a pick;
  - which panel is visible.

  It is stated over any catalog `cats`; the page passes the mock catalog.

The merge-by-name add handlers are modelled as written. Each is proved equal
to `MergeAdd` whenever the list's ids are distinct, which the uuid generator
provides:
- the list page's search add updates by id with `existing.quantity + 1`;
- the catalog page maps by id with `p.quantity + 1`;
- the index page's unreachable catalog handler maps by id the same way.

The list page loads the stored list once on mount (`ProductList.tsx:19-28`).
That load behaves like `CatalogPage.Load`: an absent or unparseable value
gives the empty list.

Behaviour of the code worth noting:
- A new item is built with `{ ...product, ... }`, so it keeps the draft's
  price field. Catalog entries have no price, so every item the app adds from
  the catalog starts unpriced.
- The search box counts `query.length`, which is UTF-16 code units, not
  characters. One emoji passes the gate; one Cyrillic letter does not
  (`SearchBar.EmojiIsLongEnough`).
- The catalog page's price write-back does not merge by name into the current
  list. It writes a copy of the add-time snapshot, matched by id (see
  Findings).
- The price lookup catches its own errors and answers `{}`. So a failed
  lookup reaches the explicit refresh as an empty answer, and the refresh
  then clears every price (`ProductList.RefreshWithNoAnswer`).

## Model

| member | source | states |
|---|---|---|
| Text.TrimStart | src/utils/api.ts:129 | the result is a suffix of the input; everything cut is JavaScript whitespace, and the result does not start with whitespace |
| Text.TrimEnd | src/utils/api.ts:129 | the result is a prefix of the input; everything cut is whitespace, and the result does not end with whitespace |
| Text.Trim | src/utils/api.ts:129 | `trim()` gives a slice of the input that neither starts nor ends with whitespace, and everything cut on either side is whitespace |
| Text.CutOfCuts | src/utils/api.ts:129 | cutting whitespace off the front and then off the back of what is left cuts only whitespace off both ends of the original |
| Text.IsBlank | src/utils/api.ts:129 | `!query.trim()` holds exactly when every character of the query is whitespace |
| Text.LowerChar | src/utils/api.ts:131 | `toLowerCase` on one character: A–Z move up by 32, А–Я by 0x20, Ѐ–Џ by 0x50 |
| Text.Lower | src/utils/api.ts:131 | lowercasing keeps the length and maps each character on its own |
| Text.LowerIdempotent | src/utils/api.ts:135 | lowercasing a lowercased name changes nothing |
| Text.Includes | src/utils/api.ts:135 | `includes` finds the empty needle and the hay itself in any string, and never a needle longer than the hay |
| Text.Utf16Length | src/components/SearchBar.tsx:20 | `query.length` lies between the number of code points and twice that |
| Text.Utf16LengthBmp | src/components/SearchBar.tsx:20 | `query.length` equals the code-point count exactly when no character lies outside the Basic Multilingual Plane |
| Types.Names | src/components/ProductList.tsx:42 | `products.map(p => p.name)` has one name per item, in order |
| Api.Flatten | src/utils/api.ts:145-155 | an entry is in the flattened catalog exactly when some category lists it |
| Api.AllProducts | src/utils/api.ts:145-155 | `getAllProducts()` holds exactly the products some catalog category lists |
| Api.FlattenAppend | src/utils/api.ts:148-152 | flattening lays the categories' product lists end to end in category order: flattening two joined catalogs joins their flattenings |
| Api.FlattenSingle | src/utils/api.ts:148-152 | a single category flattens to exactly its own product list |
| Api.FlattenUniqueIds | src/utils/api.ts:5-63 | ids unique within each category and disjoint across categories make the flattened ids unique |
| Api.CatalogWellFormed | src/utils/api.ts:5-63 | every catalog product's category is its category's name; category ids are distinct; product ids are unique across the catalog; every product is unpriced and present in the price table |
| Api.CatalogLabels | src/utils/api.ts:5-63 | every catalog product's `category` equals the enclosing category's `name` |
| Api.CatalogCategoryIds | src/utils/api.ts:5-63 | the catalog's category ids are distinct |
| Api.CatalogEntryIds | src/utils/api.ts:5-63 | product ids are unique across the whole catalog |
| Api.CatalogPriced | src/utils/api.ts:5-105 | catalog products carry no price, and every catalog name has an entry in the mock price table |
| Api.CategoryIdsUniqueEarly | src/utils/api.ts:6-29 | the first two categories list distinct product ids |
| Api.CategoryIdsUniqueLate | src/utils/api.ts:30-62 | every later category lists distinct product ids |
| Api.CategoryIdsApartFirst | src/utils/api.ts:6-62 | no product id of the first category occurs in another category |
| Api.CategoryIdsApartSecond | src/utils/api.ts:19-62 | no product id of the second category occurs in a later category |
| Api.CategoryIdsApartLate | src/utils/api.ts:30-62 | no two later categories share a product id |
| Api.PriceTablePositive | src/utils/api.ts:77-105 | every table price is between 35 and 650, so a table hit is always truthy |
| Api.RandomPrice | src/utils/api.ts:114 | `Math.floor(Math.random() * 470) + 30` is an integer in [30, 499] |
| Api.RandomPriceCovers | src/utils/api.ts:114 | every integer in [30, 499] is reachable from some random draw |
| Api.FetchFrom | src/utils/api.ts:108-116 | the answer has a key for every requested name and no other; a name with a truthy table price gets that price, any other a random price in [30, 499] |
| Api.FetchPrices | src/utils/api.ts:66-123 | `fetchProductPrices` answers exactly the requested names; a name of the mock table gets its table price, any other a price in [30, 499] |
| Api.FetchFromLast | src/utils/api.ts:109-115 | for a repeated unlisted name, the draw of its last occurrence wins |
| Api.FetchPricesSpec | src/utils/api.ts:66-123 | `fetchProductPrices` answers exactly the requested names; table names get the table price; others get the random price of their last occurrence, in [30, 499] |
| Api.FetchPricesTruthy | src/utils/api.ts:108-116 | every requested name is answered with a positive price |
| Api.Matching | src/utils/api.ts:134-138 | the filter keeps exactly the entries whose lowercased name contains the lowercased query, as a subsequence in their original order |
| Api.MatchingCounts | src/utils/api.ts:134-138 | the filter keeps each matching entry as often as it occurs and drops every other one |
| Api.MatchingAppend | src/utils/api.ts:133-139 | filtering distributes over concatenation, so filtering category by category equals filtering the flattened list |
| Api.SearchCategories | src/utils/api.ts:133-139 | the nested loops collect exactly the catalog entries whose lowercased name contains the lowercased query |
| Api.SearchIn | src/utils/api.ts:126-142 | a blank query finds nothing; any other finds exactly the entries whose lowercased name contains the lowercased, untrimmed query |
| Api.SearchProducts | src/utils/api.ts:126-142 | `searchProducts` finds nothing for a blank query, and otherwise is the filter of `getAllProducts()` by the lowercased query, in catalog order |
| Api.SearchIsFilterOfAll | src/utils/api.ts:126-142 | a blank query gives nothing; any other query gives exactly the catalog entries whose lowercased name contains the untrimmed lowercased query, in catalog order (a filter of `getAllProducts`) |
| ProductList.FindByName | src/components/ProductList.tsx:63 | `find` by exact name: the index of the first item with that name, or none exactly when no item has it |
| ProductList.MergeAdd | src/components/ProductList.tsx:61-84 | an existing name keeps the length and bumps only its first item's quantity by 1; a fresh name appends one item with the fresh id, the draft's fields, quantity 1 and unchecked |
| ProductList.MergeAddAddsOneUnit | src/components/ProductList.tsx:67-84 | every add raises the total quantity by exactly 1 |
| ProductList.MergeAddKeepsNamesUnique | src/components/ProductList.tsx:61-84 | merge-add never lists a name twice, and the added name is listed afterwards |
| ProductList.MergeAddKeepsIdsUnique | src/components/ProductList.tsx:77-84 | with a fresh id, ids stay distinct |
| ProductList.MergeAddKeepsQuantitiesPositive | src/components/ProductList.tsx:67-84 | positive quantities stay positive |
| ProductList.QuantitySumUpdate | src/components/ProductList.tsx:93-99 | replacing one item changes the total quantity by exactly the difference |
| ProductList.QuantitySumAppend | src/components/ProductList.tsx:84 | the total quantity adds up over concatenation |
| ProductList.BumpById | src/pages/CatalogPage.tsx:34-38 | the map by id bumps exactly the items with that id and leaves the rest as they were |
| ProductList.BumpOneId | src/pages/Index.tsx:24-30 | with distinct ids, bumping by an item's id bumps that one item only |
| ProductList.BumpFoundIsMergeAdd | src/pages/Index.tsx:20-30 | bumping the id of the item `find` returned is the merge-add of an existing name |
| ProductList.UpdateById | src/components/ProductList.tsx:93-99 | update keeps the length; an item with the id gets the patch spread over it; every other item is unchanged |
| ProductList.UpdateUnknownId | src/components/ProductList.tsx:93-99 | an unknown id gives back the same list |
| ProductList.UpdateIdempotent | src/components/ProductList.tsx:93-99 | applying the same update twice is applying it once |
| ProductList.UpdateKeepsIdsUnique | src/components/ProductList.tsx:93-99 | a patch that does not touch ids keeps ids distinct |
| ProductList.UpdateOneId | src/components/ProductList.tsx:93-99 | with distinct ids, updating an item's id changes exactly that position |
| ProductList.UpdateQuantityIsBump | src/components/ProductList.tsx:67-69 | updating the found item with `quantity + 1` is bumping it |
| ProductList.AddFromSearch | src/components/ProductList.tsx:61-91 | the list page's add appends a new item for a new name; for a listed name it keeps the length and leaves every item whose id differs from the found one as it was |
| ProductList.AddFromSearchIsMergeAdd | src/components/ProductList.tsx:61-91 | the list page's add handler, as written, equals the merge-add whenever ids are distinct |
| ProductList.RemoveById | src/components/ProductList.tsx:101-102 | after removal no item has the id, and the rest keep their order |
| ProductList.RemoveByIdCounts | src/components/ProductList.tsx:102 | removal drops every copy of the items with the id and keeps every other item as often as before |
| ProductList.RemoveUnknownId | src/components/ProductList.tsx:102 | removing an unknown id changes nothing |
| ProductList.RemoveOneId | src/components/ProductList.tsx:101-102 | with distinct ids, removing an item's id cuts out exactly that position |
| ProductList.RemoveAppend | src/components/ProductList.tsx:102 | removal distributes over concatenation |
| ProductList.RemoveIdempotent | src/components/ProductList.tsx:101-102 | removing twice is removing once |
| ProductList.RemoveKeepsIdsUnique | src/components/ProductList.tsx:101-102 | removal keeps ids distinct |
| ProductList.RemoveNoLonger | src/components/ProductList.tsx:102 | removal never lengthens the list |
| ProductList.ClearChecked | src/components/ProductList.tsx:110-111 | afterwards nothing is checked; every unchecked item is kept as often as before and in order; every checked one is gone |
| ProductList.ClearCheckedNothingChecked | src/components/ProductList.tsx:111 | a list with nothing checked is left as it is |
| ProductList.ClearCheckedIdempotent | src/components/ProductList.tsx:110-111 | clearing twice is clearing once |
| ProductList.ClearCheckedNoLonger | src/components/ProductList.tsx:111 | clearing never lengthens the list |
| ProductList.ClearAllEmptiesPage | src/components/ProductList.tsx:160-168 | a confirmed clear leaves no group, a total of 0 and nothing for the sync to price, and triggers the sync exactly when the list was non-empty; a declined one changes nothing and triggers nothing |
| ProductList.SyncPrices | src/components/ProductList.tsx:45-49 | the sync changes only prices and keeps order; a truthy fetched price replaces the item's price, and otherwise the old price stays |
| ProductList.RefreshPrices | src/components/ProductList.tsx:127-131 | the refresh changes only prices and keeps order; every price becomes exactly the fetched value, absent if the name was not answered |
| ProductList.AutoSync | src/components/ProductList.tsx:36-59 | the background sync keeps the length and changes nothing but prices |
| ProductList.Refresh | src/components/ProductList.tsx:119-148 | the explicit refresh keeps the length and changes nothing but prices |
| ProductList.SyncIdempotent | src/components/ProductList.tsx:45-49 | syncing twice with the same answer is syncing once |
| ProductList.SyncAfterRefresh | src/components/ProductList.tsx:45-49 | a sync after a refresh with the same answer changes nothing |
| ProductList.SyncAgreesWithRefresh | src/components/ProductList.tsx:45-49 | when every fetched price is truthy, the two merge rules give the same list |
| ProductList.RefreshWithNoAnswer | src/components/ProductList.tsx:127-131 | a refresh answered with `{}` leaves no item with a price |
| ProductList.MergesPriceEverything | src/components/ProductList.tsx:36-59 | a sync over the list's own names prices every item truthily and equals the explicit refresh |
| ProductList.RemoveShrinks | src/components/ProductList.tsx:102 | removing a listed id shortens the list |
| ProductList.ClearCheckedShrinks | src/components/ProductList.tsx:111 | clearing a list with a checked item shortens it |
| ProductList.SyncTriggers | src/components/ProductList.tsx:36-59 | the sync, keyed on `products.length`, runs after adding a new name, after removing a listed id and after clearing with something checked; it never runs after a bump of a listed name or any other update |
| ProductList.ItemsIn | src/components/ProductList.tsx:151-158 | a group's items are exactly the list's items with that key, in list order |
| ProductList.ItemsInCounts | src/components/ProductList.tsx:151-158 | a group holds each item of its key as often as the list does, and no item of another key |
| ProductList.AddToGroupsShape | src/components/ProductList.tsx:153-156 | one reduce step keeps existing headings in place and opens a new one at the end only for a new key |
| ProductList.AddToGroupsKeys | src/components/ProductList.tsx:153-156 | one reduce step keeps keys distinct and adds exactly the item's key |
| ProductList.AddToGroupsItems | src/components/ProductList.tsx:156 | one reduce step pushes the item onto its own group and leaves every other group alone |
| ProductList.GroupByCategory | src/components/ProductList.tsx:151-158 | the groups partition the list: distinct keys, no empty group, each key's group is exactly the items with that key (category or 'Другое') in list order; a heading exists exactly for the keys of listed items |
| ProductList.ItemInExactlyOneGroup | src/components/ProductList.tsx:151-158 | every item is in the group of its own key and in no group of another key |
| ProductList.GroupOfFound | src/components/ProductList.tsx:213-217 | with distinct keys, looking a heading's key up finds that heading's items |
| ProductList.Total | src/components/ProductList.tsx:235-240 | a list with no truthy price totals 0 |
| ProductList.TotalAppend | src/components/ProductList.tsx:235-240 | the total adds up over concatenation |
| ProductList.TotalIsPricedSum | src/components/ProductList.tsx:235-240 | the total equals the sum of price × quantity over the items whose price is truthy |
| ProductList.UnpricedContributesNothing | src/components/ProductList.tsx:236-239 | inserting an item without a truthy price does not change the total |
| ProductList.TotalNonNegative | src/components/ProductList.tsx:235-240 | with positive quantities and non-negative prices the total is not negative |
| CatalogPage.Load | src/pages/CatalogPage.tsx:18-27 | an absent or unparseable stored list counts as empty; otherwise it is used as stored |
| CatalogPage.AddToStorage | src/pages/CatalogPage.tsx:16-56 | a lookup is pending exactly for a name not yet stored; a new name writes the loaded list plus the new item; a stored name keeps the length and leaves every item whose id differs from the found one as it was |
| CatalogPage.AddToStorageIsMergeAdd | src/pages/CatalogPage.tsx:16-56 | the written list is the merge-add of the loaded list; a price lookup is pending exactly for a new name, for the new item's id |
| CatalogPage.WriteBack | src/pages/CatalogPage.tsx:64-73 | a write happens exactly when the fetched price is truthy; it has the snapshot's length, prices the new id's item and leaves every other snapshot item as it was |
| CatalogPage.SetPriceById | src/pages/CatalogPage.tsx:66-70 | only the items with the id change, and only in their price |
| CatalogPage.AddAndWriteBackSpec | src/pages/CatalogPage.tsx:16-75 | with nothing in between, an existing name gives the merge-add, and a new name gives the old list plus the new item carrying its looked-up, truthy price |
| CatalogPage.WriteBackCurrent | src/pages/CatalogPage.tsx:64-73 | the intended write-back onto the current list: written exactly when the price is truthy; the length is kept, only prices change, the new id's item gets the fetched price and every other item is as it was |
| CatalogPage.WriteBackLosesInterleavedAdd | src/pages/CatalogPage.tsx:55-71 | adding apples and then milk before the apples' price arrives: storage holds two litres of milk, the as-written write-back stores one, the corrected one keeps two |
| IndexPage.ToggleFormTwice | src/pages/Index.tsx:52-63 | pressing the toggle twice restores the page, and a toggle before a manual add makes no difference to its result |
| IndexPage.AddManual | src/pages/Index.tsx:13-16 | manual add appends the product unchanged at the end and hides the form |
| IndexPage.AddFromCatalog | src/pages/Index.tsx:18-41 | the unreachable catalog handler leaves the form flag alone, appends a new item for a new name, and for a listed name keeps the length and every item whose id differs from the found one |
| IndexPage.AddFromCatalogIsMergeAdd | src/pages/Index.tsx:18-41 | the unreachable catalog handler equals the merge-add whenever ids are distinct, and leaves the form flag alone |
| IndexPage.SubmitThenAdd | src/pages/Index.tsx:13-16 | an accepted form submission is appended even when its name is already listed, which then lists that name twice |
| AddProductForm.Submit | src/components/AddProductForm.tsx:21-61 | a blank name rejects (checked first); otherwise NaN or a non-positive quantity rejects; a rejection leaves the form as it was; success builds the product with the fresh id, the trimmed non-empty name, the form's category and unit, the parsed positive quantity, no price and unchecked, and resets name to '' and quantity to '1' |
| AddProductForm.SubmitResetsToInitial | src/components/AddProductForm.tsx:58-60 | after a success the name and quantity are back at their initial values, category and unit are kept, and an immediate resubmit is rejected for the missing name |
| ProductItem.EditCycle | src/components/ProductItem.tsx:16-32 | opening the editor and typing leaves the row editing with the typed text; the blur then sends an update exactly when the text parses to a positive number, carrying that quantity for this id, and otherwise reverts to the initial text |
| ProductItem.UntouchedEditKeepsList | src/components/ProductItem.tsx:23-32 | opening and leaving the editor without typing, when the quantity reads back as itself, sends an update that leaves the list unchanged |
| ProductItem.QuantityBlur | src/components/ProductItem.tsx:23-32 | an update is issued exactly when the text parses to a positive number; it carries only that quantity for this item's id; otherwise the text reverts to the item's quantity |
| ProductItem.CheckboxChange | src/components/ProductItem.tsx:34-36 | the checkbox issues an update for this item's id that changes only `checked` |
| ProductItem.RemoveClick | src/components/ProductItem.tsx:87 | the remove control asks to remove exactly this item's id |
| ProductItem.Dispatch | src/components/ProductList.tsx:218-223 | routing an event for an unknown id changes nothing; an update keeps the length and every other item; a removal leaves no item with the id and never lengthens the list |
| ProductItem.BlurChangesOnlyQuantity | src/components/ProductList.tsx:218-222 | an accepted edit, routed into the list, changes only this item's quantity, to a positive value, and keeps positive quantities and distinct ids |
| ProductItem.RejectedBlurRevertsText | src/components/ProductItem.tsx:28-31 | an unparseable or non-positive edit issues nothing and reverts the text |
| ProductItem.CheckboxChangesOnlyChecked | src/components/ProductList.tsx:218-222 | a checkbox change, routed into the list, changes only this item's checked flag |
| ProductItem.RemoveClickRemovesRow | src/components/ProductList.tsx:218-223 | with distinct ids, the remove control cuts out exactly its own row |
| ProductCatalog.Narrow | src/components/ProductCatalog.tsx:29-33 | each category keeps its identity and only its products matching the query, in order |
| ProductCatalog.DropEmpty | src/components/ProductCatalog.tsx:34 | exactly the categories with products survive, in their order |
| ProductCatalog.DropEmptyCounts | src/components/ProductCatalog.tsx:34 | every category with products survives as often as it occurs, and every empty one is dropped |
| ProductCatalog.ProductsOf | src/components/ProductCatalog.tsx:38 | `find` by id gives the first matching category's products, and nothing when no category has the id |
| ProductCatalog.FilterCatalog | src/components/ProductCatalog.tsx:28-35 | a blank query keeps the catalog; otherwise exactly the narrowed categories with products remain, as a subsequence in catalog order |
| ProductCatalog.ActiveProducts | src/components/ProductCatalog.tsx:37-39 | no active category shows nothing; a non-empty pane is the product list of a shown category whose id is the active one |
| ProductCatalog.SelectShowsCategory | src/components/ProductCatalog.tsx:37-39 | with distinct category ids, clicking a shown category makes the pane show exactly that category's products |
| ProductCatalog.FilterCatalogSpec | src/components/ProductCatalog.tsx:28-35 | a blank query keeps the catalog; otherwise a category survives exactly when it is a narrowed category with products, the order is kept, and flattening the result gives the search's answer |
| ProductCatalog.FilteredMembers | src/components/ProductCatalog.tsx:28-35 | a category is shown for a query exactly when it is some catalog category narrowed to its matching products and has some left |
| ProductCatalog.FilteredFlatten | src/components/ProductCatalog.tsx:28-34 | flattening the narrowed, non-empty categories equals searching category by category |
| ProductCatalog.ActiveProductsMatches | src/components/ProductCatalog.tsx:37-39 | the pane of a category shows its whole product list for a blank query and exactly its matching products otherwise |
| ProductCatalog.PaneOfNarrowed | src/components/ProductCatalog.tsx:28-39 | with distinct category ids, looking a category up in the filtered catalog gives its matching products, or nothing when it was dropped |
| ProductCatalog.InitialPane | src/components/ProductCatalog.tsx:15 | on first render the pane shows the first category's products |
| SearchBar.SetQuery | src/components/SearchBar.tsx:18-28 | a query of two or more code units runs the search and opens the drop-down; a shorter one clears the results and closes it |
| SearchBar.Focus | src/components/SearchBar.tsx:57 | focus opens the drop-down exactly when it was open or the query is long enough, and changes nothing else |
| SearchBar.MouseDown | src/components/SearchBar.tsx:30-40 | a press outside the box closes the drop-down; one inside leaves it |
| SearchBar.Select | src/components/SearchBar.tsx:42-46 | picking forwards the entry unchanged and returns the box to its initial state: empty query, closed |
| SearchBar.HandlersKeepConsistent | src/components/SearchBar.tsx:13-46 | every handler keeps the results equal to the search for a long-enough query, and never open for a short one |
| SearchBar.PanelsMeaning | src/components/SearchBar.tsx:61-78 | the result list shows only matching entries; "nothing found" shows exactly when the box is open, the query long enough and the search empty; the two panels never show together |
| SearchBar.SearchMeaning | src/utils/api.ts:126-142 | every result's lowercased name contains the lowercased query; the search is empty exactly when the query is blank or no entry matches |
| SearchBar.EmojiIsLongEnough | src/components/SearchBar.tsx:20 | one astral character passes the two-unit gate and one Cyrillic letter does not |
| SearchBar.TwoSpacesShowNothingFound | src/components/SearchBar.tsx:20-27 | two spaces pass the gate but trim to nothing, so the box shows "nothing found" |

## Left out

- Browser storage and JSON are not modelled. The stored list is an
  `Option<seq<Product>>` input, and what is written is an output value.
  - The list page's save effect (`ProductList.tsx:31-33`) writes the whole list
    after every change, so it adds nothing to the list logic.
- `confirm()` in clear-all is a boolean parameter.
- Asynchronous scheduling is not modelled: effect timing, the 800 ms delay,
  and overlapping lookups racing each other. Each handler is one atomic step.
  - A pending catalog-page lookup is carried as the new item's id.
  - Its resolution is a separate step (`CatalogPage.WriteBack`).
- The lookup's catch path (`api.ts:119-122`) is not modelled, because the mock
  body cannot throw. Its `{}` answer is covered by
  `ProductList.RefreshWithNoAnswer`.
- The list page's handlers read `products` from the render that created them.
  Within one atomic step that is the current list.
- `uuidv4` is a `freshId` parameter. The properties that need it to be new
  require it to be absent from the list.
- Numbers are not modelled as IEEE doubles:
  - prices and quantities are exact reals;
  - NaN exists only as `parseFloat`'s `None`;
  - `toFixed(2)` and the number-to-text conversion of the quantity are left
    out, the latter as a parameter `real -> string`.
- Text.LowerChar: case mapping covers only Latin A–Z and Cyrillic U+0400–U+042F.
  Every other character maps to itself. JavaScript's full Unicode mapping is
  larger; all the catalog's names are Cyrillic.
- Special JavaScript object keys are not modelled. Prototype keys such as
  `constructor`, which `mockPrices[name]` would find for an unlisted name, are
  left out. So are integer-like keys, which `Object.entries` orders first when
  it lists the groups. Groups are kept in first-appearance order, as the
  reduce inserts them.
- The UI is not modelled: toasts, rendering, CSS, button disabled states, the
  price line under an item's name, the Header component and routing.
  - Effect of the disabled states: the "remove bought" button is disabled when
    nothing is checked, where `ClearChecked` would change nothing anyway.
  - The refresh button is disabled while a lookup runs or the list is empty.
- The editor never closes once opened, as written. `ProductItem.QuantityBlur`
  leaves `editing` as it was.
- ProductCatalog's `handleAddProduct` (`ProductCatalog.tsx:19-25`) only
  forwards the draft unchanged and shows a toast. The model passes the draft
  straight to the page handlers.
- SearchBar.SetQuery: stated over any catalog `cats`, of which the page's mock
  catalog is one instance. Stating it over the literal catalog alone would add
  nothing.

## Findings

| source | as written | input that shows it | evidently intended | confidence | as-written member | corrected member |
|---|---|---|---|---|---|---|
| src/pages/CatalogPage.tsx:64-71 | when the new item's price arrives, the page writes back a copy of `updatedProducts`, the list as it was at add time, with the price set on the new item | stored list holds one litre of milk; add apples from the catalog (new, lookup pending); add milk (storage now holds two litres); the apples' price arrives and the write-back stores one litre again | set the price on the list as it is stored when the price arrives, leaving later changes in place | not executed | CatalogPage.WriteBackLosesInterleavedAdd | CatalogPage.WriteBackCurrent |
