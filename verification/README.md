# Inventory manager product service, in Dafny

This project models `ProductService`, the core of the inventory-manager back end, and proves properties of the model. The service holds the product list in memory and offers these operations:

- `getProducts` filters the list by name, category and stock status. It sorts the matches with the comparator `sortBy`/`sortOrder` selects, and cuts out one page of them. It then reports per-category and overall stock and value totals. The totals always cover the whole list.
- `addProduct`, `deleteProductById`, `updateProduct`, `markProductOutOfStock` and `restoreProductStock` change the list.

The list is a value (`Products.Store`, a `seq<Product>`). Every mutation is a function that returns the new list together with the `boolean` (or the stored `Product`) that the Java method returns. "Today" (`LocalDate.now()`) is a parameter.

Modules, in pipeline order:

- `JavaInt`: 32-bit `int` range and wrap-around.
- `Text`: ASCII lower-casing, `contains`, `equalsIgnoreCase` and the sign of `compareTo`.
- `Products`: the record and the preloaded list.
- `Filtering`, `Sorting`, `Paging` and `Aggregation`: the four stages of `getProducts`.
- `Service`: the operations themselves.
- `ServiceProperties`: properties that relate several operations.

Edge cases of the code that the model keeps:

- **Descending sort by expiration.** In descending order the whole `nullsLast` comparator is reversed, so undated products come first (`Sorting.ExpirationDescendingNullsFirst`).
- **Page size 0.** It never throws: the page is empty, and the page count is `Integer.MAX_VALUE`, or 0 when nothing matched.
- **Negative page.** When `page * size` is negative after wrapping, `subList` throws `IndexOutOfBoundsException`, even when nothing matched. The model returns `Err(IndexOutOfBounds)` for it. A negative page whose `page * size` wraps can still return items (`Paging.PaginateNegativePageWraps`).
- **End before start.** When 0 ≤ `fromIndex` < the match count, a negative size or an overflowing `fromIndex + size` can put `toIndex` below `fromIndex`. `subList` then throws `IllegalArgumentException`, which the model returns as `Err(IllegalArgument)`. A negative `fromIndex` throws `IndexOutOfBoundsException` first, and a `fromIndex` at or past the end gives an empty page.
- **Overflow in `page * size` and `fromIndex + size`.** Both wrap around. A page far past the end can therefore return items (`Paging.PaginateOverflowWraps`).
- **Clamping.** Only the two grand totals are clamped at zero. The per-category maps are returned as accumulated, and their stock sums wrap like Java `int`s.
- **New ids.** `addProduct` sets the id to the list's size plus one. After a delete, that id can already be in use (`ServiceProperties.AddAfterDeleteReusesId`).

## Model

| member | source | states |
|---|---|---|
| Products.Preloaded | src/main/java/com/encora/esteban/inventory/manager/be/service/ProductService.java:14-27 | the constructor loads eleven products with ids 1 to 11 in order, created and updated today |
| Text.Lower | src/main/java/com/encora/esteban/inventory/manager/be/service/ProductService.java:32 | lower-casing keeps the length and lowers each character on its own |
| Text.Contains | src/main/java/com/encora/esteban/inventory/manager/be/service/ProductService.java:32 | `contains` holds exactly when the needle occurs as a contiguous block at some index |
| Text.CompareZeroIffEqual | src/main/java/com/encora/esteban/inventory/manager/be/service/ProductService.java:38-41 | string comparison reports equal exactly for equal strings |
| Text.CompareAntisymmetric | src/main/java/com/encora/esteban/inventory/manager/be/service/ProductService.java:38-41 | swapping the operands of string comparison negates the result |
| Text.CompareTransitive | src/main/java/com/encora/esteban/inventory/manager/be/service/ProductService.java:38-41 | string comparison is transitive, so the name and category comparators are total preorders |
| Filtering.Filter | src/main/java/com/encora/esteban/inventory/manager/be/service/ProductService.java:31-35 | a product is kept exactly when it is in the list and passes all three filters, and kept products stay in list order |
| Filtering.MatchesMeaning | src/main/java/com/encora/esteban/inventory/manager/be/service/ProductService.java:32-34 | a product passes when its lowered name holds the lowered query as a block, its lowered category equals the lowered query, and its stock is positive for `inStock` true and zero for false; a null argument passes everything |
| Filtering.FilterMultiplicity | src/main/java/com/encora/esteban/inventory/manager/be/service/ProductService.java:31-35 | each matching product keeps its number of copies, and each non-matching one has none |
| Filtering.FilterConcat | src/main/java/com/encora/esteban/inventory/manager/be/service/ProductService.java:31-35 | filtering a concatenation is concatenating the filtered parts |
| Filtering.FilterNoCriteria | src/main/java/com/encora/esteban/inventory/manager/be/service/ProductService.java:31-35 | with every filter argument null, the whole list comes through unchanged |
| Sorting.ParseSortKey | src/main/java/com/encora/esteban/inventory/manager/be/service/ProductService.java:38-48 | each of the four words selects its key, and every other `sortBy` value sorts by name |
| Sorting.ParseDirection | src/main/java/com/encora/esteban/inventory/manager/be/service/ProductService.java:50-52 | the comparator is reversed exactly when `sortOrder` is `desc` |
| Sorting.TiesIffSameKey | src/main/java/com/encora/esteban/inventory/manager/be/service/ProductService.java:38-48 | each comparator reports a tie exactly when the two products agree on its field; absent expiration dates tie only with each other |
| Sorting.NullsAfterDates | src/main/java/com/encora/esteban/inventory/manager/be/service/ProductService.java:47-51 | with `nullsLast`, an undated product comes after a dated one in ascending order and before it once the comparator is reversed |
| Sorting.PrecedesTotal | src/main/java/com/encora/esteban/inventory/manager/be/service/ProductService.java:38-52 | any two products are ordered one way or the other, and they are ordered both ways exactly when they tie |
| Sorting.PrecedesTransitive | src/main/java/com/encora/esteban/inventory/manager/be/service/ProductService.java:38-52 | the chosen comparator, reversed or not, is transitive |
| Sorting.Sort | src/main/java/com/encora/esteban/inventory/manager/be/service/ProductService.java:54 | the sorted list is a permutation of the filtered list |
| Sorting.SortSorted | src/main/java/com/encora/esteban/inventory/manager/be/service/ProductService.java:54 | every earlier product of the sorted list may precede every later one |
| Sorting.SortStable | src/main/java/com/encora/esteban/inventory/manager/be/service/ProductService.java:54 | products that compare equal keep their filtered order, in both directions |
| Sorting.StableSortUnique | src/main/java/com/encora/esteban/inventory/manager/be/service/ProductService.java:54 | two sorted, stable permutations of one list are equal |
| Sorting.SortIsTheStableSort | src/main/java/com/encora/esteban/inventory/manager/be/service/ProductService.java:54 | any stable sort with this comparator, such as `List.sort`, returns exactly the modelled list |
| Sorting.ExpirationAscendingNullsLast | src/main/java/com/encora/esteban/inventory/manager/be/service/ProductService.java:46-47 | ascending by expiration, no dated product follows an undated one |
| Sorting.ExpirationDescendingNullsFirst | src/main/java/com/encora/esteban/inventory/manager/be/service/ProductService.java:46-52 | descending by expiration, no undated product follows a dated one |
| Paging.TotalPages | src/main/java/com/encora/esteban/inventory/manager/be/service/ProductService.java:58 | for a positive size the page count is the least number of pages that hold every match; it is `Integer.MAX_VALUE` for size 0 (0 if nothing matched) |
| Paging.Paginate | src/main/java/com/encora/esteban/inventory/manager/be/service/ProductService.java:80-82 | a page never holds more than `size` items and is a contiguous run starting at `fromIndex`; `subList` throws `IndexOutOfBoundsException` exactly when `fromIndex` is negative, and `IllegalArgumentException` exactly when 0 ≤ `fromIndex` < the list's length and `toIndex` < `fromIndex` |
| Paging.PaginateInRange | src/main/java/com/encora/esteban/inventory/manager/be/service/ProductService.java:80-82 | without overflow, page `page` is the window of `size` items starting at `page * size`, empty past the end |
| Paging.PaginateLocates | src/main/java/com/encora/esteban/inventory/manager/be/service/ProductService.java:80-82 | with `from` equal to `page * size`, item `from + k` of the list appears as item `k` of page `page` |
| Paging.PaginateZeroSize | src/main/java/com/encora/esteban/inventory/manager/be/service/ProductService.java:80-82 | a zero page size gives an empty page and no exception |
| Paging.PaginateNegativePage | src/main/java/com/encora/esteban/inventory/manager/be/service/ProductService.java:80-82 | a negative page with a positive size, when `page * size` does not wrap (is at least `Integer.MIN_VALUE`), makes `subList` throw `IndexOutOfBoundsException`, even on an empty list |
| Paging.PaginateOverflowWraps | src/main/java/com/encora/esteban/inventory/manager/be/service/ProductService.java:80-82 | `page * size` wraps around, so page 429496730 of size 10 over 20 items returns items 4 to 13 |
| Paging.PaginateNegativeSize | src/main/java/com/encora/esteban/inventory/manager/be/service/ProductService.java:80-82 | page 0 of size -5 over three items has its end before its start, and `subList` throws `IllegalArgumentException` |
| Paging.PaginateEndOverflows | src/main/java/com/encora/esteban/inventory/manager/be/service/ProductService.java:81-82 | page -2 of size `Integer.MAX_VALUE` over five items starts at 2, its end wraps negative, and `subList` throws `IllegalArgumentException` |
| Paging.PaginateNegativePageWraps | src/main/java/com/encora/esteban/inventory/manager/be/service/ProductService.java:80-82 | a negative page can still return items: `page * size` for page -1073741824 of size 4 wraps to 0, so over three items the page is all three and nothing is thrown |
| Paging.PaginateNegativeStartFirst | src/main/java/com/encora/esteban/inventory/manager/be/service/ProductService.java:80-82 | page 1 of size -5 over three items starts at -5, and `subList` throws `IndexOutOfBoundsException` for the start before it looks at the end |
| Paging.PaginateNegativeSizePastEnd | src/main/java/com/encora/esteban/inventory/manager/be/service/ProductService.java:80-82 | page -1 of size -5 over three items starts at 5, past the end, so the page is empty and nothing is thrown |
| Paging.PageBounds | src/main/java/com/encora/esteban/inventory/manager/be/service/ProductService.java:80-81 | `fromIndex` equals `page * size` up to a multiple of 2^32, and exactly without overflow; `toIndex` never passes the list's end and is `min(fromIndex + size, total)` without overflow |
| JavaInt.WrapAdd | src/main/java/com/encora/esteban/inventory/manager/be/service/ProductService.java:72-75 | adding with wrap-around at every step equals wrapping the exact sum once |
| Aggregation.TallyFromTotals | src/main/java/com/encora/esteban/inventory/manager/be/service/ProductService.java:64-76 | the loop's grand totals are the wrapped stock sum and the value sum of the visited products |
| Aggregation.StepCategoryStock | src/main/java/com/encora/esteban/inventory/manager/be/service/ProductService.java:72 | one loop step adds the product's stock, with wrap-around, to its own category's entry (absent counts as 0) and leaves every other category's entry alone |
| Aggregation.TallyFromKeys | src/main/java/com/encora/esteban/inventory/manager/be/service/ProductService.java:72-73 | the loop adds exactly the categories of the visited products as keys of both maps |
| Aggregation.TallyFromCategoryValue | src/main/java/com/encora/esteban/inventory/manager/be/service/ProductService.java:73 | a category's value entry is the sum of price times stock over that category's products |
| Aggregation.TallyFromCategoryStock | src/main/java/com/encora/esteban/inventory/manager/be/service/ProductService.java:67-77 | a category's stock entry is the wrapped sum of the stock of that category's products |
| Aggregation.TallyIsCategorySums | src/main/java/com/encora/esteban/inventory/manager/be/service/ProductService.java:61-77 | both maps are keyed by exactly the categories present; each entry is that category's stock (wrapped) or value sum; the grand totals are the wrapped stock sum and the value sum of the whole list |
| Aggregation.StockSumByCategory | src/main/java/com/encora/esteban/inventory/manager/be/service/ProductService.java:67-77 | the grand stock total is the sum of the per-category stock totals over all categories present |
| Service.Query | src/main/java/com/encora/esteban/inventory/manager/be/service/ProductService.java:30-106 | every listed product is in the store and matches the filters, the page holds at most `size` items, `totalProducts` counts all matches, and `currentPage` echoes the request |
| Service.OrderedIsStableSortOfFilter | src/main/java/com/encora/esteban/inventory/manager/be/service/ProductService.java:31-54 | the list a query pages through is a permutation of the matching products, ordered by the requested comparator, with ties in list order |
| Service.QueryAt | src/main/java/com/encora/esteban/inventory/manager/be/service/ProductService.java:80-82 | when `fromIndex` is in range and its end does not overflow, the page is the window of the filtered, sorted list at `fromIndex` |
| Service.QueryPage | src/main/java/com/encora/esteban/inventory/manager/be/service/ProductService.java:80-82 | without overflow, the page is the window at `page * size` of the filtered, sorted list |
| Service.QueryTotals | src/main/java/com/encora/esteban/inventory/manager/be/service/ProductService.java:95-102 | the totals depend on the whole list alone, whatever the filter, sort and page: per-category sums for exactly the categories present, and the grand totals clamped at zero |
| Service.QueryPageCount | src/main/java/com/encora/esteban/inventory/manager/be/service/ProductService.java:57-58 | for a positive size, `totalPages` is the ceiling of `totalProducts / size` |
| Service.QueryZeroSize | src/main/java/com/encora/esteban/inventory/manager/be/service/ProductService.java:57-82 | a zero size returns an empty page, with `Integer.MAX_VALUE` pages (0 when nothing matched) |
| Service.QueryNegativePage | src/main/java/com/encora/esteban/inventory/manager/be/service/ProductService.java:80-82 | a negative page with a positive size, when `page * size` does not wrap (is at least `Integer.MIN_VALUE`), makes the query throw `IndexOutOfBoundsException`, even when nothing matched |
| Service.QueryListsAll | src/main/java/com/encora/esteban/inventory/manager/be/service/ProductService.java:30-106 | with no filters and a page as large as the list, page 0 lists every product with its multiplicity |
| Service.FindIndex | src/main/java/com/encora/esteban/inventory/manager/be/service/ProductService.java:147-149 | the index found is the first one holding the id, and there is none exactly when no product holds it |
| Service.AddProduct | src/main/java/com/encora/esteban/inventory/manager/be/service/ProductService.java:108-120 | the stored record goes at the end with id = previous size + 1, both dates today, and the other fields as given |
| Service.RemoveFirstEqual | src/main/java/com/encora/esteban/inventory/manager/be/service/ProductService.java:135 | `List.remove(Object)` succeeds exactly when an equal product is present; it then removes the first equal element and keeps the rest in order, and otherwise leaves the list unchanged |
| Service.RemoveFirstEqualAt | src/main/java/com/encora/esteban/inventory/manager/be/service/ProductService.java:128-135 | removing by equality the product found first by id removes exactly that index |
| Service.DeleteProductById | src/main/java/com/encora/esteban/inventory/manager/be/service/ProductService.java:125-143 | reports success exactly when the id is present; then removes the first product with that id and keeps the others in order, and otherwise changes nothing |
| Service.UpdateProduct | src/main/java/com/encora/esteban/inventory/manager/be/service/ProductService.java:146-171 | reports success exactly when the id is present; overwrites name, category, price and stock of the first match, stamps today, replaces the expiration date only when one is given, keeps id and creation date, and leaves all other products alone |
| Service.Overwrite | src/main/java/com/encora/esteban/inventory/manager/be/service/ProductService.java:150-162 | the update keeps id and creation date, takes name, category, price and stock from the update, stamps today, and replaces the expiration date only when one is given |
| Service.MarkProductOutOfStock | src/main/java/com/encora/esteban/inventory/manager/be/service/ProductService.java:173-186 | reports success exactly when the id is present; sets the first match's stock to 0 and its update date to today, and nothing else changes |
| Service.RestoreProductStock | src/main/java/com/encora/esteban/inventory/manager/be/service/ProductService.java:188-201 | reports success exactly when the id is present; sets the first match's stock to 10 and its update date to today, and nothing else changes |
| ServiceProperties.ListedWhenPageHoldsAll | src/main/java/com/encora/esteban/inventory/manager/be/service/ProductService.java:30-106 | every product of the list shows on page 0 of an unfiltered query whose page holds the whole list |
| ServiceProperties.AddedProductIsListed | src/main/java/com/encora/esteban/inventory/manager/be/service/ProductService.java:108-120 | after an add, an unfiltered query with a large enough page lists the stored record |
| ServiceProperties.AddedIdIsFound | src/test/java/com/encora/esteban/inventory/manager/be/service/ProductServiceTest.java:40-108 | delete, update, mark and restore all succeed with the id that `addProduct` returned |
| ServiceProperties.DeletedIdIsNotListed | src/main/java/com/encora/esteban/inventory/manager/be/service/ProductService.java:125-143 | once ids are unique, no query after a delete returns the deleted id |
| ServiceProperties.UpdatedProductIsListed | src/test/java/com/encora/esteban/inventory/manager/be/service/ProductServiceTest.java:56-91 | after a successful update, an unfiltered query lists a record with that id, the new name, the new stock and today's date |
| ServiceProperties.RestoredStockIsListed | src/test/java/com/encora/esteban/inventory/manager/be/service/ProductServiceTest.java:110-136 | after a successful restore, an unfiltered query lists the record with stock 10 |
| ServiceProperties.InPlaceMutationsKeepIds | src/main/java/com/encora/esteban/inventory/manager/be/service/ProductService.java:146-201 | update, mark and restore keep every product's id in its place, and update keeps ids unique |
| ServiceProperties.FindIndexSameIds | src/main/java/com/encora/esteban/inventory/manager/be/service/ProductService.java:147-149 | the id search depends only on the ids of the list |
| ServiceProperties.UpdateIdempotent | src/main/java/com/encora/esteban/inventory/manager/be/service/ProductService.java:146-171 | repeating an update with the same arguments changes nothing more, and reports the same success |
| ServiceProperties.RestoreAfterMark | src/main/java/com/encora/esteban/inventory/manager/be/service/ProductService.java:173-201 | marking out of stock and then restoring equals restoring directly |
| ServiceProperties.DeleteKeepsUniqueIds | src/main/java/com/encora/esteban/inventory/manager/be/service/ProductService.java:125-143 | deleting keeps ids unique |
| ServiceProperties.AddKeepsUniqueIdsWhenDense | src/main/java/com/encora/esteban/inventory/manager/be/service/ProductService.java:108-113 | while no id exceeds the list's size, as after the preload, adding keeps ids unique |
| ServiceProperties.AddAfterDeleteReusesId | src/main/java/com/encora/esteban/inventory/manager/be/service/ProductService.java:110 | deleting id 1 from a list with ids 1 and 2 and then adding gives two products with id 2 |
| ServiceProperties.ScenarioOrdered | src/main/java/com/encora/esteban/inventory/manager/be/service/ProductService.java:31-54 | for a mouse in stock and pants out of stock, the in-stock filter keeps the mouse alone |
| ServiceProperties.ScenarioTally | src/main/java/com/encora/esteban/inventory/manager/be/service/ProductService.java:61-77 | for the mouse and the pants, the totals are Electronics 2 and Clothing 0 in stock, and 20 and 0 in value |
| ServiceProperties.InStockScenario | src/main/java/com/encora/esteban/inventory/manager/be/service/ProductService.java:30-106 | for the mouse and the pants, an in-stock query lists only the mouse on one page, while the totals still cover both products |

## Left out

- Logging (`System.out.println`) is not modelled. It has no effect on results.
- `LocalDate.now()` is a parameter `today`. Dates are day numbers since 1970-01-01.
- The controller, the CORS configuration and the HTTP layer are not part of this model.
- The response `Map<String, Object>` becomes a record. `HashMap` iteration order is not modelled.
- The service holds no locks, and concurrent access is not modelled.
- Products.Product: `unitPrice` is a whole number instead of a `double`. Value sums are therefore exact integers, and the model has no `double` rounding, infinities or NaN.
- Aggregation.TallyIsCategorySums: value sums are exact and do not round as `double` sums do. Only the stock sums model Java `int` overflow.
- Paging.TotalPages: the ceiling is taken exactly. The model assumes the `double` quotient of two 32-bit ints is close enough for its ceiling to be exact.
- Text.Lower: case folding covers the ASCII letters only. Java's `toLowerCase` and `equalsIgnoreCase` also fold other Unicode letters, and the former depends on the locale.
- Text.Compare: returns only the sign of `compareTo`. It compares by `char` code, and the model has no UTF-16 surrogate subtleties. Comparators use only the sign.
- Service.AddProduct: ids are unbounded integers. The `(long)` id cannot overflow for any list Java can hold.
- Null names, categories and ids on stored products are not modelled. Java would throw `NullPointerException` in the filters, comparators and `getId().equals`. The `Long` id is compared by value.
- Mutation of the caller's `Product` object is not modelled: `addProduct` sets fields on the argument it is given. The model returns the stored record instead.
- Service.QueryPage: states the page only when `page * size + size` does not overflow. The overflowing case is covered by `Paging.PaginateOverflowWraps` and the general contract of `Paging.Paginate`.
