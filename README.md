# FlowSync UI list views and entity caches, in Dafny

This project models two pieces of in-memory logic from the FlowSync administrative front-end.

1. **The list-view engine.** `BaseListViewComponent<T>` holds the working collection, the current page and the sort state (`sortOrder`, `lastColumnSorted`).
   - It computes the page count and the visible page.
   - It owns the three-step sort cycle (ascending, descending, identifier order) behind the `sortable` gate.
   - It owns the `filterable` and `actions.delete` gates.
   - Its product and contact subclasses override `sortBy`. Each reorders the items in place once the base transition has run.
2. **The entity caches of the category, supplier and address services.** Each service keeps the last known list of entities in a `BehaviorSubject`. A successful remote call rewrites that list in its `tap` handler:
   - the list call replaces it;
   - a delete filters the record out by identifier;
   - an update merges the returned record by identifier;
   - a create appends the new record;
   - a batch update replaces the list with the returned records.

   A failure is caught before the handler runs, so the cache is left alone. The three service files are identical apart from entity names and share their line numbers. One generic model, `EntityService.CachedService<V>`, stands for all three. Its rows below cite whichever of the three files is most convenient.

## Files and modules

- `sort_cycle.dfy` (`SortCycle`): the sort state and the `sortBy` transition, as a pure function with its cycle lemmas.
- `pagination.dfy` (`Pagination`): `totalPages` and `visibleItems` as functions of the items, the page number and the page size.
   - `Array.prototype.slice` is modelled with its negative-index rule.
   - Lemmas about the last page and the page-by-page cover of the items.
- `list_view.dfy` (`ListView`): the class `BaseListView<T>`.
   - Its fields are `items` (an `array`), `currentPage`, `config`, `sortOrder` and `lastColumnSorted`.
   - `SortBy`, `Filter`, `Delete` and `Load` are methods. `TotalPages` and `VisibleItems` are functions that read the object.
- `sorting.dfy` (`Sorting`): what the subclasses need from `Array.prototype.sort` and `reverse`.
   - An in-place insertion sort, proved sorted and a permutation for any consistent comparator.
   - An in-place reversal.
   - The uniqueness of a strictly sorted arrangement.
- `collation.dfy` (`Collation`): `localeCompare` as lexicographic order on characters, proved antisymmetric and transitive.
- `product_list_view.dfy` (`ProductList`): the `Product` record, the product comparators and the class `ProductListView`.
   - `ProductListView` owns a `BaseListView<Product>`.
   - `ThreeNameClicks` drives a fresh list through three clicks on the name column.
- `contact_list_view.dfy` (`ContactList`): the `Contact` record, `getItemValue`, the contact comparators and the class `ContactListView`.
- `entity_service.dfy` (`EntityService`): the record model (an identifier plus a field map) and the pure cache transformations `WithoutId`, `MergeById` and `AfterBatch`. Also the class `CachedService<V>`, with one method per remote call, each taking the server's reply as a parameter.

## Model

| member | source | states |
|---|---|---|
| SortCycle.Transition | src/app/component/list-view/base-list-view.component.ts:31-41 | With `sortable` off the state is unchanged. A click on the column sorted last advances the order modulo 3. A click on another column resets the order to 0 and records the column. The order stays in {0, 1, 2}. |
| SortCycle.ThreeClicksRestore | src/app/component/list-view/base-list-view.component.ts:35-36 | Three clicks on the column sorted last restore the original state, whether or not sorting is enabled. |
| SortCycle.NewColumnWalksCycle | src/app/component/list-view/base-list-view.component.ts:35-39 | Clicking a new column three times gives ascending, then descending, then identifier order, on that column. |
| SortCycle.ReplayStaysInCycle | src/app/component/list-view/base-list-view.component.ts:13-41 | From a state whose order is 0, 1 or 2, any run of clicks keeps the order in {0, 1, 2}. The initial order is 0. |
| SortCycle.ReplayUnsortable | src/app/component/list-view/base-list-view.component.ts:32 | With `sortable` off, no run of clicks changes the sort state. |
| Pagination.SliceFromNonNegative | src/app/component/list-view/base-list-view.component.ts:28 | With `0 <= start <= end`, `slice(start, end)` is the subsequence between the two indices clamped to the length, at most `end - start` long. With an end of 0 it is empty. |
| Pagination.TotalPages | src/app/component/list-view/base-list-view.component.ts:22-24 | `ceil(count / pageSize)` as the least page count that holds every item: `(r-1)*p < n <= r*p`. It is 0 exactly when the list is empty. |
| Pagination.VisibleItems | src/app/component/list-view/base-list-view.component.ts:26-29 | From page 1 on, the result is the run `items[min(start,n) .. min(start+p,n)]` with `start = (page-1)*p`, so never more than `p` items. Page 0 and any page past the last give nothing. |
| Pagination.PageSlice | src/app/component/list-view/base-list-view.component.ts:27-28 | The `slice` of one page equals the clamped run of that page, is at most a page long, and is empty for page 0 or any page past the last. |
| Pagination.PastLastPage | src/app/component/list-view/base-list-view.component.ts:22-28 | A page numbered beyond `totalPages` starts at or after the end of the items. |
| Pagination.LastPageLength | src/app/component/list-view/base-list-view.component.ts:22-29 | On a non-empty list the last page holds `n mod p` items, or a full page when `p` divides `n`. |
| Pagination.CeilingUnique | src/app/component/list-view/base-list-view.component.ts:23 | The bounds stated for the page count determine it. |
| Pagination.FirstPagesArePrefix | src/app/component/list-view/base-list-view.component.ts:26-29 | Pages 1 to k, concatenated, are the first `k*p` items. |
| Pagination.PagesCoverItems | src/app/component/list-view/base-list-view.component.ts:22-29 | Reading pages 1 to `totalPages` in turn gives every item exactly once, in order. |
| ListView.BaseListView.constructor | src/app/component/list-view/base-list-view.component.ts:10-14 | A new list has no items, is on page 1 and is in the initial sort state. |
| ListView.BaseListView.Load | src/app/component/list-view/product/product-list-view.component.ts:48-49 | Installing a fetched collection makes the items exactly that collection and leaves everything else unchanged. |
| ListView.BaseListView.TotalPages | src/app/component/list-view/base-list-view.component.ts:22-24 | The least page count that holds the items, at the configured page size. |
| ListView.BaseListView.VisibleItems | src/app/component/list-view/base-list-view.component.ts:26-29 | At most one page of items. Nothing past the last page. From page 1 on, exactly the current page's run of items. |
| ListView.BaseListView.SortBy | src/app/component/list-view/base-list-view.component.ts:31-41 | The sort state moves by `Transition`. Its frame names only the two sort fields, so the items and the page do not change. |
| ListView.BaseListView.Filter | src/app/component/list-view/base-list-view.component.ts:43-46 | Changes nothing. It proceeds exactly when `filterable` is set. |
| ListView.BaseListView.Delete | src/app/component/list-view/base-list-view.component.ts:48-50 | Changes nothing. It proceeds exactly when the delete action is enabled. |
| Collation.LocaleCompare | src/app/component/list-view/product/product-list-view.component.ts:62 | The three-way string comparison returns -1, 0 or 1, and returns 0 exactly for equal strings. |
| Collation.LocaleCompareAntisymmetric | src/app/component/list-view/product/product-list-view.component.ts:62 | Swapping the strings negates the result. |
| Collation.LocaleCompareTransitive | src/app/component/list-view/product/product-list-view.component.ts:62 | "Sorts no later than" is transitive. |
| Sorting.SortInPlace | src/app/component/list-view/product/product-list-view.component.ts:62-84 | For a consistent comparator, `items.sort(cmp)` leaves the array sorted by `cmp` and a permutation of its old contents. |
| Sorting.ReverseInPlace | src/app/component/list-view/product/product-list-view.component.ts:80 | `items.reverse()` leaves the array holding its old contents in reverse order. |
| Sorting.Reversed | src/app/component/list-view/product/product-list-view.component.ts:80 | The reversed sequence has the same length, and position k holds the element from position `n-1-k`. |
| Sorting.ReversedTwice | src/app/component/list-view/product/product-list-view.component.ts:80 | Reversing twice gives back the original order. |
| Sorting.ReversedPermutes | src/app/component/list-view/product/product-list-view.component.ts:80 | Reversal is a permutation. |
| Sorting.ReversedSortedIsFlipped | src/app/component/list-view/product/product-list-view.component.ts:79-80 | A sequence sorted ascending by `cmp`, once reversed, is sorted by the flipped comparator, i.e. descending. |
| Sorting.FlipConsistent | src/app/component/list-view/product/product-list-view.component.ts:79-80 | The flipped comparator of a consistent comparator is consistent. |
| Sorting.SortedArrangementUnique | src/app/component/list-view/product/product-list-view.component.ts:83-84 | Two arrangements of the same elements, both sorted by a consistent comparator under which no two of them tie, are equal. |
| ProductList.ComparatorsConsistent | src/app/component/list-view/product/product-list-view.component.ts:62-84 | The name, price, category, supplier and identifier comparators are all consistent, so each `sort` call sorts. |
| ProductList.IdOrderUnique | src/app/component/list-view/product/product-list-view.component.ts:83-84 | With unique identifiers, the identifier-order result does not depend on the order it started from. |
| ProductList.ProductListView.constructor | src/app/component/list-view/product/product-list-view.component.ts:15-37 | A new product list has the product configuration (page size 10, sorting, filtering and every action on), no items, page 1 and the initial sort state. |
| ProductList.ProductListView.SortBy | src/app/component/list-view/product/product-list-view.component.ts:55-85 | Sorting on the order the base transition leaves, as itemised under this table. |
| ProductList.ProductListView.Filter | src/app/component/list-view/product/product-list-view.component.ts:88-90 | Only delegates to the base `filter`. The items are outside its frame. |
| ProductList.ProductListView.Delete | src/app/component/list-view/product/product-list-view.component.ts:92-94 | The delete request goes out whatever the base gate decided. |
| ProductList.ThreeNameClicks | src/app/component/list-view/product/product-list-view.component.ts:55-85 | On a fresh, loaded list, three name clicks give name-ascending, then its exact reverse (name-descending), then identifier order, all permutations of the loaded products. |
| ContactList.GetItemValue | src/app/component/list-view/contact/contact-list-view.component.ts:50-52 | `item[key]` has a value exactly for the contact's own field names, and the value is a number only for `id`. |
| ContactList.LookupReadsNamedField | src/app/component/list-view/contact/contact-list-view.component.ts:50-52 | Each key reads the field it names: two contacts look up equal under a key exactly when they agree on that field. |
| ContactList.ItemValuesDetermineContact | src/app/component/list-view/contact/contact-list-view.component.ts:50-52 | Lookups by field name see every field: two contacts with the same lookups are the same contact. |
| ContactList.ComparatorsConsistent | src/app/component/list-view/contact/contact-list-view.component.ts:60-74 | The ascending-name, descending-name and identifier comparators are consistent. |
| ContactList.DescendingReversedIsAscending | src/app/component/list-view/contact/contact-list-view.component.ts:60-68 | A list in descending name order, read backwards, is in ascending name order. |
| ContactList.DescendingOrderUnique | src/app/component/list-view/contact/contact-list-view.component.ts:65-69 | When no two names compare equal, the descending sort's result does not depend on the order it started from. |
| ContactList.IdOrderUnique | src/app/component/list-view/contact/contact-list-view.component.ts:73-74 | With unique identifiers, the identifier-order result does not depend on the order it started from. |
| ContactList.ContactListView.constructor | src/app/component/list-view/contact/contact-list-view.component.ts:15-33 | A new contact list has the contact configuration, no items, page 1 and the initial sort state. |
| ContactList.ContactListView.SortBy | src/app/component/list-view/contact/contact-list-view.component.ts:54-76 | Sorting on the order the base transition leaves, as itemised under this table. |
| ContactList.ContactListView.Filter | src/app/component/list-view/contact/contact-list-view.component.ts:35 | The inherited base `filter`. It changes nothing and proceeds exactly when `filterable` is set. |
| ContactList.ContactListView.Delete | src/app/component/list-view/contact/contact-list-view.component.ts:78-80 | The delete request goes out whatever the base gate decided. |
| EntityService.Merge | src/app/service/category/category.service.ts:101 | `{...current, ...returned}` has the fields of both records, with the returned value winning where both have one. The identifier is the returned one. |
| EntityService.MergeIdempotent | src/app/service/category/category.service.ts:101 | Merging the same returned record twice is merging it once. |
| EntityService.WithoutId | src/app/service/category/category.service.ts:60 | The filtered cache is no longer than the old one. Every record left was in the old cache and has another identifier. Every old record with another identifier is still there. |
| EntityService.WithoutIdAppend | src/app/service/supplier/supplier.service.ts:60 | Filtering distributes over concatenation, so the records that stay keep their relative order. |
| EntityService.WithoutIdCounts | src/app/service/address/address.service.ts:60 | Exactly the records with the deleted identifier go. Every other record stays, as many times as it was there. |
| EntityService.WithoutAbsentId | src/app/service/category/category.service.ts:59-61 | Deleting an identifier the cache does not hold leaves the cache unchanged. |
| EntityService.WithoutIdIdempotent | src/app/service/supplier/supplier.service.ts:59-61 | Deleting twice is deleting once. |
| EntityService.CreateThenDelete | src/app/service/address/address.service.ts:120-123 | Deleting a newly created record's identifier gives the cache the delete alone would have given before the create. |
| EntityService.MergeById | src/app/service/category/category.service.ts:98-104 | The update keeps the cache's length. Records with the updated identifier become their merge with the returned record. Every other record is unchanged. |
| EntityService.MergeByIdIdempotent | src/app/service/supplier/supplier.service.ts:98-104 | Running the same update handler twice is running it once. |
| EntityService.MergeAbsentId | src/app/service/address/address.service.ts:98-104 | Updating an identifier the cache does not hold leaves the cache unchanged. |
| EntityService.Values | src/app/service/category/category.service.ts:77-81 | The returned records of a fully successful batch, one per request, in request order. |
| EntityService.AfterBatchKeepsOthers | src/app/service/supplier/supplier.service.ts:72-81 | Handling the batch's replies keeps the cache's length and every record whose identifier the batch does not name. |
| EntityService.CachedService.constructor | src/app/service/category/category.service.ts:13 | The cache starts empty. |
| EntityService.CachedService.GetAll | src/app/service/category/category.service.ts:27-29 | Success: the cache becomes exactly the fetched list. Failure: the cache is unchanged. The reply is passed on. |
| EntityService.CachedService.GetOne | src/app/service/supplier/supplier.service.ts:39-45 | Passes the reply on. The cache is outside its frame. |
| EntityService.CachedService.Delete | src/app/service/supplier/supplier.service.ts:57-62 | Success: the cache becomes `WithoutId` of the old cache. Failure: the cache is unchanged. |
| EntityService.CachedService.UpdateOne | src/app/service/address/address.service.ts:96-104 | Success: the cache becomes `MergeById` of the old cache. Failure: the cache is unchanged. |
| EntityService.CachedService.Create | src/app/service/address/address.service.ts:118-123 | Success: the old cache plus the returned record at its end. Failure: the cache is unchanged. |
| EntityService.CachedService.UpdateMany | src/app/service/category/category.service.ts:72-83 | When every reply succeeds, the batch emits the returned records and the cache becomes exactly that list; entities not in the batch are dropped. When a reply fails, the batch fails and the cache holds the merges of the replies before that failure. An empty batch emits nothing and changes nothing. |

`ProductList.ProductListView.SortBy` states, in terms of the sort order the base transition leaves:
- order 0 on `name`, `price`, `category` or `supplier`: the items are sorted ascending by that column's comparator;
- order 0 on any other column: the items are unchanged, because the switch has no default;
- order 1, any column: the items are the exact reverse of their previous order;
- order 2: the items are sorted ascending by identifier;
- in every case the items are a permutation of what they were.

`ContactList.ContactListView.SortBy` states, in the same terms:
- order 0 on `name`: ascending by name;
- order 1 on `name`: sorted by the descending comparator;
- order 0 or 1 on any other column, `firstname` included: unchanged;
- order 2, any column: ascending by identifier;
- in every case a permutation.

## Left out

- HTTP, authentication headers, URLs, error logging and `throwError` in the services are foreign calls. Each server reply is a parameter (`Reply.Ok` or `Reply.Failed`), and a failure means the success handler does not run.
- RxJS asynchrony is left out. Each response handler is one sequential step.
- EntityService.CachedService.UpdateMany: `forkJoin` issues the single updates together. Each runs its own update handler when its own response arrives, and an error cancels the ones still pending. The model assumes the responses arrive in request order and that handling stops at the first failure. Which earlier merges survive a failure therefore depends on real arrival order, which the model does not capture.
- `contact.service.ts` and `product.service.ts` are left out. They pass HTTP calls through and report errors to the subject, and hold no cache logic.
- The list views' delete and load flows are left out: the service call, the reload on success, and the `cachedItems` field. That field is an alias of the same array, so the in-place `sort` and `reverse` of `sortBy` reorder it too; the model has no second reference to the items. They are I/O and subscription callbacks. `Load` models only the assignment of the fetched list.
- `authentication.component.ts` (animation and navigation) and `app.routes.ts` (a static route table) have no state logic and are left out.
- Collation.LocaleCompare: locale-aware collation is replaced by plain lexicographic order on characters. The sorting results use only that it is a consistent three-way comparison. `GetItemValue`, `ItemValuesDetermineContact` and `LookupReadsNamedField` do not depend on it. The uniqueness lemmas take "no two elements compare equal" as a hypothesis, rather than "no two names are equal", because `localeCompare` can tie on distinct strings.
- `price` is a whole number, so the floating-point subtraction in the price comparator is not modelled.
- Sorting.SortInPlace: the contract states sortedness and permutation only. It does not state the stability `Array.prototype.sort` has, that elements which tie keep their previous relative order.
- The column, label, sub-column and icon metadata of the list configurations is left out. Only the page size, the `sortable` and `filterable` flags and the row actions are kept. An action the configuration omits counts as disabled.
- `src/app/model/contact.ts` is not part of this model. The `Contact` fields (`id`, `name`, `firstname`, `email`, `address`) are taken from the contact list's column configuration.
- Subclassing is modelled by composition. `ProductListView` and `ContactListView` each own a `BaseListView`, call its `SortBy` first and then reorder its `items` array in place.
- Pagination.TotalPages requires a positive page size. Both configurations use 10, and a page size of 0 would make the page count undefined.
- Loading a list assigns only the fetched items and does not reset the page or the sort state (product-list-view.component.ts:48-50, contact-list-view.component.ts:45). `Load` does the same.
- A failed batch is not all-or-nothing: single updates that succeeded before the failure have already merged into the cache. `UpdateMany` states this.
- ContactList.GetItemValue: only the contact's own fields are modelled. JavaScript property access also finds inherited members (`toString`, `constructor`) and any extra field in the server's JSON. The model returns `None` for those keys. Callers pass only column keys.
