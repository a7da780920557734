/** `ProductService`: the query pipeline over the product list and the list
    mutations. The list is a value; every mutation returns the new list together
    with the boolean the Java method returns. "Today" is a parameter. */
module Service {
  import opened Wrappers
  import opened JavaInt
  import opened Products
  import opened Filtering
  import opened Sorting
  import opened Paging
  import opened Aggregation

  /** The response map of `getProducts`, as a record. */
  datatype QueryResult = QueryResult(
    products: Store,
    totalProducts: int,
    totalPages: int,
    totalStock: int,
    totalValue: int,
    categoryStock: map<string, int>,
    categoryValue: map<string, int>,
    currentPage: int)

  /** The list `getProducts` pages through: filtered, then sorted. */
  function Ordered(store: Store, criteria: Criteria, sortBy: string, sortOrder: string): Store {
    Sort(ParseSortKey(sortBy), ParseDirection(sortOrder), Filter(criteria, store))
  }

  /** The list a query pages through holds exactly the matching products, ordered
      by the requested comparator, with tying products in list order: it is the
      one stable sort of the filtered list. */
  lemma OrderedIsStableSortOfFilter(store: Store, criteria: Criteria, sortBy: string, sortOrder: string)
    ensures var key, dir := ParseSortKey(sortBy), ParseDirection(sortOrder);
      var r := Ordered(store, criteria, sortBy, sortOrder);
      && multiset(r) == multiset(Filter(criteria, store))
      && Sorted(key, dir, r)
      && StableWrt(key, r, Filter(criteria, store))
  {
    var key, dir := ParseSortKey(sortBy), ParseDirection(sortOrder);
    SortSorted(key, dir, Filter(criteria, store));
    SortStable(key, dir, Filter(criteria, store));
  }

  /** `getProducts(name, category, inStock, page, size, sortBy, sortOrder)`.
      The page comes from the filtered, sorted list; every total comes from the
      whole list, whatever the other arguments. */
  function Query(store: Store, criteria: Criteria, page: Int32, size: Int32, sortBy: string, sortOrder: string)
    : (r: Result<QueryResult, PageError>)
    ensures r.Ok? ==>
      && (forall p :: p in r.value.products ==> p in store && Matches(criteria, p))
      && |r.value.products| <= Max(size, 0)
      && r.value.totalProducts == |Filter(criteria, store)|
      && r.value.currentPage == page
  {
    var sorted := Ordered(store, criteria, sortBy, sortOrder);
    var total := |sorted|;
    var totals := Tally(store);
    match Paginate(sorted, page, size)
    case Err(e) => Err(e)
    case Ok(slice) =>
      assert forall p :: p in slice ==> p in multiset(sorted);
      Ok(QueryResult(slice, total, TotalPages(total, size),
                     Max(totals.totalStock, 0), Max(totals.totalValue, 0),
                     totals.categoryStock, totals.categoryValue, page))
  }

  /** A page whose start index `from` is in range and whose end does not
      overflow is the window of `size` items at `from` in the filtered, sorted list.
      `from` is `FromIndex(page, size)`, passed separately so the proof avoids
      the product `page * size`. */
  lemma QueryAt(store: Store, criteria: Criteria, page: Int32, size: Int32, sortBy: string, sortOrder: string, from: int)
    requires FromIndex(page, size) == from && 0 <= from
    requires 0 <= size && from + size <= IntMax
    ensures var r := Query(store, criteria, page, size, sortBy, sortOrder);
      r.Ok? && r.value.products == Window(Ordered(store, criteria, sortBy, sortOrder), from, size)
  {
    PaginateAt(Ordered(store, criteria, sortBy, sortOrder), page, size, from);
    QueryPaginates(store, criteria, page, size, sortBy, sortOrder);
  }

  /** With a valid page and no overflow, the page is the slice
      `[page*size, min(page*size+size, total))` of the filtered, sorted list. */
  lemma QueryPage(store: Store, criteria: Criteria, page: Int32, size: Int32, sortBy: string, sortOrder: string)
    requires 0 <= page && 0 < size && page * size + size <= IntMax
    ensures var r := Query(store, criteria, page, size, sortBy, sortOrder);
      r.Ok? && r.value.products == Window(Ordered(store, criteria, sortBy, sortOrder), page * size, size)
  {
    var from := page * size;
    assert 0 <= from;
    assert FromIndex(page, size) == from;
    QueryAt(store, criteria, page, size, sortBy, sortOrder, from);
  }

  /** The page and its error come from paginating the filtered, sorted list, and
      the page count is computed from the match count and the page size. */
  lemma QueryPaginates(store: Store, criteria: Criteria, page: Int32, size: Int32, sortBy: string, sortOrder: string)
    ensures var sorted := Ordered(store, criteria, sortBy, sortOrder);
      var r := Query(store, criteria, page, size, sortBy, sortOrder);
      && (r.Ok? <==> Paginate(sorted, page, size).Ok?)
      && (r.Ok? ==> r.value.products == Paginate(sorted, page, size).value)
      && (r.Ok? ==> r.value.totalPages == TotalPages(|sorted|, size))
  {
  }

  /** The totals depend on the whole list alone, never on the filter, sort or
      page arguments: for exactly the categories present, each category's stock
      (a wrapping `int` sum) and value, and the grand totals clamped at zero. */
  lemma QueryTotals(store: Store, criteria: Criteria, page: Int32, size: Int32, sortBy: string, sortOrder: string)
    requires Query(store, criteria, page, size, sortBy, sortOrder).Ok?
    ensures var r := Query(store, criteria, page, size, sortBy, sortOrder).value;
      && r.totalStock == Max(Wrap(StockSum(store)), 0)
      && r.totalValue == Max(ValueSum(store), 0)
      && r.categoryStock.Keys == Categories(store)
      && r.categoryValue.Keys == Categories(store)
      && (forall c :: c in r.categoryStock ==> r.categoryStock[c] == Wrap(StockSum(OfCategory(store, c))))
      && (forall c :: c in r.categoryValue ==> r.categoryValue[c] == ValueSum(OfCategory(store, c)))
  {
    TallyIsCategorySums(store);
  }

  /** For a positive size, `totalPages` is the ceiling of `totalProducts / size`. */
  lemma QueryPageCount(store: Store, criteria: Criteria, page: Int32, size: Int32, sortBy: string, sortOrder: string)
    requires 0 < size
    ensures var r := Query(store, criteria, page, size, sortBy, sortOrder);
      r.Ok? ==> CeilingOf(r.value.totalPages, r.value.totalProducts, size)
  {
    QueryPaginates(store, criteria, page, size, sortBy, sortOrder);
    var r := Query(store, criteria, page, size, sortBy, sortOrder);
    var n: nat := |Filter(criteria, store)|;
    if r.Ok? {
      assert r.value.totalProducts == n && r.value.totalPages == TotalPages(n, size);
    }
  }

  /** A zero page size returns an empty page and no error; the page count is
      `Integer.MAX_VALUE` unless nothing matched. */
  lemma QueryZeroSize(store: Store, criteria: Criteria, page: Int32, sortBy: string, sortOrder: string)
    ensures var r := Query(store, criteria, page, 0, sortBy, sortOrder);
      && r.Ok? && r.value.products == []
      && r.value.totalPages == if |Filter(criteria, store)| == 0 then 0 else IntMax
  {
    PaginateZeroSize(Ordered(store, criteria, sortBy, sortOrder), page);
    QueryPaginates(store, criteria, page, 0, sortBy, sortOrder);
  }

  /** A negative page with a positive size throws when `page * size` does not
      wrap (is at least `Integer.MIN_VALUE`), even when nothing matched. */
  lemma QueryNegativePage(store: Store, criteria: Criteria, page: Int32, size: Int32, sortBy: string, sortOrder: string)
    requires page < 0 && 0 < size && IntMin <= page * size
    ensures var r := Query(store, criteria, page, size, sortBy, sortOrder);
      r.Err? && r.error.IndexOutOfBounds?
  {
    PaginateNegativePage(Ordered(store, criteria, sortBy, sortOrder), page, size);
    QueryPaginates(store, criteria, page, size, sortBy, sortOrder);
  }

  /** With no filter and a page as large as the list, page 0 shows every product. */
  lemma QueryListsAll(store: Store, size: Int32, sortBy: string, sortOrder: string)
    requires |store| <= size
    ensures var r := Query(store, NoCriteria, 0, size, sortBy, sortOrder);
      r.Ok? && multiset(r.value.products) == multiset(store)
  {
    FilterNoCriteria(store);
    var sorted := Ordered(store, NoCriteria, sortBy, sortOrder);
    QueryAt(store, NoCriteria, 0, size, sortBy, sortOrder, 0);
    assert Window(sorted, 0, size) == sorted;
  }

  // ---------------------------------------------------------------------
  // Mutations

  /** The position of the first product carrying `id`, as the scanning loops find it. */
  function FindIndex(s: Store, id: int): (r: Option<nat>)
    ensures r.Some? ==> r.value < |s| && s[r.value].id == id
    ensures r.Some? ==> forall j :: 0 <= j < r.value ==> s[j].id != id
    ensures r.None? <==> !HasId(s, id)
  {
    if |s| == 0 then None
    else if s[0].id == id then Some(0)
    else match FindIndex(s[1..], id)
      case None => None
      case Some(i) => Some(i + 1)
  }

  /** `addProduct`: the id is the list's size before the insert plus one, both
      dates are today, and the record goes to the end. */
  function AddProduct(s: Store, draft: Product, today: Day): (r: (Store, Product))
    ensures |r.0| == |s| + 1 && r.0[..|s|] == s && r.0[|s|] == r.1
    ensures r.1.id == |s| + 1
    ensures r.1.creationDate == today && r.1.updateDate == today
    ensures r.1.name == draft.name && r.1.category == draft.category && r.1.unitPrice == draft.unitPrice
    ensures r.1.expirationDate == draft.expirationDate && r.1.quantityInStock == draft.quantityInStock
  {
    var stored := draft.(id := |s| + 1, creationDate := today, updateDate := today);
    (s + [stored], stored)
  }

  /** `u` is `s` without its element at `i`, the first one equal to `x`. */
  ghost predicate RemovedAt(s: Store, x: Product, u: Store, i: int) {
    0 <= i < |s| && s[i] == x && x !in s[..i] && u == s[..i] + s[i + 1..]
  }

  /** `List.remove(Object)`: drops the first element equal to `x` (Lombok's
      `equals` compares every field), keeps the rest in order, and reports
      whether there was one. */
  function RemoveFirstEqual(s: Store, x: Product): (r: (Store, bool))
    ensures r.1 <==> x in s
    ensures !r.1 ==> r.0 == s
    ensures r.1 ==> exists i :: RemovedAt(s, x, r.0, i)
  {
    if |s| == 0 then (s, false)
    else if s[0] == x then
      assert RemovedAt(s, x, s[1..], 0);
      (s[1..], true)
    else
      var rest := RemoveFirstEqual(s[1..], x);
      assert s == [s[0]] + s[1..];
      if rest.1 then
        RemovedAtCons(s, x, rest.0);
        ([s[0]] + rest.0, true)
      else
        (s, false)
  }

  /** A removal from the tail, behind a head that differs from `x`, is a removal from the list. */
  lemma RemovedAtCons(s: Store, x: Product, u: Store)
    requires |s| > 0 && s[0] != x
    requires exists i :: RemovedAt(s[1..], x, u, i)
    ensures exists i :: RemovedAt(s, x, [s[0]] + u, i)
  {
    var i :| RemovedAt(s[1..], x, u, i);
    assert s[..i + 1] == [s[0]] + s[1..][..i];
    assert s[i + 2..] == s[1..][i + 1..];
    assert RemovedAt(s, x, [s[0]] + u, i + 1);
  }

  /** `deleteProductById`: finds the first product with `id`, then removes it
      through `List.remove(Object)`. */
  function DeleteProductById(s: Store, id: int): (r: (Store, bool))
    ensures r.1 <==> HasId(s, id)
    ensures !r.1 ==> r.0 == s
    ensures r.1 ==> var i := FindIndex(s, id).value; r.0 == s[..i] + s[i + 1..]
  {
    match FindIndex(s, id)
    case None => (s, false)
    case Some(i) =>
      RemoveFirstEqualAt(s, i);
      (RemoveFirstEqual(s, s[i]).0, true)
  }

  /** Removing by `equals` the element found at `i` removes exactly index `i`,
      when no earlier element is equal to it (an earlier equal one would carry the same id). */
  lemma {:induction false} RemoveFirstEqualAt(s: Store, i: nat)
    requires i < |s| && forall j :: 0 <= j < i ==> s[j].id != s[i].id
    ensures RemoveFirstEqual(s, s[i]) == (s[..i] + s[i + 1..], true)
  {
    if i == 0 {
      assert s[..0] + s[1..] == s[1..];
    } else {
      assert s[0] != s[i];
      var t := s[1..];
      assert t[i - 1] == s[i];
      RemoveFirstEqualAt(t, i - 1);
      assert [s[0]] + (t[..i - 1] + t[i..]) == s[..i] + s[i + 1..];
    }
  }

  /** The fields `updateProduct` writes: everything but id and creation date;
      the expiration date only when one was supplied. */
  function Overwrite(p: Product, upd: Product, today: Day): (r: Product)
    ensures r.id == p.id && r.creationDate == p.creationDate
    ensures r.name == upd.name && r.category == upd.category
    ensures r.unitPrice == upd.unitPrice && r.quantityInStock == upd.quantityInStock
    ensures r.updateDate == today
    ensures r.expirationDate == if upd.expirationDate.None? then p.expirationDate else upd.expirationDate
  {
    p.(name := upd.name,
       category := upd.category,
       unitPrice := upd.unitPrice,
       quantityInStock := upd.quantityInStock,
       updateDate := today,
       expirationDate := if upd.expirationDate.Some? then upd.expirationDate else p.expirationDate)
  }

  /** `updateProduct`: overwrites the first product with `id` and leaves every
      other product alone. */
  function UpdateProduct(s: Store, id: int, upd: Product, today: Day): (r: (Store, bool))
    ensures r.1 <==> HasId(s, id)
    ensures !r.1 ==> r.0 == s
    ensures |r.0| == |s|
    ensures r.1 ==> var i := FindIndex(s, id).value;
      && (forall j :: 0 <= j < |s| && j != i ==> r.0[j] == s[j])
      && r.0[i].id == s[i].id && r.0[i].creationDate == s[i].creationDate
      && r.0[i].name == upd.name && r.0[i].category == upd.category
      && r.0[i].unitPrice == upd.unitPrice && r.0[i].quantityInStock == upd.quantityInStock
      && r.0[i].updateDate == today
      && r.0[i].expirationDate == (if upd.expirationDate.None? then s[i].expirationDate else upd.expirationDate)
  {
    match FindIndex(s, id)
    case None => (s, false)
    case Some(i) => (s[i := Overwrite(s[i], upd, today)], true)
  }

  /** Sets the stock of the first product with `id` and stamps today's date. */
  function SetStock(s: Store, id: int, quantity: int, today: Day): (Store, bool) {
    match FindIndex(s, id)
    case None => (s, false)
    case Some(i) => (s[i := s[i].(quantityInStock := quantity, updateDate := today)], true)
  }

  /** `markProductOutOfStock`: stock 0 on the first product with `id`, nothing else changes. */
  function MarkProductOutOfStock(s: Store, id: int, today: Day): (r: (Store, bool))
    ensures r.1 <==> HasId(s, id)
    ensures !r.1 ==> r.0 == s
    ensures |r.0| == |s|
    ensures r.1 ==> var i := FindIndex(s, id).value;
      && (forall j :: 0 <= j < |s| && j != i ==> r.0[j] == s[j])
      && r.0[i] == s[i].(quantityInStock := 0, updateDate := today)
  {
    SetStock(s, id, 0, today)
  }

  /** `restoreProductStock`: stock back to 10 on the first product with `id`, nothing else changes. */
  function RestoreProductStock(s: Store, id: int, today: Day): (r: (Store, bool))
    ensures r.1 <==> HasId(s, id)
    ensures !r.1 ==> r.0 == s
    ensures |r.0| == |s|
    ensures r.1 ==> var i := FindIndex(s, id).value;
      && (forall j :: 0 <= j < |s| && j != i ==> r.0[j] == s[j])
      && r.0[i] == s[i].(quantityInStock := RestockQuantity, updateDate := today)
  {
    SetStock(s, id, RestockQuantity, today)
  }
}
