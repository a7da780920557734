/** Properties that relate several service operations: what a query shows after
    each mutation, how mutations compose, and what happens to id uniqueness. */
module ServiceProperties {
  import opened Wrappers
  import opened JavaInt
  import opened Products
  import opened Filtering
  import opened Sorting
  import opened Paging
  import opened Aggregation
  import opened Service

  /** A product of `s` shows up on page 0 of an unfiltered query whose page holds the whole list. */
  lemma ListedWhenPageHoldsAll(s: Store, p: Product, size: Int32, sortBy: string, sortOrder: string)
    requires p in s && |s| <= size
    ensures var r := Query(s, NoCriteria, 0, size, sortBy, sortOrder);
      r.Ok? && p in r.value.products
  {
    QueryListsAll(s, size, sortBy, sortOrder);
    var r := Query(s, NoCriteria, 0, size, sortBy, sortOrder);
    assert p in multiset(s);
  }

  /** After `addProduct`, an unfiltered query lists the stored record. */
  lemma AddedProductIsListed(s: Store, draft: Product, today: Day, size: Int32, sortBy: string, sortOrder: string)
    requires |s| + 1 <= size
    ensures var (s', stored) := AddProduct(s, draft, today);
      var r := Query(s', NoCriteria, 0, size, sortBy, sortOrder);
      r.Ok? && stored in r.value.products
  {
    var (s', stored) := AddProduct(s, draft, today);
    assert s'[|s|] == stored;
    ListedWhenPageHoldsAll(s', stored, size, sortBy, sortOrder);
  }

  /** The id `addProduct` hands back finds the new record again: delete, update,
      mark and restore with it all report success. */
  lemma AddedIdIsFound(s: Store, draft: Product, today: Day, upd: Product, later: Day)
    ensures var (s', stored) := AddProduct(s, draft, today);
      && DeleteProductById(s', stored.id).1
      && UpdateProduct(s', stored.id, upd, later).1
      && MarkProductOutOfStock(s', stored.id, later).1
      && RestoreProductStock(s', stored.id, later).1
  {
    var (s', stored) := AddProduct(s, draft, today);
    assert s'[|s|].id == stored.id;
  }

  /** With unique ids, no product left after a delete carries the deleted id. */
  lemma DeleteRemovesId(s: Store, id: int)
    requires UniqueIds(s)
    ensures forall p :: p in DeleteProductById(s, id).0 ==> p.id != id
  {
    var (s', deleted) := DeleteProductById(s, id);
    if deleted {
      var i := FindIndex(s, id).value;
      forall p | p in s'
        ensures p.id != id
      {
        var k :| 0 <= k < |s'| && s'[k] == p;
        if k < i {
          assert p == s[k];
        } else {
          assert p == s[k + 1];
        }
      }
    }
  }

  /** After deleting an id from a list with unique ids, no query returns that id. */
  lemma DeletedIdIsNotListed(s: Store, id: int, criteria: Criteria, page: Int32, size: Int32, sortBy: string, sortOrder: string)
    requires UniqueIds(s)
    ensures var r := Query(DeleteProductById(s, id).0, criteria, page, size, sortBy, sortOrder);
      r.Ok? ==> forall p :: p in r.value.products ==> p.id != id
  {
    DeleteRemovesId(s, id);
  }

  /** After `updateProduct` succeeds, an unfiltered query lists the record with the new fields. */
  lemma UpdatedProductIsListed(s: Store, id: int, upd: Product, today: Day, size: Int32, sortBy: string, sortOrder: string)
    requires HasId(s, id) && |s| <= size
    ensures var r := Query(UpdateProduct(s, id, upd, today).0, NoCriteria, 0, size, sortBy, sortOrder);
      r.Ok? && exists p :: (p in r.value.products && p.id == id && p.name == upd.name &&
        p.quantityInStock == upd.quantityInStock && p.updateDate == today)
  {
    var s' := UpdateProduct(s, id, upd, today).0;
    var i := FindIndex(s, id).value;
    ListedWhenPageHoldsAll(s', s'[i], size, sortBy, sortOrder);
  }

  /** After `restoreProductStock` succeeds, an unfiltered query lists the record with stock 10. */
  lemma RestoredStockIsListed(s: Store, id: int, today: Day, size: Int32, sortBy: string, sortOrder: string)
    requires HasId(s, id) && |s| <= size
    ensures var r := Query(RestoreProductStock(s, id, today).0, NoCriteria, 0, size, sortBy, sortOrder);
      r.Ok? && exists p :: p in r.value.products && p.id == id && p.quantityInStock == 10
  {
    var s' := RestoreProductStock(s, id, today).0;
    var i := FindIndex(s, id).value;
    ListedWhenPageHoldsAll(s', s'[i], size, sortBy, sortOrder);
  }

  /** Every product keeps its id and position under update, mark and restore. */
  ghost predicate SameIds(a: Store, b: Store) {
    |a| == |b| && forall j :: 0 <= j < |a| ==> a[j].id == b[j].id
  }

  lemma InPlaceMutationsKeepIds(s: Store, id: int, upd: Product, today: Day)
    ensures SameIds(UpdateProduct(s, id, upd, today).0, s)
    ensures SameIds(MarkProductOutOfStock(s, id, today).0, s)
    ensures SameIds(RestoreProductStock(s, id, today).0, s)
    ensures UniqueIds(s) ==> UniqueIds(UpdateProduct(s, id, upd, today).0)
  {
  }

  /** `FindIndex` depends on ids only, so it is unchanged by an in-place mutation. */
  lemma {:induction false} FindIndexSameIds(a: Store, b: Store, id: int)
    requires SameIds(a, b)
    ensures FindIndex(a, id) == FindIndex(b, id)
  {
    if |a| > 0 {
      FindIndexSameIds(a[1..], b[1..], id);
    }
  }

  /** Repeating an update with the same arguments changes nothing more. */
  lemma UpdateIdempotent(s: Store, id: int, upd: Product, today: Day)
    ensures var once := UpdateProduct(s, id, upd, today).0;
      UpdateProduct(once, id, upd, today) == (once, HasId(s, id))
  {
    var once := UpdateProduct(s, id, upd, today).0;
    FindIndexSameIds(once, s, id);
    if HasId(s, id) {
      var i := FindIndex(s, id).value;
      assert Overwrite(once[i], upd, today) == once[i];
      assert once[i := once[i]] == once;
    }
  }

  /** Marking out of stock and then restoring is the same as restoring directly. */
  lemma RestoreAfterMark(s: Store, id: int, day1: Day, day2: Day)
    ensures RestoreProductStock(MarkProductOutOfStock(s, id, day1).0, id, day2) == RestoreProductStock(s, id, day2)
  {
    var marked := MarkProductOutOfStock(s, id, day1).0;
    FindIndexSameIds(marked, s, id);
    if HasId(s, id) {
      var i := FindIndex(s, id).value;
      assert marked[i := marked[i].(quantityInStock := RestockQuantity, updateDate := day2)]
          == s[i := s[i].(quantityInStock := RestockQuantity, updateDate := day2)];
    }
  }

  /** Deleting keeps ids unique. */
  lemma DeleteKeepsUniqueIds(s: Store, id: int)
    requires UniqueIds(s)
    ensures UniqueIds(DeleteProductById(s, id).0)
  {
    var (s', deleted) := DeleteProductById(s, id);
    if deleted {
      var i := FindIndex(s, id).value;
      forall a, b | 0 <= a < b < |s'|
        ensures s'[a].id != s'[b].id
      {
        var a' := if a < i then a else a + 1;
        var b' := if b < i then b else b + 1;
        assert s'[a] == s[a'] && s'[b] == s[b'];
      }
    }
  }

  /** While every id is at most the list's length (as after the preload), adding
      keeps ids unique. */
  lemma AddKeepsUniqueIdsWhenDense(s: Store, draft: Product, today: Day)
    requires UniqueIds(s)
    requires forall j :: 0 <= j < |s| ==> s[j].id <= |s|
    ensures UniqueIds(AddProduct(s, draft, today).0)
  {
    var s' := AddProduct(s, draft, today).0;
    forall a, b | 0 <= a < b < |s'|
      ensures s'[a].id != s'[b].id
    {
      if b < |s| {
        assert s'[a] == s[a] && s'[b] == s[b];
      } else {
        assert s'[a] == s[a];
      }
    }
  }

  /** Ids come from the list's size, so after a delete the next add can reuse a
      live id: delete id 1 from `[1, 2]`, then add, and two products carry id 2. */
  lemma AddAfterDeleteReusesId(a: Product, b: Product, draft: Product, today: Day)
    requires a.id == 1 && b.id == 2
    ensures var afterDelete := DeleteProductById([a, b], 1).0;
      var afterAdd := AddProduct(afterDelete, draft, today).0;
      afterAdd[0].id == afterAdd[1].id == 2 && !UniqueIds(afterAdd)
  {
    assert FindIndex([a, b], 1) == Some(0);
    assert DeleteProductById([a, b], 1).0 == [b];
  }

  function Mouse(today: Day): Product {
    Product(1, "Mouse", "Electronics", 10, None, 2, today, today)
  }

  function Pants(today: Day): Product {
    Product(2, "Pants", "Clothing", 11, None, 0, today, today)
  }

  /** The totals over the mouse and the pants. */
  lemma ScenarioTally(today: Day)
    ensures Tally([Mouse(today), Pants(today)])
         == Totals(map["Electronics" := 2, "Clothing" := 0], map["Electronics" := 20, "Clothing" := 0], 2, 20)
  {
    var s := [Mouse(today), Pants(today)];
    var first := Step(NoTotals, Mouse(today));
    assert first == Totals(map["Electronics" := 2], map["Electronics" := 20], 2, 20);
    var second := Step(first, Pants(today));
    assert second == Totals(map["Electronics" := 2, "Clothing" := 0], map["Electronics" := 20, "Clothing" := 0], 2, 20);
    assert s[1..] == [Pants(today)];
    assert Tally(s) == TallyFrom(first, [Pants(today)]);
    assert [Pants(today)][1..] == [];
    assert TallyFrom(first, [Pants(today)]) == TallyFrom(second, []);
  }

  /** Asking for products in stock keeps the mouse and drops the pants. */
  lemma ScenarioOrdered(today: Day)
    ensures Ordered([Mouse(today), Pants(today)], Criteria(None, None, Some(true)), "name", "asc") == [Mouse(today)]
  {
    var s := [Mouse(today), Pants(today)];
    var c := Criteria(None, None, Some(true));
    assert Matches(c, Mouse(today)) && !Matches(c, Pants(today));
    assert s[1..] == [Pants(today)];
    assert Filter(c, s) == [Mouse(today)];
  }

  /** A mouse in stock and a pair of pants out of stock: asking for products in
      stock lists the mouse alone, while the totals still cover both. */
  lemma InStockScenario(today: Day)
    ensures var r := Query([Mouse(today), Pants(today)], Criteria(None, None, Some(true)), 0, 10, "name", "asc");
      && r.Ok? && r.value.products == [Mouse(today)] && r.value.totalProducts == 1 && r.value.totalPages == 1
      && r.value.totalStock == 2 && r.value.totalValue == 20
      && r.value.categoryStock == map["Electronics" := 2, "Clothing" := 0]
  {
    var store := [Mouse(today), Pants(today)];
    var criteria := Criteria(None, None, Some(true));
    ScenarioOrdered(today);
    ScenarioTally(today);
    QueryAt(store, criteria, 0, 10, "name", "asc", 0);
    assert Window([Mouse(today)], 0, 10) == [Mouse(today)];
  }
}
