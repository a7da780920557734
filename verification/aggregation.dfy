/** The totals `getProducts` reports: stock and value per category and overall,
    always over the whole product list. */
module Aggregation {
  import opened JavaInt
  import opened Products

  /** What the accumulation loop leaves behind. Stock sums are Java `int`s and wrap;
      value sums stand in for the `double` ones and do not. */
  datatype Totals = Totals(
    categoryStock: map<string, int>,
    categoryValue: map<string, int>,
    totalStock: int,
    totalValue: int)

  /** `unitPrice * quantityInStock`. */
  function Value(p: Product): int {
    p.unitPrice * p.quantityInStock
  }

  function StockSum(s: Store): int {
    if |s| == 0 then 0 else s[0].quantityInStock + StockSum(s[1..])
  }

  function ValueSum(s: Store): int {
    if |s| == 0 then 0 else Value(s[0]) + ValueSum(s[1..])
  }

  /** The products whose category is exactly `c` (map keys are case-sensitive). */
  function OfCategory(s: Store, c: string): Store {
    if |s| == 0 then []
    else if s[0].category == c then [s[0]] + OfCategory(s[1..], c)
    else OfCategory(s[1..], c)
  }

  /** `OfCategory` keeps exactly the products of category `c`. */
  lemma {:induction false} OfCategoryMembers(s: Store, c: string, p: Product)
    ensures p in OfCategory(s, c) <==> p in s && p.category == c
  {
    if |s| > 0 {
      OfCategoryMembers(s[1..], c, p);
      assert s == [s[0]] + s[1..];
    }
  }

  /** The categories present in the list. */
  ghost function Categories(s: Store): set<string> {
    set p | p in s :: p.category
  }

  function GetOrDefault(m: map<string, int>, k: string, d: int): int {
    if k in m then m[k] else d
  }

  const NoTotals: Totals := Totals(map[], map[], 0, 0)

  /** The `for (Product product : productList)` loop: starting from `acc`, visit
      the products front to back, applying `Step` to each. */
  function TallyFrom(acc: Totals, s: Store): Totals
    decreases |s|
  {
    if |s| == 0 then acc else TallyFrom(Step(acc, s[0]), s[1..])
  }

  /** The loop as the service runs it, from empty maps and zero totals. */
  function Tally(s: Store): Totals {
    TallyFrom(NoTotals, s)
  }

  /** One iteration: `put(c, getOrDefault(c, 0) + ...)` on both maps and `+=` on both totals. */
  function Step(acc: Totals, p: Product): Totals {
    var c := p.category;
    Totals(
      acc.categoryStock[c := Wrap(GetOrDefault(acc.categoryStock, c, 0) + p.quantityInStock)],
      acc.categoryValue[c := GetOrDefault(acc.categoryValue, c, 0) + Value(p)],
      Wrap(acc.totalStock + p.quantityInStock),
      acc.totalValue + Value(p))
  }

  lemma {:induction false} TallyFromTotals(acc: Totals, s: Store)
    requires InRange(acc.totalStock)
    ensures TallyFrom(acc, s).totalStock == Wrap(acc.totalStock + StockSum(s))
    ensures TallyFrom(acc, s).totalValue == acc.totalValue + ValueSum(s)
    decreases |s|
  {
    if |s| > 0 {
      TallyFromTotals(Step(acc, s[0]), s[1..]);
      WrapAdd(acc.totalStock + s[0].quantityInStock, StockSum(s[1..]));
    }
  }

  lemma {:induction false} TallyFromKeys(acc: Totals, s: Store)
    ensures TallyFrom(acc, s).categoryStock.Keys == acc.categoryStock.Keys + Categories(s)
    ensures TallyFrom(acc, s).categoryValue.Keys == acc.categoryValue.Keys + Categories(s)
    decreases |s|
  {
    if |s| > 0 {
      TallyFromKeys(Step(acc, s[0]), s[1..]);
      CategoriesCons(s);
    }
  }

  lemma CategoriesCons(s: Store)
    requires |s| > 0
    ensures Categories(s) == {s[0].category} + Categories(s[1..])
  {
    assert s == [s[0]] + s[1..];
  }

  lemma StepCategoryStock(acc: Totals, p: Product, c: string)
    ensures GetOrDefault(Step(acc, p).categoryStock, c, 0)
         == if p.category == c then Wrap(GetOrDefault(acc.categoryStock, c, 0) + p.quantityInStock)
            else GetOrDefault(acc.categoryStock, c, 0)
  {
  }

  lemma OfCategoryStockCons(s: Store, c: string)
    requires |s| > 0
    ensures StockSum(OfCategory(s, c))
         == (if s[0].category == c then s[0].quantityInStock else 0) + StockSum(OfCategory(s[1..], c))
  {
  }

  lemma {:induction false} TallyFromCategoryStock(acc: Totals, s: Store, c: string)
    requires InRange(GetOrDefault(acc.categoryStock, c, 0))
    ensures GetOrDefault(TallyFrom(acc, s).categoryStock, c, 0)
         == Wrap(GetOrDefault(acc.categoryStock, c, 0) + StockSum(OfCategory(s, c)))
    decreases |s|
  {
    if |s| > 0 {
      var next := Step(acc, s[0]);
      var prior := GetOrDefault(acc.categoryStock, c, 0);
      var own := if s[0].category == c then s[0].quantityInStock else 0;
      var rest := StockSum(OfCategory(s[1..], c));
      StepCategoryStock(acc, s[0], c);
      OfCategoryStockCons(s, c);
      TallyFromCategoryStock(next, s[1..], c);
      if s[0].category == c {
        WrapAdd(prior + own, rest);
      }
      assert GetOrDefault(TallyFrom(acc, s).categoryStock, c, 0)
          == GetOrDefault(TallyFrom(next, s[1..]).categoryStock, c, 0);
    }
  }

  lemma {:induction false} TallyFromCategoryValue(acc: Totals, s: Store, c: string)
    ensures GetOrDefault(TallyFrom(acc, s).categoryValue, c, 0)
         == GetOrDefault(acc.categoryValue, c, 0) + ValueSum(OfCategory(s, c))
    decreases |s|
  {
    if |s| > 0 {
      TallyFromCategoryValue(Step(acc, s[0]), s[1..], c);
    }
  }

  /** The loop computes, for exactly the categories present, the wrapped stock sum
      and the value sum of that category's products, and the wrapped stock sum and
      value sum of the whole list. */
  lemma TallyIsCategorySums(s: Store)
    ensures Tally(s).categoryStock.Keys == Categories(s)
    ensures Tally(s).categoryValue.Keys == Categories(s)
    ensures forall c :: c in Tally(s).categoryStock ==>
      Tally(s).categoryStock[c] == Wrap(StockSum(OfCategory(s, c)))
    ensures forall c :: c in Tally(s).categoryValue ==>
      Tally(s).categoryValue[c] == ValueSum(OfCategory(s, c))
    ensures Tally(s).totalStock == Wrap(StockSum(s))
    ensures Tally(s).totalValue == ValueSum(s)
  {
    TallyFromKeys(NoTotals, s);
    TallyFromTotals(NoTotals, s);
    forall c | c in Tally(s).categoryStock
      ensures Tally(s).categoryStock[c] == Wrap(StockSum(OfCategory(s, c)))
    {
      TallyFromCategoryStock(NoTotals, s, c);
    }
    forall c | c in Tally(s).categoryValue
      ensures Tally(s).categoryValue[c] == ValueSum(OfCategory(s, c))
    {
      TallyFromCategoryValue(NoTotals, s, c);
    }
  }

  /** Sum of a category-keyed quantity over a list of categories. */
  function StockOverCategories(s: Store, cs: seq<string>): int {
    if |cs| == 0 then 0 else StockSum(OfCategory(s, cs[0])) + StockOverCategories(s, cs[1..])
  }

  /** `p`'s stock counted once for every occurrence of its category in `cs`. */
  function StockShare(p: Product, cs: seq<string>): int {
    if |cs| == 0 then 0
    else (if cs[0] == p.category then p.quantityInStock else 0) + StockShare(p, cs[1..])
  }

  lemma {:induction false} StockOverCategoriesCons(p: Product, t: Store, cs: seq<string>)
    ensures StockOverCategories([p] + t, cs) == StockShare(p, cs) + StockOverCategories(t, cs)
  {
    if |cs| > 0 {
      assert ([p] + t)[1..] == t;
      StockOverCategoriesCons(p, t, cs[1..]);
    }
  }

  lemma {:induction false} StockShareOnce(p: Product, cs: seq<string>)
    requires forall i, j :: 0 <= i < j < |cs| ==> cs[i] != cs[j]
    ensures StockShare(p, cs) == if p.category in cs then p.quantityInStock else 0
  {
    if |cs| > 0 {
      StockShareOnce(p, cs[1..]);
    }
  }

  /** The grand stock total is the sum of the per-category totals, over any
      duplicate-free list that names every category present. */
  lemma {:induction false} StockSumByCategory(s: Store, cs: seq<string>)
    requires forall i, j :: 0 <= i < j < |cs| ==> cs[i] != cs[j]
    requires forall p :: p in s ==> p.category in cs
    ensures StockSum(s) == StockOverCategories(s, cs)
  {
    if |s| == 0 {
      assert StockOverCategories(s, cs) == 0 by {
        ZeroOverCategories(s, cs);
      }
    } else {
      var p, t := s[0], s[1..];
      assert s == [p] + t;
      StockOverCategoriesCons(p, t, cs);
      StockShareOnce(p, cs);
      StockSumByCategory(t, cs);
    }
  }

  lemma {:induction false} ZeroOverCategories(s: Store, cs: seq<string>)
    requires |s| == 0
    ensures StockOverCategories(s, cs) == 0
  {
    if |cs| > 0 {
      ZeroOverCategories(s, cs[1..]);
    }
  }
}
