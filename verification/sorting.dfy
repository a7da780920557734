/** The second stage of `getProducts`: the comparator chosen by `sortBy`,
    optionally reversed by `sortOrder`, and a stable sort. */
module Sorting {
  import opened Wrappers
  import Text
  import opened Products

  datatype SortKey = ByName | ByCategory | ByPrice | ByStock | ByExpiration

  datatype Direction = Ascending | Descending

  /** The `sortBy` string to key: the four recognised words, anything else sorts by name. */
  function ParseSortKey(sortBy: string): (k: SortKey)
    ensures k == ByCategory <==> sortBy == "category"
    ensures k == ByPrice <==> sortBy == "price"
    ensures k == ByStock <==> sortBy == "stock"
    ensures k == ByExpiration <==> sortBy == "expiration"
    ensures k == ByName <==> sortBy !in {"category", "price", "stock", "expiration"}
  {
    if sortBy == "category" then ByCategory
    else if sortBy == "price" then ByPrice
    else if sortBy == "stock" then ByStock
    else if sortBy == "expiration" then ByExpiration
    else ByName
  }

  /** Only the exact word `desc` reverses the comparator. */
  function ParseDirection(sortOrder: string): (d: Direction)
    ensures d == Descending <==> sortOrder == "desc"
  {
    if sortOrder == "desc" then Descending else Ascending
  }

  /** The sign of a numeric comparison, as `Integer.compare` / `Double.compare`. */
  function CompareInt(a: int, b: int): int {
    if a < b then -1 else if a > b then 1 else 0
  }

  /** `Comparator.nullsLast(naturalOrder())` on optional dates: a missing date
      is greater than every present one and equal to another missing one. */
  function CompareNullsLast(a: Option<Day>, b: Option<Day>): int {
    match (a, b)
    case (None, None) => 0
    case (None, Some(_)) => 1
    case (Some(_), None) => -1
    case (Some(x), Some(y)) => CompareInt(x, y)
  }

  /** The ascending comparator for `key`. */
  function Compare(key: SortKey, a: Product, b: Product): int {
    match key
    case ByName => Text.Compare(a.name, b.name)
    case ByCategory => Text.Compare(a.category, b.category)
    case ByPrice => CompareInt(a.unitPrice, b.unitPrice)
    case ByStock => CompareInt(a.quantityInStock, b.quantityInStock)
    case ByExpiration => CompareNullsLast(a.expirationDate, b.expirationDate)
  }

  /** `a` may come before `b` under the possibly `reversed()` comparator. */
  predicate Precedes(key: SortKey, dir: Direction, a: Product, b: Product) {
    match dir
    case Ascending => Compare(key, a, b) <= 0
    case Descending => Compare(key, b, a) <= 0
  }

  /** `a` and `b` compare equal; reversal does not change which pairs tie. */
  predicate Ties(key: SortKey, a: Product, b: Product) {
    Compare(key, a, b) == 0
  }

  lemma CompareAntisymmetric(key: SortKey, a: Product, b: Product)
    ensures Compare(key, a, b) == -Compare(key, b, a)
  {
    match key
    case ByName => Text.CompareAntisymmetric(a.name, b.name);
    case ByCategory => Text.CompareAntisymmetric(a.category, b.category);
    case _ =>
  }

  lemma CompareTransitive(key: SortKey, a: Product, b: Product, c: Product)
    requires Compare(key, a, b) <= 0 && Compare(key, b, c) <= 0
    ensures Compare(key, a, c) <= 0
  {
    match key
    case ByName => Text.CompareTransitive(a.name, b.name, c.name);
    case ByCategory => Text.CompareTransitive(a.category, b.category, c.category);
    case _ =>
  }

  /** The comparator for `key` reports a tie exactly when the two products agree
      on that key's field; absent expiration dates tie only with each other. */
  lemma TiesIffSameKey(key: SortKey, a: Product, b: Product)
    ensures Ties(key, a, b) <==> match key
      case ByName => a.name == b.name
      case ByCategory => a.category == b.category
      case ByPrice => a.unitPrice == b.unitPrice
      case ByStock => a.quantityInStock == b.quantityInStock
      case ByExpiration => a.expirationDate == b.expirationDate
  {
    match key
    case ByName => Text.CompareZeroIffEqual(a.name, b.name);
    case ByCategory => Text.CompareZeroIffEqual(a.category, b.category);
    case _ =>
  }

  /** Under `nullsLast`, an absent expiration date sorts after every present one. */
  lemma NullsAfterDates(a: Product, b: Product)
    requires a.expirationDate.Some? && b.expirationDate.None?
    ensures Precedes(ByExpiration, Ascending, a, b) && !Precedes(ByExpiration, Ascending, b, a)
    ensures Precedes(ByExpiration, Descending, b, a) && !Precedes(ByExpiration, Descending, a, b)
  {
  }

  /** `Precedes` is a total preorder whose two-way pairs are exactly the ties. */
  lemma PrecedesTotal(key: SortKey, dir: Direction, a: Product, b: Product)
    ensures Precedes(key, dir, a, b) || Precedes(key, dir, b, a)
    ensures Precedes(key, dir, a, b) && Precedes(key, dir, b, a) <==> Ties(key, a, b)
  {
    CompareAntisymmetric(key, a, b);
  }

  lemma PrecedesTransitive(key: SortKey, dir: Direction, a: Product, b: Product, c: Product)
    requires Precedes(key, dir, a, b) && Precedes(key, dir, b, c)
    ensures Precedes(key, dir, a, c)
  {
    if dir == Ascending {
      CompareTransitive(key, a, b, c);
    } else {
      CompareTransitive(key, c, b, a);
    }
  }

  lemma TiesTransitive(key: SortKey, a: Product, b: Product, c: Product)
    requires Ties(key, a, b) && Ties(key, b, c)
    ensures Ties(key, a, c)
  {
    CompareAntisymmetric(key, a, b);
    CompareAntisymmetric(key, b, c);
    CompareAntisymmetric(key, a, c);
    CompareTransitive(key, a, b, c);
    CompareTransitive(key, c, b, a);
  }

  /** Every earlier element may precede every later one. */
  ghost predicate Sorted(key: SortKey, dir: Direction, s: Store) {
    forall i, j :: 0 <= i < j < |s| ==> Precedes(key, dir, s[i], s[j])
  }

  /** The elements of `s` that tie with `z`, in the order `s` holds them. */
  function TiesOf(key: SortKey, z: Product, s: Store): (r: Store)
    ensures forall p :: p in r ==> p in s && Ties(key, p, z)
  {
    if |s| == 0 then []
    else if Ties(key, s[0], z) then [s[0]] + TiesOf(key, z, s[1..])
    else TiesOf(key, z, s[1..])
  }

  /** A stable sort keeps every class of tying elements in input order. */
  ghost predicate StableWrt(key: SortKey, r: Store, s: Store) {
    forall z :: TiesOf(key, z, r) == TiesOf(key, z, s)
  }

  /** Puts `x` in front of the first element it may precede. */
  function Insert(key: SortKey, dir: Direction, x: Product, t: Store): (r: Store)
    ensures multiset(r) == multiset(t) + multiset{x}
    ensures |r| == |t| + 1
  {
    if |t| == 0 then [x]
    else if Precedes(key, dir, x, t[0]) then [x] + t
    else
      assert t == [t[0]] + t[1..];
      [t[0]] + Insert(key, dir, x, t[1..])
  }

  /** `List.sort` with the chosen comparator: a stable insertion sort. */
  function Sort(key: SortKey, dir: Direction, s: Store): (r: Store)
    ensures multiset(r) == multiset(s)
    ensures |r| == |s|
  {
    if |s| == 0 then []
    else
      assert s == [s[0]] + s[1..];
      Insert(key, dir, s[0], Sort(key, dir, s[1..]))
  }

  /** A sorted list stays sorted under a new head that may precede all of it. */
  lemma SortedCons(key: SortKey, dir: Direction, a: Product, t: Store)
    requires Sorted(key, dir, t)
    requires forall j :: 0 <= j < |t| ==> Precedes(key, dir, a, t[j])
    ensures Sorted(key, dir, [a] + t)
  {
    var r := [a] + t;
    forall i, j | 0 <= i < j < |r|
      ensures Precedes(key, dir, r[i], r[j])
    {
      assert r[j] == t[j - 1];
      if i > 0 {
        assert r[i] == t[i - 1];
      }
    }
  }

  lemma {:induction false} InsertSorted(key: SortKey, dir: Direction, x: Product, t: Store)
    requires Sorted(key, dir, t)
    ensures Sorted(key, dir, Insert(key, dir, x, t))
  {
    if |t| == 0 {
    } else if Precedes(key, dir, x, t[0]) {
      forall j | 0 <= j < |t|
        ensures Precedes(key, dir, x, t[j])
      {
        if j > 0 {
          PrecedesTransitive(key, dir, x, t[0], t[j]);
        }
      }
      SortedCons(key, dir, x, t);
    } else {
      var rest := Insert(key, dir, x, t[1..]);
      InsertSorted(key, dir, x, t[1..]);
      PrecedesTotal(key, dir, x, t[0]);
      forall j | 0 <= j < |rest|
        ensures Precedes(key, dir, t[0], rest[j])
      {
        assert rest[j] in multiset(rest);
        if rest[j] != x {
          assert rest[j] in multiset(t[1..]);
          var k :| 0 <= k < |t[1..]| && t[1..][k] == rest[j];
          assert t[k + 1] == rest[j];
        }
      }
      SortedCons(key, dir, t[0], rest);
    }
  }

  /** The sorted list is ordered by the chosen comparator. */
  lemma {:induction false} SortSorted(key: SortKey, dir: Direction, s: Store)
    ensures Sorted(key, dir, Sort(key, dir, s))
  {
    if |s| > 0 {
      SortSorted(key, dir, s[1..]);
      InsertSorted(key, dir, s[0], Sort(key, dir, s[1..]));
    }
  }

  /** Inserting `x` into a sorted list passes over no element that ties with `x`. */
  lemma {:induction false} InsertTiesOf(key: SortKey, dir: Direction, x: Product, t: Store, z: Product)
    requires Sorted(key, dir, t)
    ensures TiesOf(key, z, Insert(key, dir, x, t)) == TiesOf(key, z, [x] + t)
  {
    if |t| > 0 && !Precedes(key, dir, x, t[0]) {
      assert Sorted(key, dir, t[1..]);
      InsertTiesOf(key, dir, x, t[1..], z);
      var rest := Insert(key, dir, x, t[1..]);
      assert ([t[0]] + rest)[1..] == rest;
      assert ([x] + t[1..])[1..] == t[1..];
      assert ([x] + t)[1..] == t;
      if Ties(key, t[0], z) && Ties(key, x, z) {
        CompareAntisymmetric(key, x, z);
        TiesTransitive(key, t[0], z, x);
        PrecedesTotal(key, dir, t[0], x);
        assert false;
      }
    }
  }

  lemma {:induction false} SortTiesOf(key: SortKey, dir: Direction, s: Store, z: Product)
    ensures TiesOf(key, z, Sort(key, dir, s)) == TiesOf(key, z, s)
  {
    if |s| > 0 {
      var t := Sort(key, dir, s[1..]);
      SortSorted(key, dir, s[1..]);
      InsertTiesOf(key, dir, s[0], t, z);
      TiesOfHead(key, z, [s[0]] + t);
      assert ([s[0]] + t)[1..] == t;
      SortTiesOf(key, dir, s[1..], z);
    }
  }

  /** Equal-key products keep their filtered order, in both directions. */
  lemma SortStable(key: SortKey, dir: Direction, s: Store)
    ensures StableWrt(key, Sort(key, dir, s), s)
  {
    forall z
      ensures TiesOf(key, z, Sort(key, dir, s)) == TiesOf(key, z, s)
    {
      SortTiesOf(key, dir, s, z);
    }
  }

  lemma {:induction false} TiesOfHead(key: SortKey, z: Product, s: Store)
    requires |s| > 0
    ensures TiesOf(key, z, s) == if Ties(key, s[0], z) then [s[0]] + TiesOf(key, z, s[1..]) else TiesOf(key, z, s[1..])
  {
  }

  lemma SortedHeadPrecedesAll(key: SortKey, dir: Direction, r: Store, x: Product)
    requires Sorted(key, dir, r) && x in r
    ensures Precedes(key, dir, r[0], x)
  {
    CompareAntisymmetric(key, x, x);
    var i :| 0 <= i < |r| && r[i] == x;
    if i > 0 {
      assert Precedes(key, dir, r[0], r[i]);
    }
  }

  lemma SortedTail(key: SortKey, dir: Direction, r: Store)
    requires Sorted(key, dir, r) && |r| > 0
    ensures Sorted(key, dir, r[1..])
  {
    forall i, j | 0 <= i < j < |r| - 1
      ensures Precedes(key, dir, r[1..][i], r[1..][j])
    {
      assert r[1..][i] == r[i + 1] && r[1..][j] == r[j + 1];
    }
  }

  /** Two sorted, mutually stable permutations start with the same element. */
  lemma StableHeadsEqual(key: SortKey, dir: Direction, r1: Store, r2: Store)
    requires |r1| > 0 && multiset(r1) == multiset(r2)
    requires Sorted(key, dir, r1) && Sorted(key, dir, r2)
    requires StableWrt(key, r1, r2)
    ensures |r2| > 0 && r1[0] == r2[0]
  {
    assert r1[0] in multiset(r2);
    var a, b := r1[0], r2[0];
    assert b in multiset(r1);
    SortedHeadPrecedesAll(key, dir, r2, a);
    SortedHeadPrecedesAll(key, dir, r1, b);
    PrecedesTotal(key, dir, a, b);
    CompareAntisymmetric(key, a, b);
    CompareAntisymmetric(key, a, a);
    assert Ties(key, a, a) && Ties(key, b, a);
    TiesOfHead(key, a, r1);
    TiesOfHead(key, a, r2);
    assert TiesOf(key, a, r1)[0] == a;
    assert TiesOf(key, a, r2)[0] == b;
  }

  lemma StableTails(key: SortKey, r1: Store, r2: Store)
    requires |r1| > 0 && |r2| > 0 && r1[0] == r2[0]
    requires StableWrt(key, r1, r2)
    ensures StableWrt(key, r1[1..], r2[1..])
  {
    forall z
      ensures TiesOf(key, z, r1[1..]) == TiesOf(key, z, r2[1..])
    {
      TiesOfHead(key, z, r1);
      TiesOfHead(key, z, r2);
      var t1, t2 := TiesOf(key, z, r1[1..]), TiesOf(key, z, r2[1..]);
      assert TiesOf(key, z, r1) == TiesOf(key, z, r2);
      if Ties(key, r1[0], z) {
        assert ([r1[0]] + t1)[1..] == t1;
        assert ([r2[0]] + t2)[1..] == t2;
      }
    }
  }

  /** The result of a stable sort is unique: any sorted permutation that keeps
      every tie class in order is the list `Sort` returns, whatever algorithm produced it. */
  lemma {:induction false} StableSortUnique(key: SortKey, dir: Direction, r1: Store, r2: Store)
    requires multiset(r1) == multiset(r2)
    requires Sorted(key, dir, r1) && Sorted(key, dir, r2)
    requires StableWrt(key, r1, r2)
    ensures r1 == r2
    decreases |r1|
  {
    if |r1| == 0 {
      assert |r2| == |multiset(r2)| == 0;
    } else {
      StableHeadsEqual(key, dir, r1, r2);
      assert r1 == [r1[0]] + r1[1..] && r2 == [r2[0]] + r2[1..];
      assert multiset(r1[1..]) == multiset(r1) - multiset{r1[0]};
      assert multiset(r2[1..]) == multiset(r2) - multiset{r2[0]};
      SortedTail(key, dir, r1);
      SortedTail(key, dir, r2);
      StableTails(key, r1, r2);
      StableSortUnique(key, dir, r1[1..], r2[1..]);
    }
  }

  /** Any stable sort with the chosen comparator returns exactly `Sort`'s list. */
  lemma SortIsTheStableSort(key: SortKey, dir: Direction, s: Store, r: Store)
    requires multiset(r) == multiset(s)
    requires Sorted(key, dir, r) && StableWrt(key, r, s)
    ensures r == Sort(key, dir, s)
  {
    SortSorted(key, dir, s);
    SortStable(key, dir, s);
    StableSortUnique(key, dir, r, Sort(key, dir, s));
  }

  /** Ascending by expiration: every dated product precedes every undated one. */
  lemma ExpirationAscendingNullsLast(s: Store)
    ensures var r := Sort(ByExpiration, Ascending, s);
      forall i, j :: 0 <= i < j < |r| && r[i].expirationDate.None? ==> r[j].expirationDate.None?
  {
    SortSorted(ByExpiration, Ascending, s);
  }

  /** Descending by expiration: the whole nulls-last comparator is reversed, so
      every undated product precedes every dated one. */
  lemma ExpirationDescendingNullsFirst(s: Store)
    ensures var r := Sort(ByExpiration, Descending, s);
      forall i, j :: 0 <= i < j < |r| && r[i].expirationDate.Some? ==> r[j].expirationDate.Some?
  {
    SortSorted(ByExpiration, Descending, s);
  }
}
