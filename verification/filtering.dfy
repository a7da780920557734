/** The first stage of `getProducts`: the three stream filters on name,
    category and stock status. */
module Filtering {
  import opened Wrappers
  import opened Text
  import opened Products

  /** The optional query arguments; `None` is a `null` argument, which lets every product through. */
  datatype Criteria = Criteria(name: Option<string>, category: Option<string>, inStock: Option<bool>)

  const NoCriteria: Criteria := Criteria(None, None, None)

  predicate NameMatches(c: Criteria, p: Product) {
    c.name.None? || ContainsIgnoreCase(p.name, c.name.value)
  }

  predicate CategoryMatches(c: Criteria, p: Product) {
    c.category.None? || EqualsIgnoreCase(p.category, c.category.value)
  }

  /** `inStock == true` asks for stock above zero, `false` for stock exactly zero. */
  predicate StockMatches(c: Criteria, p: Product) {
    match c.inStock
    case None => true
    case Some(wanted) => if wanted then p.quantityInStock > 0 else p.quantityInStock == 0
  }

  /** A product survives the filter when it passes all three tests. */
  predicate Matches(c: Criteria, p: Product) {
    NameMatches(c, p) && CategoryMatches(c, p) && StockMatches(c, p)
  }

  /** The three tests in terms of occurrence and case-folded equality: the name
      holds the query as a block once both are lowered, the category equals the
      query once both are lowered, and the stock is positive or zero as asked. */
  lemma MatchesMeaning(c: Criteria, p: Product)
    ensures Matches(c, p) <==>
      && (c.name.None? || exists i :: OccursAt(Lower(p.name), Lower(c.name.value), i))
      && (c.category.None? || Lower(p.category) == Lower(c.category.value))
      && (c.inStock == Some(true) ==> p.quantityInStock > 0)
      && (c.inStock == Some(false) ==> p.quantityInStock == 0)
  {
    if c.name.Some? {
      assert NameMatches(c, p) == Contains(Lower(p.name), Lower(c.name.value));
    }
  }

  /** `r` is `s` with some elements dropped and the rest in their original order. */
  ghost predicate Subsequence(r: Store, s: Store)
    decreases |s|
  {
    if |r| == 0 then true
    else if |s| == 0 then false
    else if r[0] == s[0] then Subsequence(r[1..], s[1..])
    else Subsequence(r, s[1..])
  }

  /** The filtered list: exactly the matching products of `s`, in list order. */
  function Filter(c: Criteria, s: Store): (r: Store)
    ensures forall p :: p in r <==> p in s && Matches(c, p)
    ensures Subsequence(r, s)
    ensures |r| <= |s|
  {
    if |s| == 0 then []
    else if Matches(c, s[0]) then [s[0]] + Filter(c, s[1..])
    else Filter(c, s[1..])
  }

  /** Filtering keeps every matching copy and no other: multiplicities carry over. */
  lemma {:induction false} FilterMultiplicity(c: Criteria, s: Store, p: Product)
    ensures multiset(Filter(c, s))[p] == if Matches(c, p) then multiset(s)[p] else 0
  {
    if |s| > 0 {
      FilterMultiplicity(c, s[1..], p);
      assert s == [s[0]] + s[1..];
    }
  }

  /** Filtering a concatenation filters each part in turn, so relative order is kept. */
  lemma {:induction false} FilterConcat(c: Criteria, a: Store, b: Store)
    ensures Filter(c, a + b) == Filter(c, a) + Filter(c, b)
  {
    if |a| > 0 {
      assert (a + b)[1..] == a[1..] + b;
      FilterConcat(c, a[1..], b);
    } else {
      assert a + b == b;
    }
  }

  /** With no criteria the filter returns the whole list. */
  lemma {:induction false} FilterNoCriteria(s: Store)
    ensures Filter(NoCriteria, s) == s
  {
    if |s| > 0 {
      FilterNoCriteria(s[1..]);
      assert s == [s[0]] + s[1..];
    }
  }
}
