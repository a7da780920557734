/** The pagination stage of `getProducts`, with Java's 32-bit `int` arithmetic
    for the slice bounds and the `double` ceiling for the page count. */
module Paging {
  import opened Wrappers
  import opened JavaInt
  import opened Products

  /** What `subList(from, to)` threw: `IndexOutOfBoundsException` for a negative
      start, `IllegalArgumentException` for an end before the start. */
  datatype PageError = IndexOutOfBounds(from: int, to: int) | IllegalArgument(from: int, to: int)

  /** `(int) Math.ceil((double) total / size)`. For 32-bit operands the `double`
      quotient is close enough that its ceiling is the exact one. A zero size
      divides to infinity (cast to `Integer.MAX_VALUE`) or, for an empty list,
      to NaN (cast to 0). */
  function TotalPages(total: nat, size: Int32): (r: int)
    ensures size > 0 ==> CeilingOf(r, total, size)
    ensures size < 0 ==> r * size <= total < (r - 1) * size
    ensures size == 0 ==> r == if total == 0 then 0 else IntMax
  {
    if size > 0 then
      var r := (total + size - 1) / size;
      DivisionBounds(total + size - 1, size);
      MulPred(r, size);
      r
    else if size == 0 then
      if total == 0 then 0 else IntMax
    else
      var m: int := 0 - size as int;
      var q := total / m;
      DivisionBounds(total, m);
      MulPred(-q, size);
      assert -q * size == q * m;
      -q
  }

  /** `pages` pages of `size` items hold `total` items, and one page fewer would not. */
  ghost predicate CeilingOf(pages: int, total: int, size: int) {
    (pages - 1) * size < total <= pages * size
  }

  lemma DivisionBounds(n: int, d: int)
    requires d > 0
    ensures (n / d) * d <= n < (n / d) * d + d
  {
    assert n == (n / d) * d + n % d;
  }

  lemma MulPred(a: int, b: int)
    ensures (a - 1) * b == a * b - b
  {
  }

  /** Java's `fromIndex = page * size`. */
  function FromIndex(page: Int32, size: Int32): Int32 {
    Wrap(page * size)
  }

  /** Java's `toIndex = Math.min(fromIndex + size, totalProducts)`. */
  function ToIndex(page: Int32, size: Int32, total: nat): int {
    Min(Wrap(FromIndex(page, size) + size), total)
  }

  /** The slice bounds are the mathematical ones up to a multiple of 2^32, equal
      to them when nothing overflows, and the end never passes the list's end. */
  lemma PageBounds(page: Int32, size: Int32, total: nat)
    ensures (FromIndex(page, size) - page * size) % Modulus == 0
    ensures InRange(page * size) ==> FromIndex(page, size) == page * size
    ensures ToIndex(page, size, total) <= total
    ensures InRange(FromIndex(page, size) + size) ==>
      ToIndex(page, size, total) == Min(FromIndex(page, size) + size, total)
  {
    WrapCongruent(page * size);
  }

  /** The requested page of `s`: empty when `fromIndex` is at or past the end,
      otherwise `subList(fromIndex, toIndex)`, which checks a negative start
      first and an end before the start second. */
  function Paginate(s: Store, page: Int32, size: Int32): (r: Result<Store, PageError>)
    ensures r.Ok? ==> |r.value| <= Max(size, 0)
    ensures r.Ok? && |r.value| > 0 ==>
      var from := FromIndex(page, size);
      0 <= from && from + |r.value| <= |s| && r.value == s[from..from + |r.value|]
    ensures r.Err? && r.error.IndexOutOfBounds? <==> FromIndex(page, size) < 0
    ensures r.Err? && r.error.IllegalArgument? <==>
      0 <= FromIndex(page, size) < |s| && ToIndex(page, size, |s|) < FromIndex(page, size)
  {
    var from := FromIndex(page, size);
    var to := ToIndex(page, size, |s|);
    if from >= |s| then Ok([])
    else if from < 0 then Err(IndexOutOfBounds(from, to))
    else if to < from then Err(IllegalArgument(from, to))
    else Ok(s[from..to])
  }

  /** The page starting at index `from`: up to `size` items, none once `from`
      reaches the end (or lies before the start). */
  function Window(s: Store, from: int, size: nat): (r: Store)
    ensures |r| <= size
    ensures 0 <= from < |s| ==> |r| == Min(size, |s| - from)
    ensures forall k :: 0 <= k < |r| ==> 0 <= from + k < |s| && r[k] == s[from + k]
  {
    if 0 <= from < |s| then s[from..Min(from + size, |s|)] else []
  }

  /** A page whose start index `from` is in range and whose end does not
      overflow is the window of `size` items at `from`. `from` is
      `FromIndex(page, size)`, passed separately so the proof avoids the
      product `page * size`. */
  lemma PaginateAt(s: Store, page: Int32, size: Int32, from: int)
    requires FromIndex(page, size) == from && 0 <= from
    requires 0 <= size && from + size <= IntMax
    ensures Paginate(s, page, size) == Ok(Window(s, from, size))
  {
    assert Wrap(from + size) == from + size;
    assert ToIndex(page, size, |s|) == Min(from + size, |s|);
  }

  /** Without overflow, page `page` is `s[page*size .. min(page*size+size, |s|))`,
      empty once `page*size` reaches the end, and never longer than `size`. */
  lemma PaginateInRange(s: Store, page: Int32, size: Int32)
    requires 0 <= page && 0 < size && page * size + size <= IntMax
    ensures Paginate(s, page, size) == Ok(Window(s, page * size, size))
  {
    var from := page * size;
    assert 0 <= from;
    assert FromIndex(page, size) == from;
    PaginateAt(s, page, size, from);
  }

  /** Item `from + offset` of the list, where `from` is `page*size`, is item
      `offset` of page `page`: every item sits on exactly one page, at the
      position its index implies. `from` is passed separately so the proof
      avoids the product. */
  lemma PaginateLocates(s: Store, page: Int32, size: Int32, from: int, offset: int)
    requires from == page * size && 0 <= from
    requires 0 <= page && 0 <= offset < size && from + size <= IntMax
    requires from + offset < |s|
    ensures var r := Paginate(s, page, size);
      r.Ok? && offset < |r.value| && r.value[offset] == s[from + offset]
  {
    assert FromIndex(page, size) == from;
    PaginateAt(s, page, size, from);
  }

  /** A page size of zero yields an empty page rather than an error. */
  lemma PaginateZeroSize(s: Store, page: Int32)
    ensures Paginate(s, page, 0) == Ok([])
  {
  }

  /** A negative page with a positive size, when `page * size` does not wrap
      (is at least `Integer.MIN_VALUE`), makes `subList` throw, even on an empty
      list, since a negative `fromIndex` is never at or past the end. */
  lemma PaginateNegativePage(s: Store, page: Int32, size: Int32)
    requires page < 0 && 0 < size && IntMin <= page * size
    ensures Paginate(s, page, size) == Err(IndexOutOfBounds(page * size, ToIndex(page, size, |s|)))
  {
    assert page * size < 0;
  }

  /** A negative size makes the end fall before the start: page 0 of size -5
      over three items throws `IllegalArgumentException`. */
  lemma PaginateNegativeSize(s: Store)
    requires |s| == 3
    ensures Paginate(s, 0, -5) == Err(IllegalArgument(0, -5))
  {
    assert FromIndex(0, -5) == 0;
  }

  /** `fromIndex + size` can overflow: page -2 of size `Integer.MAX_VALUE` starts
      at index 2, and its end wraps to a negative number. */
  lemma PaginateEndOverflows(s: Store)
    requires |s| == 5
    ensures Paginate(s, -2, IntMax) == Err(IllegalArgument(2, -0x7fff_ffff))
  {
    assert -2 * IntMax == -0xffff_fffe;
    assert FromIndex(-2, IntMax) == 2;
    assert Wrap(2 + IntMax) == -0x7fff_ffff;
  }

  /** `page * size` wraps around: page 429496730 of size 10 starts at index 4,
      so a page far past the end returns items instead of nothing. */
  lemma PaginateOverflowWraps(s: Store)
    requires |s| == 20
    ensures Paginate(s, 429496730, 10) == Ok(s[4..14])
  {
    assert 429496730 * 10 == 4294967300;
    assert FromIndex(429496730, 10) == 4;
  }

  /** A negative page need not throw: when `page * size` wraps, page
      -1073741824 of size 4 starts at index 0 and returns the first items. */
  lemma PaginateNegativePageWraps(s: Store)
    requires |s| == 3
    ensures Paginate(s, -0x4000_0000, 4) == Ok(s[0..3])
  {
    assert -0x4000_0000 * 4 == -0x1_0000_0000;
    assert FromIndex(-0x4000_0000, 4) == 0;
  }

  /** `subList` checks the start before the end: page 1 of size -5 over three
      items starts at -5, so it throws `IndexOutOfBoundsException` although
      its end -10 is also before its start. */
  lemma PaginateNegativeStartFirst(s: Store)
    requires |s| == 3
    ensures Paginate(s, 1, -5) == Err(IndexOutOfBounds(-5, -10))
  {
    assert FromIndex(1, -5) == -5;
  }

  /** A negative size need not throw: page -1 of size -5 over three items
      starts at 5, past the end, so the page is empty. */
  lemma PaginateNegativeSizePastEnd(s: Store)
    requires |s| == 3
    ensures Paginate(s, -1, -5) == Ok([])
  {
    assert FromIndex(-1, -5) == 5;
  }
}
