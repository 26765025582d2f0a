/** The paging arithmetic both search services share: the page count
    `(int) Math.ceil((double) totalCount / size)` and the neighbour flags.
    The quotient is taken on integers; a `double` represents every count
    below 2^53 exactly, and for such counts the rounded quotient has the same
    ceiling as the exact one. */
module PageMath {
  import opened JavaInt

  const DEFAULT_PAGE_INDEX: Int32 := 0
  const DEFAULT_PAGE_SIZE: Int32 := 20

  /** Counts the model covers: those a `double` holds exactly. */
  const COUNT_LIMIT: int := 0x20_0000_0000_0000
  type Count = x: int | 0 <= x < COUNT_LIMIT

  /** The least `q` with `q * d >= n`. */
  function CeilDiv(n: nat, d: nat): (q: nat)
    requires d > 0
    ensures q * d >= n
    ensures q > 0 ==> (q - 1) * d < n
  {
    var q := (n + d - 1) / d;
    var r := (n + d - 1) % d;
    assert q * d + r == n + d - 1;
    q
  }

  /** `size == 0 ? 0 : (int) Math.ceil((double) totalCount / size)` */
  function TotalPages(count: Count, size: Int32): (r: Int32)
    requires size >= 0
    ensures r >= 0
    ensures count == 0 || size == 0 <==> r == 0
  {
    if size == 0 then 0 else SaturatingCast(CeilDiv(count, size))
  }

  /** `page > 0` */
  predicate HasPrevious(page: Int32) {
    page > 0
  }

  /** `page + 1 < totalPages`, with `page + 1` computed on `int`. */
  predicate HasNext(page: Int32, totalPages: Int32) {
    Add(page, 1) < totalPages
  }

  /** For a non-negative page below `Integer.MAX_VALUE`, there is a next page
      exactly when some item lies beyond the current one. */
  lemma {:induction false} HasNextIff(page: Int32, count: Count, size: Int32)
    requires 0 <= page < MAX && size > 0 && CeilDiv(count, size) <= MAX
    ensures HasNext(page, TotalPages(count, size)) <==> (page + 1) * size < count
  {
    var t := TotalPages(count, size);
    if page + 1 < t {
      assert (page + 1) * size <= (t - 1) * size by {
        MulMonotone(page + 1, t - 1, size);
      }
    } else if (page + 1) * size < count {
      MulMonotone(t, page + 1, size);
    }
  }

  lemma MulMonotone(a: int, b: int, c: nat)
    ensures a <= b ==> a * c <= b * c
  {
  }

  /** On the largest `int` page, `page + 1` wraps to `Integer.MIN_VALUE`, so
      a next page is announced whatever the count. */
  lemma HasNextAtMaxPage(totalPages: Int32)
    requires totalPages >= 0
    ensures HasNext(MAX, totalPages)
  {
  }
}
