/** `MailLogSearchServiceImpl`: the typed search behind
    `/api/admin/mail/logs`. The condition's page and size are normalised and
    written back into the condition before the mapper queries run. */
module MailLogSearchServiceImpl {
  import opened Wrappers
  import opened JavaInt
  import opened Records
  import opened PageMath
  import MailSearchService

  /** The page the service uses: a missing or negative page becomes 0. */
  function NormalizePage(page: Option<Int32>): (r: Int32)
    ensures r >= 0
    ensures page.Some? && page.value >= 0 ==> r == page.value
    ensures page.None? || page.value < 0 ==> r == DEFAULT_PAGE_INDEX
  {
    var p := if page.Some? then page.value else DEFAULT_PAGE_INDEX;
    if p < 0 then DEFAULT_PAGE_INDEX else p
  }

  /** The size the service uses: a missing or non-positive size becomes 20. */
  function NormalizeSize(size: Option<Int32>): (r: Int32)
    ensures r > 0
    ensures size.Some? && size.value > 0 ==> r == size.value
    ensures size.None? || size.value <= 0 ==> r == DEFAULT_PAGE_SIZE
  {
    var s := if size.Some? then size.value else DEFAULT_PAGE_SIZE;
    if s <= 0 then DEFAULT_PAGE_SIZE else s
  }

  /** `search`. A `null` condition is replaced by an empty one; `effective`
      is the condition after `setPage`/`setSize`, which the caller's object
      also becomes; `count` and `find` stand for the mapper queries and
      `findCalls` records the `(offset, limit)` of every call to `find`. */
  method Search<T>(condition: Option<SearchCondition>, count: SearchCondition -> Count,
                   find: (SearchCondition, Int32, Int32) -> seq<T>)
    returns (response: MailLogSearchResponse<T>, effective: SearchCondition, findCalls: seq<(Int32, Int32)>)
    ensures var base := condition.GetOr(EmptyCondition);
            effective == base.(page := Some(NormalizePage(base.page)), size := Some(NormalizeSize(base.size)))
    ensures var page, size := effective.page.value, effective.size.value;
            var total := count(effective);
            && findCalls == (if total == 0 then [] else [(Mul(page, size), size)])
            && response.items == (if total == 0 then [] else find(effective, Mul(page, size), size))
            && response.totalCount == total && response.page == page && response.size == size
            && response.totalPages == TotalPages(total, size)
            && (response.hasPrevious <==> page > 0)
            && (response.hasNext <==> Add(page, 1) < response.totalPages)
  {
    effective := if condition.Some? then condition.value else EmptyCondition;

    var page := if effective.page.Some? then effective.page.value else DEFAULT_PAGE_INDEX;
    if page < 0 {
      page := DEFAULT_PAGE_INDEX;
    }

    var size := if effective.size.Some? then effective.size.value else DEFAULT_PAGE_SIZE;
    if size <= 0 {
      size := DEFAULT_PAGE_SIZE;
    }

    effective := effective.(page := Some(page));
    effective := effective.(size := Some(size));

    var offset := Mul(page, size);
    var totalCount := count(effective);
    var items: seq<T>;
    if totalCount == 0 {
      items := [];
      findCalls := [];
    } else {
      items := find(effective, offset, size);
      findCalls := [(offset, size)];
    }

    var totalPages := TotalPages(totalCount, size);
    var hasPrevious := page > 0;
    var hasNext := Add(page, 1) < totalPages;
    response := MailLogSearchResponse(items, totalCount, page, size, totalPages, hasNext, hasPrevious);
  }

  /** Normalising twice is normalising once. */
  lemma NormalizeIdempotent(page: Option<Int32>, size: Option<Int32>)
    ensures NormalizePage(Some(NormalizePage(page))) == NormalizePage(page)
    ensures NormalizeSize(Some(NormalizeSize(size))) == NormalizeSize(size)
  {
  }

  /** The typed service and the lenient one agree on the paging they derive
      from the same page and size. */
  lemma AgreesWithLenientSearch(page: Option<Int32>, size: Option<Int32>)
    ensures var p := MailSearchService.NormalizePaging(page, size);
            p.page == NormalizePage(page) && p.size == NormalizeSize(size)
  {
  }
}
