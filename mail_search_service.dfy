/** `MailSearchService`: the lenient search behind `/admin/api/mail/list`.
    Raw request parameters are trimmed, blank ones dropped, unparseable
    numbers ignored, the page converted from 1-based to 0-based and the
    paging normalised before the count and the page of rows are fetched. */
module MailSearchService {
  import opened Wrappers
  import opened JavaInt
  import opened Text
  import opened Records
  import opened PageMath

  /** `extract`: the trimmed value, or `None` when it is absent or blank. */
  function Extract(params: map<string, string>, key: string): (r: Option<string>)
    ensures r.None? <==> key !in params || JavaTrim(params[key]) == []
    ensures r.Some? ==> r.value == JavaTrim(params[key]) && r.value != []
  {
    if key in params && JavaTrim(params[key]) != [] then Some(JavaTrim(params[key])) else None
  }

  /** `resolveSubjectKeyword`: a non-blank `subjectKeyword` wins over
      `subject`. */
  function ResolveSubjectKeyword(params: map<string, string>): (r: Option<string>)
    ensures Extract(params, "subjectKeyword").Some? ==> r == Extract(params, "subjectKeyword")
    ensures Extract(params, "subjectKeyword").None? ==> r == Extract(params, "subject")
  {
    var keyword := Extract(params, "subjectKeyword");
    if keyword.Some? then keyword else Extract(params, "subject")
  }

  /** `parseInteger`: `Integer.valueOf` of the extracted value, with a
      missing value and a `NumberFormatException` both giving `None`. */
  function ParseInteger(params: map<string, string>, key: string): Option<Int32> {
    match Extract(params, key)
    case None => None
    case Some(value) => ParseInt(value)
  }

  /** `parsePage`: the 1-based page parameter made 0-based, floored at 0.
      `raw - 1` is `int` arithmetic. */
  function ParsePage(params: map<string, string>): (r: Option<Int32>)
    ensures r.None? <==> ParseInteger(params, "page").None?
    ensures r.Some? ==> r.value >= 0
  {
    match ParseInteger(params, "page")
    case None => None
    case Some(raw) =>
      var zeroBased := Sub(raw, 1);
      Some(if zeroBased > DEFAULT_PAGE_INDEX then zeroBased else DEFAULT_PAGE_INDEX)
  }

  /** `Paging`, the normalised page index and size. */
  datatype Paging = Paging(page: Int32, size: Int32) {
    /** `page * size` on `int`. */
    function Offset(): (r: Int32)
      ensures 0 <= page * size <= MAX ==> r == page * size
    {
      Mul(page, size)
    }
  }

  /** `normalizePaging`: a missing or negative page becomes 0, a missing or
      non-positive size becomes 20; anything else is kept. */
  function NormalizePaging(page: Option<Int32>, size: Option<Int32>): (r: Paging)
    ensures r.page >= 0 && r.size > 0
    ensures page.Some? && page.value >= 0 ==> r.page == page.value
    ensures page.None? || page.value < 0 ==> r.page == DEFAULT_PAGE_INDEX
    ensures size.Some? && size.value > 0 ==> r.size == size.value
    ensures size.None? || size.value <= 0 ==> r.size == DEFAULT_PAGE_SIZE
  {
    Paging(
      if page.Some? && page.value >= 0 then page.value else DEFAULT_PAGE_INDEX,
      if size.Some? && size.value > 0 then size.value else DEFAULT_PAGE_SIZE)
  }

  /** `buildResponse` as written: the values are handed to the all-arguments
      constructor in the order items, count, page, size, totalPages, while the
      record declares items, totalSize, totalPages, page, size. */
  function BuildResponseAsWritten<T>(items: seq<T>, totalCount: Count, paging: Paging): MailSearchResponse<T>
    requires paging.size >= 0
  {
    var totalPages := TotalPages(totalCount, paging.size);
    MailSearchResponse(items, totalCount, paging.page, paging.size, totalPages,
      HasNext(paging.page, totalPages), HasPrevious(paging.page))
  }

  /** `buildResponse` with each value in the field its name says. */
  function BuildResponse<T>(items: seq<T>, totalCount: Count, paging: Paging): (r: MailSearchResponse<T>)
    requires paging.size > 0
    ensures r.items == items && r.totalSize == totalCount
    ensures r.page == paging.page && r.size == paging.size
    ensures r.totalPages == TotalPages(totalCount, paging.size)
    ensures r.hasPrevious <==> paging.page > 0
    ensures r.hasNext <==> Add(paging.page, 1) < r.totalPages
  {
    var totalPages := TotalPages(totalCount, paging.size);
    MailSearchResponse(items, totalCount, totalPages, paging.page, paging.size,
      HasNext(paging.page, totalPages), HasPrevious(paging.page))
  }

  /** The written constructor call scrambles the envelope: 45 rows at 20 per
      page on the first page come out as 0 pages, page 20 and size 3, where
      3 pages, page 0 and size 20 were meant. */
  lemma BuildResponseMisordered()
    ensures var p := Paging(0, 20);
            var written := BuildResponseAsWritten<int>([], 45, p);
            var meant := BuildResponse<int>([], 45, p);
            written.totalPages == 0 && written.page == 20 && written.size == 3 &&
            meant.totalPages == 3 && meant.page == 0 && meant.size == 20
  {
    assert CeilDiv(45, 20) == 3;
  }

  /** Whatever the arguments, the written call swaps the page count into the
      size, the page into the page count and the size into the page. */
  lemma BuildResponseAsWrittenShuffles<T>(items: seq<T>, totalCount: Count, paging: Paging)
    requires paging.size > 0
    ensures var written := BuildResponseAsWritten(items, totalCount, paging);
            var meant := BuildResponse(items, totalCount, paging);
            written.totalPages == meant.page && written.page == meant.size &&
            written.size == meant.totalPages &&
            written.items == meant.items && written.totalSize == meant.totalSize &&
            written.hasNext == meant.hasNext && written.hasPrevious == meant.hasPrevious
  {
  }

  /** A printed `int` has nothing for `trim` to remove. */
  lemma IntToStringTrimmed(n: Int32)
    ensures JavaTrim(IntToString(n)) == IntToString(n)
  {
    var s := IntToString(n);
    var digits := NatToDigits(if n < 0 then -(n as int) else n);
    assert IsDigit(digits[0]) && IsDigit(digits[|digits| - 1]);
    assert Trimmed(s, IsJavaTrimmable);
    StripTrimmed(s, IsJavaTrimmable);
  }

  /** A parameter holding a printed `int`, padded or not, parses back to
      that `int`. */
  lemma ParseIntegerRoundTrip(params: map<string, string>, key: string, n: Int32)
    requires key in params && JavaTrim(params[key]) == IntToString(n)
    ensures ParseInteger(params, key) == Some(n)
  {
    ParseIntRoundTrip(n);
  }

  /** The page conversion, value by value: 1-based pages become 0-based, 0
      and negative pages become 0, except `Integer.MIN_VALUE`, whose `- 1`
      wraps to `Integer.MAX_VALUE`. */
  lemma ParsePageTable(params: map<string, string>, n: Int32)
    requires "page" in params && JavaTrim(params["page"]) == IntToString(n)
    ensures n >= 1 ==> ParsePage(params) == Some(n - 1)
    ensures MIN < n <= 0 ==> ParsePage(params) == Some(0)
    ensures n == MIN ==> ParsePage(params) == Some(MAX)
  {
    assert ParseInteger(params, "page") == Some(n) by {
      ParseIntegerRoundTrip(params, "page", n);
    }
    if n == MIN {
      assert Sub(n, 1) == MAX;
    } else {
      assert Sub(n, 1) == n - 1;
    }
  }

  /** Sending the 1-based number of a 0-based page gives back that page:
      the conversion the client relies on. */
  lemma ParsePageRoundTrip(params: map<string, string>, page: Int32)
    requires 0 <= page < MAX
    requires "page" in params && params["page"] == IntToString(page + 1)
    ensures ParsePage(params) == Some(page)
  {
    IntToStringTrimmed(page + 1);
    ParsePageTable(params, page + 1);
  }

  /** Normalising is idempotent: a normalised paging is left as it is. */
  lemma NormalizePagingIdempotent(page: Option<Int32>, size: Option<Int32>)
    ensures var p := NormalizePaging(page, size);
            NormalizePaging(Some(p.page), Some(p.size)) == p
  {
  }

  /** A missing page and a missing size give the first page of 20. */
  lemma DefaultPaging(params: map<string, string>)
    requires "page" !in params && "size" !in params
    ensures NormalizePaging(ParsePage(params), ParseInteger(params, "size")) == Paging(0, 20)
  {
  }

  /** A request for the printed 1-based page `page` of `size` rows reads
      as the 0-based page `page - 1` of that size. */
  lemma PagingFromParams(params: map<string, string>, page: Int32, size: Int32)
    requires 1 <= page && 1 <= size
    requires "page" in params && params["page"] == IntToString(page)
    requires "size" in params && params["size"] == IntToString(size)
    ensures var paging := NormalizePaging(ParsePage(params), ParseInteger(params, "size"));
            paging == Paging(page - 1, size)
  {
    assert ParsePage(params) == Some(page - 1) by {
      ParsePageRoundTrip(params, page - 1);
    }
    assert ParseInteger(params, "size") == Some(size) by {
      IntToStringTrimmed(size);
      ParseIntegerRoundTrip(params, "size", size);
    }
  }

  /** The second page of 10 over 25 rows: three pages, with both
      neighbours. */
  lemma SecondPageResponse()
    ensures var r := BuildResponse<int>([], 25, Paging(1, 10));
            r.totalPages == 3 && r.hasNext && r.hasPrevious
  {
    assert CeilDiv(25, 10) == 3;
  }

  /** A page past the end is not clamped: page 5 of 20 over 45 rows is
      fetched at offset 100 and echoed back as page 5 of 3, with no next
      page. */
  lemma PagePastEndNotClamped()
    ensures var paging := NormalizePaging(Some(5), Some(20));
            var r := BuildResponse<int>([], 45, paging);
            paging.Offset() == 100 && r.page == 5 && r.totalPages == 3 && !r.hasNext && r.hasPrevious
  {
    assert CeilDiv(45, 20) == 3;
  }

  /** `parseDateTime`: the extracted value given to the date parser, a parse
      failure dropping the filter. The parser itself is a parameter. */
  function ParseDateTime(params: map<string, string>, key: string, parse: string -> Option<DateTime>): (r: Option<DateTime>)
    ensures Extract(params, key).None? ==> r.None?
    ensures Extract(params, key).Some? ==> r == parse(Extract(params, key).value)
  {
    match Extract(params, key)
    case None => None
    case Some(value) => parse(value)
  }

  /** `buildCondition`: the filters read from the request; CC and BCC are not
      read and stay `null`. */
  function BuildCondition(params: map<string, string>, parse: string -> Option<DateTime>): (c: SearchCondition)
    ensures c.sentAtFrom == ParseDateTime(params, "sentAtFrom", parse)
    ensures c.sentAtTo == ParseDateTime(params, "sentAtTo", parse)
    ensures c.status == Extract(params, "status") && c.toAddress == Extract(params, "toAddress")
    ensures c.subjectKeyword == ResolveSubjectKeyword(params)
    ensures c.ccAddress.None? && c.bccAddress.None?
    ensures c.page == ParsePage(params) && c.size == ParseInteger(params, "size")
  {
    SearchCondition(
      toAddress := Extract(params, "toAddress"),
      ccAddress := None,
      bccAddress := None,
      subjectKeyword := ResolveSubjectKeyword(params),
      status := Extract(params, "status"),
      sentAtFrom := ParseDateTime(params, "sentAtFrom", parse),
      sentAtTo := ParseDateTime(params, "sentAtTo", parse),
      page := ParsePage(params),
      size := ParseInteger(params, "size"))
  }

  /** `search`: the condition is built and its paging normalised in place;
      the rows are fetched only when the count is not zero. `count` and
      `find` stand for the two mapper queries; `findCalls` records the
      `(offset, limit)` of every call to `find`. */
  method Search<T>(rawParams: map<string, string>, parse: string -> Option<DateTime>,
                   count: SearchCondition -> Count, find: (SearchCondition, Int32, Int32) -> seq<T>)
    returns (response: MailSearchResponse<T>, findCalls: seq<(Int32, Int32)>)
    ensures var built := BuildCondition(rawParams, parse);
            var paging := NormalizePaging(built.page, built.size);
            var condition := built.(page := Some(paging.page), size := Some(paging.size));
            var total := count(condition);
            && findCalls == (if total == 0 then [] else [(paging.Offset(), paging.size)])
            && response.items == (if total == 0 then [] else find(condition, paging.Offset(), paging.size))
            && response == BuildResponse(response.items, total, paging)
  {
    var condition := BuildCondition(rawParams, parse);
    var paging := NormalizePaging(condition.page, condition.size);
    condition := condition.(page := Some(paging.page));
    condition := condition.(size := Some(paging.size));

    var totalCount := count(condition);
    var items: seq<T>;
    if totalCount == 0 {
      items := [];
      findCalls := [];
    } else {
      items := find(condition, paging.Offset(), paging.size);
      findCalls := [(paging.Offset(), paging.size)];
    }
    response := BuildResponse(items, totalCount, paging);
  }
}
