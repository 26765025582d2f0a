/** The mail log list page (`mail-list.ts`): it builds the query for
    `/api/admin/mail/logs`, reads the JSON envelope back and renders the
    summary line and the pagination bar. The page object keeps the current
    page and the last submitted condition between clicks. */
module MailList {
  import opened Wrappers
  import opened JavaInt
  import opened Text
  import opened Http
  import opened Records
  import PageMath
  import Api = MailLogApiController

  const DEFAULT_PAGE: int := 1
  const DEFAULT_PAGE_SIZE: int := 20
  const MAX_PAGINATION_DISPLAY: int := 5
  const NO_DATA_MESSAGE: string := "該当するデータがありません。"
  const TRUNCATE_LENGTH: nat := 40

  function Min(a: int, b: int): int { if a <= b then a else b }
  function Max(a: int, b: int): int { if a >= b then a else b }

  // ---------------------------------------------------------------------
  // The envelope as JSON

  /** A JSON member as the page looks at it: numbers, booleans, arrays (by
      their length) and anything else. */
  datatype Json = JNumber(n: int) | JBool(b: bool) | JArray(length: nat) | JOther

  type JsonObject = map<string, Json>

  /** Jackson's rendering of `MailLogSearchResponseDto`: one member per
      field, under the field's own name. */
  function ToJson<T>(r: MailLogSearchResponse<T>): JsonObject {
    map["items" := JArray(|r.items|),
        "totalCount" := JNumber(r.totalCount),
        "page" := JNumber(r.page as int),
        "size" := JNumber(r.size as int),
        "totalPages" := JNumber(r.totalPages as int),
        "hasNext" := JBool(r.hasNext),
        "hasPrevious" := JBool(r.hasPrevious)]
  }

  /** `data[key]` when it is a number (`typeof … === 'number'`). */
  function Number(data: JsonObject, key: string): (r: Option<int>)
    ensures r.Some? <==> key in data && data[key].JNumber?
    ensures r.Some? ==> data[key] == JNumber(r.value)
  {
    if key in data && data[key].JNumber? then Some(data[key].n) else None
  }

  /** The envelope names its total `totalCount`. */
  lemma EnvelopeMembers<T>(r: MailLogSearchResponse<T>)
    ensures Number(ToJson(r), "totalCount") == Some(r.totalCount)
    ensures Number(ToJson(r), "totalSize") == None
    ensures Number(ToJson(r), "page") == Some(r.page as int)
    ensures Number(ToJson(r), "size") == Some(r.size as int)
    ensures Number(ToJson(r), "totalPages") == Some(r.totalPages as int)
  {
    assert "totalSize" !in ToJson(r);
  }

  // ---------------------------------------------------------------------
  // Summary line

  /** What `renderSummary` shows: the no-data text, or the total and the
      1-based range of the rows on screen. */
  datatype Summary = NoData | Showing(total: int, first: int, last: int)

  function SummaryText(s: Summary): string {
    match s
    case NoData => NO_DATA_MESSAGE
    case Showing(total, first, last) =>
      "全 " + IntToString(total) + " 件中 " + IntToString(first) + "〜" + IntToString(last) + " 件を表示"
  }

  /** `renderSummary`, reading the total from member `totalKey`. A missing
      total counts as 0, a missing or non-positive size as 20 and a missing
      or negative page as 0. */
  function SummaryFor(data: JsonObject, totalKey: string): (s: Summary)
    ensures var total := Number(data, totalKey).GetOr(0);
            var items := if "items" in data && data["items"].JArray? then data["items"].length else 0;
            && (s.NoData? <==> total == 0 || items == 0)
            && (s.Showing? ==>
                  && s.total == total && s.first >= 1
                  && s.last == Min(s.first + items - 1, total)
                  && s.last - s.first + 1 <= items)
  {
    var itemCount := if "items" in data && data["items"].JArray? then data["items"].length else 0;
    var totalCount := Number(data, totalKey).GetOr(0);
    var size := if Number(data, "size").Some? && Number(data, "size").value > 0 then Number(data, "size").value else DEFAULT_PAGE_SIZE;
    var pageIndex := if Number(data, "page").Some? && Number(data, "page").value >= 0 then Number(data, "page").value else 0;
    if totalCount == 0 || itemCount == 0 then NoData
    else
      var start := pageIndex * size + 1;
      Showing(totalCount, start, Min(start + itemCount - 1, totalCount))
  }

  /** `renderSummary` as written: it reads `totalSize`. */
  function RenderSummaryAsWritten(data: JsonObject): Summary {
    SummaryFor(data, "totalSize")
  }

  /** `renderSummary` reading the member the server sends. */
  function RenderSummary(data: JsonObject): Summary {
    SummaryFor(data, "totalCount")
  }

  /** As written, the summary of every envelope the server sends is the
      no-data text, whatever it holds. */
  lemma RenderSummaryAsWrittenNoData<T>(r: MailLogSearchResponse<T>)
    ensures RenderSummaryAsWritten(ToJson(r)) == NoData
  {
    EnvelopeMembers(r);
  }

  /** Reading `totalCount`, the summary of an envelope shows its total and
      the rows from `page * size + 1` on; no data exactly when the total or
      the page is empty. */
  lemma RenderSummaryOfEnvelope<T>(r: MailLogSearchResponse<T>)
    requires r.page >= 0 && r.size > 0
    ensures RenderSummary(ToJson(r)).NoData? <==> r.totalCount == 0 || |r.items| == 0
    ensures r.totalCount != 0 && |r.items| != 0 ==>
              var first := r.page as int * r.size as int + 1;
              RenderSummary(ToJson(r)) == Showing(r.totalCount, first, Min(first + |r.items| - 1, r.totalCount))
  {
    EnvelopeMembers(r);
  }

  /** For a page the service filled (offset below the total, no more rows
      than the total has left), the range is non-empty and ends inside the
      total. */
  lemma SummaryRangeInside<T>(r: MailLogSearchResponse<T>)
    requires r.page >= 0 && r.size > 0 && 0 < |r.items|
    requires r.page as int * r.size as int + |r.items| <= r.totalCount
    ensures var s := RenderSummary(ToJson(r));
            s.Showing? && 1 <= s.first <= s.last <= s.total && s.last - s.first + 1 == |r.items|
  {
    RenderSummaryOfEnvelope(r);
  }

  // ---------------------------------------------------------------------
  // Pagination bar

  /** A JavaScript number as the pagination arithmetic meets it: a whole
      number, or `NaN`/`Infinity`, for which every `>` and `>=` against a
      whole number is false. */
  datatype Num = Int(v: int) | NotFinite

  /** `a > b`. */
  predicate Above(a: int, b: Num) {
    b.Int? && a > b.v
  }

  /** `a >= b`. */
  predicate AtOrAbove(a: int, b: Num) {
    b.Int? && a >= b.v
  }

  /** `Math.max(1, Math.ceil(total / size))`; a missing operand makes the
      quotient `NaN`. */
  function CeilPages(total: Option<int>, size: Option<int>): (r: Num)
    ensures r.Int? ==> r.v >= 1
    ensures total.Some? && size.Some? && size.value > 0 && total.value >= 0 ==>
              r == Int(if total.value == 0 then 1 else PageMath.CeilDiv(total.value, size.value))
    ensures total.None? || size.None? ==> r == NotFinite
  {
    if total.None? || size.None? then NotFinite
    else
      var t, s := total.value, size.value;
      if s == 0 then (if t < 0 then Int(1) else NotFinite)
      else
        var q := if s > 0 then -((-t) / s) else -(t / (-s));
        assert s > 0 && t > 0 ==> q == PageMath.CeilDiv(t, s) by {
          if s > 0 && t > 0 {
            CeilUnique(t, s, q, PageMath.CeilDiv(t, s));
          }
        }
        Int(Max(1, q))
  }

  /** Two candidates for `⌈n / d⌉` agree. */
  lemma CeilUnique(n: int, d: int, q: int, p: int)
    requires d > 0 && n > 0
    requires q == -((-n) / d)
    requires p * d >= n && (p - 1) * d < n
    ensures q == p
  {
    var f := (-n) / d;
    assert -n == f * d + (-n) % d;
    assert q * d >= n && (q - 1) * d < n;
    PageMath.MulMonotone(q, p - 1, d);
    PageMath.MulMonotone(p, q - 1, d);
  }

  /** The page count the bar uses: `data.totalPages` when it is above 0,
      else computed from member `totalKey` and `size`. */
  function TotalPagesFor(data: JsonObject, totalKey: string): (r: Num)
    ensures r.Int? ==> r.v >= 1
  {
    var tp := Number(data, "totalPages");
    if tp.Some? && tp.value > 0 then Int(tp.value)
    else CeilPages(Number(data, totalKey), Number(data, "size"))
  }

  /** The page count as written: it reads `totalSize`. */
  function TotalPagesAsWritten(data: JsonObject): Num {
    TotalPagesFor(data, "totalSize")
  }

  /** The page count reading the member the server sends. */
  function TotalPages(data: JsonObject): Num {
    TotalPagesFor(data, "totalCount")
  }

  /** The 1-based page on screen, `data.page + 1` (`NaN` without a page). */
  function CurrentPage(data: JsonObject): Num {
    match Number(data, "page")
    case Some(p) => Int(p + 1)
    case None => NotFinite
  }

  /** The numbered window `[start, end]` around `current`: five pages,
      moved back to end at the last page, never starting below 1. */
  function Window(current: int, total: Num): (w: (int, int))
    ensures 1 <= w.0
    ensures total.Int? && total.v >= 1 ==>
              w.0 <= w.1 <= total.v && w.1 - w.0 + 1 == Min(MAX_PAGINATION_DISPLAY, total.v)
    ensures total.Int? && 1 <= current <= total.v ==> w.0 <= current <= w.1
    ensures total.NotFinite? ==> w.1 - w.0 + 1 == MAX_PAGINATION_DISPLAY
  {
    var half := MAX_PAGINATION_DISPLAY / 2;
    var start := Max(1, current - half);
    var end := start + MAX_PAGINATION_DISPLAY - 1;
    if Above(end, total) then
      (Max(1, total.v - MAX_PAGINATION_DISPLAY + 1), total.v)
    else
      (start, end)
  }

  /** What an item's link shows: «, », or a page number. */
  datatype Caption = Prev | Next | PageNumber(n: int)

  /** The link text of a caption. */
  function CaptionText(caption: Caption): string {
    match caption
    case Prev => "«"
    case Next => "»"
    case PageNumber(n) => IntToString(n)
  }

  /** One `li.page-item`: its caption, the page it links to (kept in
      `data-page` unless disabled) and its `disabled`/`active` classes. */
  datatype PageItem = PageItem(caption: Caption, page: Num, disabled: bool, active: bool)

  function NumberItem(i: int, current: int): PageItem {
    PageItem(PageNumber(i), Int(i), false, i == current)
  }

  /** The numbered items `start..end`. */
  function NumberItems(start: int, end: int, current: int): (items: seq<PageItem>)
    ensures |items| == if end < start then 0 else end - start + 1
    decreases end - start
  {
    if end < start then [] else NumberItems(start, end - 1, current) + [NumberItem(end, current)]
  }

  /** Appending the next number to a bar that holds `start..end - 1`. */
  lemma NumberItemsSnoc(prefix: seq<PageItem>, start: int, end: int, current: int)
    requires start <= end
    ensures prefix + NumberItems(start, end, current) == prefix + NumberItems(start, end - 1, current) + [NumberItem(end, current)]
  {
  }

  lemma {:induction false} NumberItemsAt(start: int, end: int, current: int, k: int)
    requires 0 <= k < |NumberItems(start, end, current)|
    ensures NumberItems(start, end, current)[k] == NumberItem(start + k, current)
    decreases end - start
  {
    if k < end - start {
      NumberItemsAt(start, end - 1, current, k);
    }
  }

  /** The whole bar: «, the window, ». Without a current page the window
      loop does not run and both arrows link to `NaN`. */
  function PaginationItems(current: Num, total: Num): seq<PageItem> {
    match current
    case NotFinite => [PageItem(Prev, NotFinite, false, false), PageItem(Next, NotFinite, false, false)]
    case Int(c) =>
      var w := Window(c, total);
      [PageItem(Prev, Int(c - 1), c <= 1, false)]
      + NumberItems(w.0, w.1, c)
      + [PageItem(Next, Int(c + 1), AtOrAbove(c, total), false)]
  }

  /** `renderPagination`: the items appended to the container, in order. */
  method RenderPagination(data: JsonObject) returns (items: seq<PageItem>)
    ensures items == PaginationItems(CurrentPage(data), TotalPages(data))
  {
    items := RenderItems(CurrentPage(data), TotalPages(data));
  }

  /** The loop of `renderPagination` once the two page numbers are known. */
  method RenderItems(currentPage: Num, totalPages: Num) returns (items: seq<PageItem>)
    ensures items == PaginationItems(currentPage, totalPages)
  {
    if currentPage.NotFinite? {
      items := [PageItem(Prev, NotFinite, false, false), PageItem(Next, NotFinite, false, false)];
      return;
    }
    var c := currentPage.v;
    var first := PageItem(Prev, Int(c - 1), c <= 1, false);
    items := [first];

    var half := MAX_PAGINATION_DISPLAY / 2;
    var start := Max(1, c - half);
    var end := start + MAX_PAGINATION_DISPLAY - 1;
    if Above(end, totalPages) {
      end := totalPages.v;
      start := Max(1, end - MAX_PAGINATION_DISPLAY + 1);
    }
    assert (start, end) == Window(c, totalPages);

    items := AppendNumbers(items, start, end, c);
    items := items + [PageItem(Next, Int(c + 1), AtOrAbove(c, totalPages), false)];
  }

  /** The numbered loop of `renderPagination`: one item per page from
      `start` to `end`, appended in order. */
  method AppendNumbers(prefix: seq<PageItem>, start: int, end: int, current: int) returns (items: seq<PageItem>)
    ensures items == prefix + NumberItems(start, end, current)
  {
    items := prefix;
    var i := start;
    while i <= end
      invariant start <= i <= Max(start, end + 1)
      invariant items == prefix + NumberItems(start, i - 1, current)
      decreases end - i
    {
      NumberItemsSnoc(prefix, start, i, current);
      items := items + [NumberItem(i, current)];
      i := i + 1;
    }
    assert NumberItems(start, i - 1, current) == NumberItems(start, end, current);
  }

  /** The shape of the bar for a known page count: the window's size,
      consecutive page numbers, « disabled exactly at page 1 or before, »
      disabled exactly at the last page or after. */
  lemma PaginationShape(c: int, total: int)
    requires total >= 1
    ensures var items := PaginationItems(Int(c), Int(total));
            var w := Window(c, Int(total));
            && |items| == Min(MAX_PAGINATION_DISPLAY, total) + 2
            && items[0].page == Int(c - 1) && (items[0].disabled <==> c <= 1)
            && items[|items| - 1].page == Int(c + 1) && (items[|items| - 1].disabled <==> c >= total)
            && (forall k :: 1 <= k < |items| - 1 ==>
                  && items[k] == PageItem(PageNumber(w.0 + k - 1), Int(w.0 + k - 1), false, w.0 + k - 1 == c)
                  && 1 <= w.0 + k - 1 <= total)
  {
    var items := PaginationItems(Int(c), Int(total));
    var w := Window(c, Int(total));
    var first, numbers := PageItem(Prev, Int(c - 1), c <= 1, false), NumberItems(w.0, w.1, c);
    var last := PageItem(Next, Int(c + 1), AtOrAbove(c, Int(total)), false);
    assert items == [first] + numbers + [last];
    assert |numbers| == w.1 - w.0 + 1;
    assert items[0] == first;
    assert items[|items| - 1] == last;
    forall k | 1 <= k < |items| - 1
      ensures items[k] == PageItem(PageNumber(w.0 + k - 1), Int(w.0 + k - 1), false, w.0 + k - 1 == c)
      ensures 1 <= w.0 + k - 1 <= total
    {
      assert items[k] == numbers[k - 1];
      NumberItemsAt(w.0, w.1, c, k - 1);
    }
  }

  /** When the current page is one of the pages, exactly one item is
      active, and it is the current page's number. */
  lemma OneActiveItem(c: int, total: int)
    requires 1 <= c <= total
    ensures var items := PaginationItems(Int(c), Int(total));
            && (exists k :: 0 <= k < |items| && items[k].active && items[k].page == Int(c))
            && (forall j, k :: 0 <= j < |items| && 0 <= k < |items| && items[j].active && items[k].active ==> j == k)
  {
    var items := PaginationItems(Int(c), Int(total));
    var w := Window(c, Int(total));
    PaginationShape(c, total);
    var k := c - w.0 + 1;
    assert items[k].active && items[k].page == Int(c);
  }

  // ---------------------------------------------------------------------
  // Query string

  /** `MailLogSearchCondition`: the trimmed form values, `""` when empty. */
  datatype Condition = Condition(sentAtFrom: string, sentAtTo: string, status: string, toAddress: string, subject: string)

  /** `append`: a pair only for a non-empty value. */
  function AppendIf(key: string, value: string): seq<Pair> {
    if value == "" then [] else [(key, value)]
  }

  /** `buildQueryParams` on a condition. */
  function BuildQueryParams(c: Condition, page: int, size: int): seq<Pair> {
    QueryWith(c, IntToString(page), IntToString(size))
  }

  /** The query for the condition with the given page and size texts. */
  function QueryWith(c: Condition, pageText: string, sizeText: string): seq<Pair> {
    ConditionQuery(c) + [("page", pageText), ("size", sizeText)]
  }

  /** The condition as pairs, in the order the query lists them. */
  function ConditionPairs(c: Condition): seq<Pair> {
    [("sentAtFrom", c.sentAtFrom)]
    + ([("sentAtTo", c.sentAtTo)]
       + ([("status", c.status)]
          + ([("toAddress", c.toAddress)]
             + [("subject", c.subject)])))
  }

  /** The pairs with a non-empty value, order kept. */
  function NonEmpty(pairs: seq<Pair>): seq<Pair> {
    if pairs == [] then []
    else (if pairs[0].1 == "" then [] else [pairs[0]]) + NonEmpty(pairs[1..])
  }

  lemma NonEmptyCons(key: string, value: string, rest: seq<Pair>)
    ensures NonEmpty([(key, value)] + rest) == AppendIf(key, value) + NonEmpty(rest)
  {
    assert ([(key, value)] + rest)[1..] == rest;
  }

  /** The condition's part of the query. */
  function ConditionQuery(c: Condition): seq<Pair> {
    AppendIf("sentAtFrom", c.sentAtFrom)
    + (AppendIf("sentAtTo", c.sentAtTo)
       + (AppendIf("status", c.status)
          + (AppendIf("toAddress", c.toAddress)
             + AppendIf("subject", c.subject))))
  }

  /** The query holds the condition's non-empty values in condition order,
      then always the page and the size. */
  lemma QueryParamsShape(c: Condition, page: int, size: int)
    ensures BuildQueryParams(c, page, size)
            == NonEmpty(ConditionPairs(c)) + [("page", IntToString(page)), ("size", IntToString(size))]
  {
    var r4 := [("subject", c.subject)];
    var r3 := [("toAddress", c.toAddress)] + r4;
    var r2 := [("status", c.status)] + r3;
    var r1 := [("sentAtTo", c.sentAtTo)] + r2;
    assert NonEmpty(r4) == AppendIf("subject", c.subject) by {
      NonEmptyCons("subject", c.subject, []);
      assert r4 + [] == r4 && AppendIf("subject", c.subject) + [] == AppendIf("subject", c.subject);
    }
    NonEmptyCons("toAddress", c.toAddress, r4);
    NonEmptyCons("status", c.status, r3);
    NonEmptyCons("sentAtTo", c.sentAtTo, r2);
    NonEmptyCons("sentAtFrom", c.sentAtFrom, r1);
  }

  /** Spring's view of the query: every parameter the controller reads,
      `None` when absent; a page or size that is not an `int` stops the
      binding (`None`). */
  function BindQuery(m: map<string, string>): Option<Api.Query> {
    var page := if "page" in m then ParseInt(m["page"]) else None;
    var size := if "size" in m then ParseInt(m["size"]) else None;
    if ("page" in m && page.None?) || ("size" in m && size.None?) then None
    else Some(Api.Query(
      if "sentAtFrom" in m then Some(m["sentAtFrom"]) else None,
      if "sentAtTo" in m then Some(m["sentAtTo"]) else None,
      if "status" in m then Some(m["status"]) else None,
      if "toAddress" in m then Some(m["toAddress"]) else None,
      if "subject" in m then Some(m["subject"]) else None,
      page, size))
  }

  function Present(value: string): Option<string> {
    if value == "" then None else Some(value)
  }

  /** The condition fields a bound map carries. */
  predicate Carries(m: map<string, string>, key: string, value: string) {
    (key in m <==> value != "") && (value != "" ==> m[key] == value)
  }

  lemma BindQueryOf(m: map<string, string>, c: Condition, page: Int32, size: Int32)
    requires Carries(m, "sentAtFrom", c.sentAtFrom) && Carries(m, "sentAtTo", c.sentAtTo)
    requires Carries(m, "status", c.status) && Carries(m, "toAddress", c.toAddress)
    requires Carries(m, "subject", c.subject)
    requires "page" in m && m["page"] == IntToString(page)
    requires "size" in m && m["size"] == IntToString(size)
    ensures BindQuery(m) == Some(Api.Query(Present(c.sentAtFrom), Present(c.sentAtTo), Present(c.status),
                                           Present(c.toAddress), Present(c.subject), Some(page), Some(size)))
  {
    ParseIntRoundTrip(page);
    ParseIntRoundTrip(size);
  }

  /** Two maps agree on the key `k`. */
  predicate SameAt(m1: map<string, string>, m2: map<string, string>, k: string) {
    (k in m1 <==> k in m2) && (k in m1 ==> m1[k] == m2[k])
  }

  /** Looking a key up through one optional pair in front of `rest`. */
  lemma AppendIfLookup(key: string, value: string, rest: seq<Pair>, k: string)
    ensures var m := ParamMap(AppendIf(key, value) + rest);
            && (k == key && value != "" ==> k in m && m[k] == value)
            && (k != key || value == "" ==> SameAt(m, ParamMap(rest), k))
  {
    if value == "" {
      assert AppendIf(key, value) + rest == rest;
    } else {
      assert (AppendIf(key, value) + rest)[1..] == rest;
    }
  }

  /** The page and size pairs bind exactly those two keys. */
  lemma PageSizeLookup(pageText: string, sizeText: string, k: string)
    ensures var m := ParamMap([("page", pageText), ("size", sizeText)]);
            && (k == "page" ==> k in m && m[k] == pageText)
            && (k == "size" ==> k in m && m[k] == sizeText)
            && (k != "page" && k != "size" ==> k !in m)
  {
    var tail := [("page", pageText), ("size", sizeText)];
    assert tail[1..][1..] == [];
    assert ParamMap(tail[1..]) == map["size" := sizeText];
  }

  /** What the query binds key `k` to: the first present condition value
      under that name, else the page or size text, else nothing. */
  function Bound(c: Condition, pageText: string, sizeText: string, k: string): Option<string> {
    if k == "sentAtFrom" && c.sentAtFrom != "" then Some(c.sentAtFrom)
    else if k == "sentAtTo" && c.sentAtTo != "" then Some(c.sentAtTo)
    else if k == "status" && c.status != "" then Some(c.status)
    else if k == "toAddress" && c.toAddress != "" then Some(c.toAddress)
    else if k == "subject" && c.subject != "" then Some(c.subject)
    else if k == "page" then Some(pageText)
    else if k == "size" then Some(sizeText)
    else None
  }

  /** A key's binding in the query, layer by layer: each condition pair
      that is present, then page and size. */
  lemma QueryLookup(c: Condition, pageText: string, sizeText: string, k: string)
    ensures var m := ParamMap(QueryWith(c, pageText, sizeText));
            && (k in m <==> Bound(c, pageText, sizeText, k).Some?)
            && (k in m ==> m[k] == Bound(c, pageText, sizeText, k).value)
  {
    var tail := [("page", pageText), ("size", sizeText)];
    var r4 := AppendIf("subject", c.subject) + tail;
    var r3 := AppendIf("toAddress", c.toAddress) + r4;
    var r2 := AppendIf("status", c.status) + r3;
    var r1 := AppendIf("sentAtTo", c.sentAtTo) + r2;
    assert QueryWith(c, pageText, sizeText) == AppendIf("sentAtFrom", c.sentAtFrom) + r1;
    AppendIfLookup("sentAtFrom", c.sentAtFrom, r1, k);
    AppendIfLookup("sentAtTo", c.sentAtTo, r2, k);
    AppendIfLookup("status", c.status, r3, k);
    AppendIfLookup("toAddress", c.toAddress, r4, k);
    AppendIfLookup("subject", c.subject, tail, k);
    PageSizeLookup(pageText, sizeText, k);
  }

  lemma QueryPaging(c: Condition, pageText: string, sizeText: string)
    ensures var m := ParamMap(QueryWith(c, pageText, sizeText));
            && "page" in m && m["page"] == pageText
            && "size" in m && m["size"] == sizeText
  {
    QueryLookup(c, pageText, sizeText, "page");
    QueryLookup(c, pageText, sizeText, "size");
  }

  lemma QueryCarriesDates(c: Condition, pageText: string, sizeText: string)
    ensures var m := ParamMap(QueryWith(c, pageText, sizeText));
            Carries(m, "sentAtFrom", c.sentAtFrom) && Carries(m, "sentAtTo", c.sentAtTo)
  {
    QueryLookup(c, pageText, sizeText, "sentAtFrom");
    QueryLookup(c, pageText, sizeText, "sentAtTo");
  }

  lemma QueryCarriesStatus(c: Condition, pageText: string, sizeText: string)
    ensures var m := ParamMap(QueryWith(c, pageText, sizeText));
            Carries(m, "status", c.status)
  {
    QueryLookup(c, pageText, sizeText, "status");
  }

  lemma QueryCarriesText(c: Condition, pageText: string, sizeText: string)
    ensures var m := ParamMap(QueryWith(c, pageText, sizeText));
            Carries(m, "toAddress", c.toAddress) && Carries(m, "subject", c.subject)
  {
    QueryLookup(c, pageText, sizeText, "toAddress");
    QueryLookup(c, pageText, sizeText, "subject");
  }

  /** A query the page builds reaches the controller intact: the condition
      values it holds, the 1-based page the controller turns into
      `page - 1` and the size 20. */
  lemma QueryReachesController(c: Condition, page: Int32)
    requires page >= 1
    ensures var q := BindQuery(ParamMap(BuildQueryParams(c, page, DEFAULT_PAGE_SIZE)));
            && q == Some(Api.Query(Present(c.sentAtFrom), Present(c.sentAtTo), Present(c.status),
                                    Present(c.toAddress), Present(c.subject), Some(page), Some(DEFAULT_PAGE_SIZE)))
            && Api.ConvertToZeroBased(q.value.page) == page - 1
            && Api.ResolveSize(q.value.size) == DEFAULT_PAGE_SIZE
  {
    var pageText, sizeText := IntToString(page), IntToString(DEFAULT_PAGE_SIZE);
    QueryPaging(c, pageText, sizeText);
    QueryCarriesDates(c, pageText, sizeText);
    QueryCarriesStatus(c, pageText, sizeText);
    QueryCarriesText(c, pageText, sizeText);
    var m := ParamMap(BuildQueryParams(c, page, DEFAULT_PAGE_SIZE));
    BindQueryOf(m, c, page, DEFAULT_PAGE_SIZE);
  }

  // ---------------------------------------------------------------------
  // Cell formatting

  /** `truncate`: `-` for a missing or empty value, the value itself up to
      `length` UTF-16 code units, else its first `length` code units and
      `...` (`length` and `substring` count code units). */
  function Truncate(value: Option<string>, length: nat): (r: string)
    ensures value.None? || value.value == [] ==> r == "-"
    ensures value.Some? && value.value != [] && Utf16Length(value.value) <= length ==> r == value.value
    ensures |r| >= 1
    ensures value.Some? && Utf16Length(value.value) > length ==>
              |r| >= 3 && r[|r| - 3..] == "..."
    ensures value.Some? && Utf16Length(value.value) > length && |r| >= 3 ==>
              var kept := r[..|r| - 3];
              && |kept| < |value.value| && kept == value.value[..|kept|]
              && Utf16Length(kept) <= length < Utf16Length(kept) + Units(value.value[|kept|])
  {
    if value.None? || value.value == [] then "-"
    else if Utf16Length(value.value) <= length then value.value
    else
      var kept := Utf16Prefix(value.value, length);
      assert value.value[..|value.value|] == value.value;
      var r := kept + "...";
      assert r[..|r| - 3] == kept;
      r
  }

  /** `pad`: a leading zero below 10. */
  function Pad(value: int): string {
    if value < 10 then "0" + IntToString(value) else IntToString(value)
  }

  /** Every clock or calendar field (0 to 99) becomes exactly two digits
      that read back as the value. */
  lemma PadTwoDigits(value: int)
    requires 0 <= value < 100
    ensures |Pad(value)| == 2 && AllDigits(Pad(value)) && DigitsValue(Pad(value)) == value
  {
    DigitsRoundTrip(value);
    if value >= 10 {
      assert NatToDigits(value) == NatToDigits(value / 10) + [DigitChar(value % 10)];
    } else {
      assert Pad(value) == ['0', DigitChar(value)];
      assert Pad(value)[..1] == ['0'];
    }
  }

  /** `resolveStatusBadgeClass`, comparing the status upper-cased. */
  function BadgeClass(status: Option<string>): (r: string)
    ensures var s := ToUpper(status.GetOr(""));
            && (r == "badge-success" <==> s == "SUCCESS")
            && (r == "badge-danger" <==> s == "FAILED" || s == "ERROR")
            && (r == "badge-warning" <==> s == "PENDING" || s == "QUEUED")
            && (r == "badge-secondary" <==> s !in {"SUCCESS", "FAILED", "ERROR", "PENDING", "QUEUED"})
  {
    var normalized := ToUpper(status.GetOr(""));
    if normalized == "SUCCESS" then "badge-success"
    else if normalized == "FAILED" || normalized == "ERROR" then "badge-danger"
    else if normalized == "PENDING" || normalized == "QUEUED" then "badge-warning"
    else "badge-secondary"
  }

  /** The badge ignores the case of the status. */
  lemma BadgeClassIgnoresCase(status: string)
    ensures BadgeClass(Some(status)) == BadgeClass(Some(ToUpper(status)))
  {
    assert ToUpper(ToUpper(status)) == ToUpper(status);
  }

  // ---------------------------------------------------------------------
  // The page object

  /** The search form's controls: each one's current value, `None` when the
      element is missing from the page. */
  datatype Form = Form(sentAtFrom: Option<string>, sentAtTo: Option<string>, status: Option<string>,
                       toAddress: Option<string>, subject: Option<string>)

  /** `getInputValue`: the trimmed value, `""` without the element. */
  function InputValue(element: Option<string>): (r: string)
    ensures Trimmed(r, IsJsWhitespace)
  {
    match element
    case Some(v) => JsTrim(v)
    case None => ""
  }

  /** `getSelectValue`: the value as selected, `""` without the element. */
  function SelectValue(element: Option<string>): string {
    element.GetOr("")
  }

  /** `collectSearchCondition`: the text fields trimmed, the status as is. */
  function CollectSearchCondition(f: Form): (c: Condition)
    ensures Trimmed(c.sentAtFrom, IsJsWhitespace) && Trimmed(c.sentAtTo, IsJsWhitespace)
    ensures Trimmed(c.toAddress, IsJsWhitespace) && Trimmed(c.subject, IsJsWhitespace)
    ensures c.status == f.status.GetOr("")
  {
    Condition(InputValue(f.sentAtFrom), InputValue(f.sentAtTo), SelectValue(f.status),
              InputValue(f.toAddress), InputValue(f.subject))
  }

  function Clear(element: Option<string>): Option<string> {
    if element.Some? then Some("") else None
  }

  /** `resetForm`: every control that exists is emptied. */
  function ResetForm(f: Form): (r: Form)
    ensures CollectSearchCondition(r) == Condition("", "", "", "", "")
    ensures r.sentAtFrom.Some? == f.sentAtFrom.Some? && r.status.Some? == f.status.Some?
    ensures r.toAddress.Some? == f.toAddress.Some? && r.subject.Some? == f.subject.Some?
  {
    assert JsTrim("") == "";
    Form(Clear(f.sentAtFrom), Clear(f.sentAtTo), Clear(f.status), Clear(f.toAddress), Clear(f.subject))
  }

  /** After a reset the query holds only page and size. */
  lemma ClearedQuery(f: Form, page: int)
    ensures BuildQueryParams(CollectSearchCondition(ResetForm(f)), page, DEFAULT_PAGE_SIZE)
            == [("page", IntToString(page)), ("size", IntToString(DEFAULT_PAGE_SIZE))]
  {
  }

  /** What a click on a pagination link hands the handler:
      `Number(anchor.dataset.page)`, `None` when the click is not on an
      enabled link (no `a[data-page]`). */
  function ClickTarget(item: PageItem): Option<Num> {
    if item.disabled then None else Some(item.page)
  }

  /** The guard of `handlePaginationClick`. */
  predicate ClickIgnored(target: Option<Num>, currentPage: int) {
    match target
    case None => true
    case Some(NotFinite) => true
    case Some(Int(p)) => p < 1 || p == currentPage
  }

  /** On a bar drawn for the page on screen, a click that is not ignored
      asks for another page, at least 1; the active item never triggers a
      search. */
  lemma ClickOnBar(c: int, total: int, k: nat)
    requires 1 <= c && total >= 1
    requires k < |PaginationItems(Int(c), Int(total))|
    ensures var item := PaginationItems(Int(c), Int(total))[k];
            && (item.active ==> ClickIgnored(ClickTarget(item), c))
            && (!ClickIgnored(ClickTarget(item), c) ==>
                  item.page.Int? && item.page.v >= 1 && item.page.v != c && !item.disabled)
  {
    PaginationShape(c, total);
  }

  /** `MailLogListPage`. `fetch` stands for the request: it answers a query
      with the parsed envelope, or `None` when the request fails, the status
      is not OK or the body is not JSON. */
  class MailLogListPage {
    var currentPage: int
    const pageSize: int := DEFAULT_PAGE_SIZE
    var lastCondition: Option<Condition>
    /** The search form the page reads and resets. */
    var form: Form

    constructor (form: Form)
      ensures currentPage == DEFAULT_PAGE && lastCondition == None && this.form == form
    {
      currentPage := DEFAULT_PAGE;
      lastCondition := None;
      this.form := form;
    }

    /** The condition a search uses: the last submitted one, else the form. */
    function EffectiveCondition(): Condition
      reads this
    {
      lastCondition.GetOr(CollectSearchCondition(form))
    }

    /** `executeSearch`: the query sent; the page moves to `page` and the
        summary and bar are drawn only when the reply arrives. */
    method ExecuteSearch(page: int, fetch: seq<Pair> -> Option<JsonObject>)
      returns (query: seq<Pair>, drawn: Option<(Summary, seq<PageItem>)>)
      modifies this
      ensures query == BuildQueryParams(old(EffectiveCondition()), page, pageSize)
      ensures currentPage == (if fetch(query).Some? then page else old(currentPage))
      ensures drawn.Some? <==> fetch(query).Some?
      ensures drawn.Some? ==>
                drawn.value == (RenderSummary(fetch(query).value),
                                PaginationItems(CurrentPage(fetch(query).value), TotalPages(fetch(query).value)))
      ensures lastCondition == old(lastCondition) && form == old(form)
    {
      query := BuildQueryParams(EffectiveCondition(), page, pageSize);
      var reply := fetch(query);
      if reply.None? {
        drawn := None;
        return;
      }
      currentPage := page;
      var items := RenderPagination(reply.value);
      drawn := Some((RenderSummary(reply.value), items));
    }

    /** `init`, after construction: the first page with the form's values. */
    method Init(fetch: seq<Pair> -> Option<JsonObject>)
      returns (query: seq<Pair>, drawn: Option<(Summary, seq<PageItem>)>)
      modifies this
      ensures query == BuildQueryParams(old(EffectiveCondition()), DEFAULT_PAGE, DEFAULT_PAGE_SIZE)
      ensures currentPage == (if fetch(query).Some? then DEFAULT_PAGE else old(currentPage))
      ensures lastCondition == old(lastCondition) && form == old(form)
    {
      query, drawn := ExecuteSearch(DEFAULT_PAGE, fetch);
    }

    /** `handleSearchButton`: the form becomes the condition and page 1 is
        loaded. */
    method HandleSearchButton(fetch: seq<Pair> -> Option<JsonObject>)
      returns (query: seq<Pair>, drawn: Option<(Summary, seq<PageItem>)>)
      modifies this
      ensures lastCondition == Some(CollectSearchCondition(old(form))) && form == old(form)
      ensures query == BuildQueryParams(CollectSearchCondition(old(form)), DEFAULT_PAGE, DEFAULT_PAGE_SIZE)
      ensures currentPage == (if fetch(query).Some? then DEFAULT_PAGE else old(currentPage))
    {
      lastCondition := Some(CollectSearchCondition(form));
      query, drawn := ExecuteSearch(DEFAULT_PAGE, fetch);
    }

    /** `handleClearButton`: the form is reset, the empty condition kept and
        page 1 loaded with only page and size in the query. */
    method HandleClearButton(fetch: seq<Pair> -> Option<JsonObject>)
      returns (query: seq<Pair>, drawn: Option<(Summary, seq<PageItem>)>)
      modifies this
      ensures form == ResetForm(old(form))
      ensures lastCondition == Some(Condition("", "", "", "", ""))
      ensures query == [("page", IntToString(DEFAULT_PAGE)), ("size", IntToString(DEFAULT_PAGE_SIZE))]
      ensures currentPage == (if fetch(query).Some? then DEFAULT_PAGE else old(currentPage))
    {
      form := ResetForm(form);
      lastCondition := Some(CollectSearchCondition(form));
      query, drawn := ExecuteSearch(DEFAULT_PAGE, fetch);
    }

    /** `handlePaginationClick`: an ignored click changes nothing and sends
        nothing; otherwise the clicked page is loaded with the kept
        condition. */
    method HandlePaginationClick(target: Option<Num>, fetch: seq<Pair> -> Option<JsonObject>)
      returns (query: Option<seq<Pair>>)
      modifies this
      ensures query.None? <==> ClickIgnored(target, old(currentPage))
      ensures query.None? ==> currentPage == old(currentPage)
      ensures query.Some? ==>
                && query.value == BuildQueryParams(old(EffectiveCondition()), target.value.v, DEFAULT_PAGE_SIZE)
                && currentPage == (if fetch(query.value).Some? then target.value.v else old(currentPage))
      ensures lastCondition == old(lastCondition) && form == old(form)
    {
      if ClickIgnored(target, currentPage) {
        query := None;
        return;
      }
      var q, drawn := ExecuteSearch(target.value.v, fetch);
      query := Some(q);
    }
  }

  // ---------------------------------------------------------------------
  // The total read under the wrong name

  /** As written, an empty result (`totalPages` 0) has no usable page count:
      `totalSize / size` is `NaN`, so the bar shows five numbered pages and
      an enabled ». */
  lemma EmptyResultBarAsWritten<T>(r: MailLogSearchResponse<T>)
    requires r.totalPages == 0 && r.page == 0
    ensures TotalPagesAsWritten(ToJson(r)) == NotFinite
    ensures var items := PaginationItems(CurrentPage(ToJson(r)), TotalPagesAsWritten(ToJson(r)));
            |items| == MAX_PAGINATION_DISPLAY + 2 && !items[|items| - 1].disabled
  {
    EnvelopeMembers(r);
  }

  /** Reading `totalCount`, an empty result gives one page: the bar is «
      disabled, page 1 active, » disabled. */
  lemma EmptyResultBar<T>(r: MailLogSearchResponse<T>)
    requires r.totalPages == 0 && r.page == 0 && r.totalCount == 0 && r.size > 0
    ensures TotalPages(ToJson(r)) == Int(1)
    ensures PaginationItems(CurrentPage(ToJson(r)), TotalPages(ToJson(r)))
            == [PageItem(Prev, Int(0), true, false), PageItem(PageNumber(1), Int(1), false, true), PageItem(Next, Int(2), true, false)]
  {
    EnvelopeMembers(r);
    assert NumberItems(1, 1, 1) == [NumberItem(1, 1)];
  }
}
