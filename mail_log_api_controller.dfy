/** `MailLogApiController`: turns the query parameters of
    `GET /api/admin/mail/logs` into a search condition and hands it to
    `MailLogSearchServiceImpl`. */
module MailLogApiController {
  import opened Wrappers
  import opened JavaInt
  import opened Text
  import opened Records
  import opened PageMath
  import MailLogSearchServiceImpl

  /** The `ResponseStatusException` the controller throws. */
  datatype HttpError = BadRequest(reason: string)

  const INVALID_DATE_MESSAGE: string := "Invalid date format. Expected yyyy/MM/dd HH:mm"

  /** `convertToZeroBased`: a missing page or one below 1 becomes 0, any other
      page is made 0-based. */
  function ConvertToZeroBased(page: Option<Int32>): (r: Int32)
    ensures r >= 0
    ensures page.Some? && page.value >= 1 ==> r == page.value - 1
    ensures page.None? || page.value < 1 ==> r == 0
  {
    if page.None? || page.value < 1 then 0 else page.value - 1
  }

  /** `resolveSize`: a missing size or one below 1 becomes 20. */
  function ResolveSize(size: Option<Int32>): (r: Int32)
    ensures r >= 1
    ensures size.Some? && size.value >= 1 ==> r == size.value
    ensures size.None? || size.value < 1 ==> r == DEFAULT_PAGE_SIZE
  {
    if size.None? || size.value < 1 then DEFAULT_PAGE_SIZE else size.value
  }

  /** `parseDateTime`: no filter for a missing or blank value; otherwise the
      untrimmed value goes to the parser, and a value it rejects is a
      400 Bad Request rather than a dropped filter. */
  function ParseDateTime(value: Option<string>, parse: string -> Option<DateTime>): (r: Result<Option<DateTime>, HttpError>)
    ensures value.None? || IsBlank(value.value) ==> r == Success(None)
    ensures value.Some? && !IsBlank(value.value) && parse(value.value).Some? ==> r == Success(parse(value.value))
    ensures value.Some? && !IsBlank(value.value) && parse(value.value).None? ==> r == Failure(BadRequest(INVALID_DATE_MESSAGE))
  {
    if value.None? || IsBlank(value.value) then Success(None)
    else match parse(value.value)
      case Some(t) => Success(Some(t))
      case None => Failure(BadRequest(INVALID_DATE_MESSAGE))
  }

  /** The query parameters, each `None` when not sent. The one named
      `subject` fills the subject keyword. */
  datatype Query = Query(
    sentAtFrom: Option<string>,
    sentAtTo: Option<string>,
    status: Option<string>,
    toAddress: Option<string>,
    subject: Option<string>,
    page: Option<Int32>,
    size: Option<Int32>)

  /** The condition `search` fills: the dates parsed (`sentAtFrom` first),
      status, address and subject copied as sent, page and size resolved. */
  function BuildCondition(q: Query, parse: string -> Option<DateTime>): (r: Result<SearchCondition, HttpError>)
    ensures r.Success? <==> ParseDateTime(q.sentAtFrom, parse).Success? && ParseDateTime(q.sentAtTo, parse).Success?
    ensures r.Success? ==>
              && r.value.sentAtFrom == ParseDateTime(q.sentAtFrom, parse).value
              && r.value.sentAtTo == ParseDateTime(q.sentAtTo, parse).value
              && r.value.status == q.status && r.value.toAddress == q.toAddress
              && r.value.subjectKeyword == q.subject
              && r.value.ccAddress.None? && r.value.bccAddress.None?
              && r.value.page == Some(ConvertToZeroBased(q.page))
              && r.value.size == Some(ResolveSize(q.size))
  {
    match ParseDateTime(q.sentAtFrom, parse)
    case Failure(e) => Failure(e)
    case Success(from) =>
      match ParseDateTime(q.sentAtTo, parse)
      case Failure(e) => Failure(e)
      case Success(to) =>
        Success(EmptyCondition.(
          sentAtFrom := from,
          sentAtTo := to,
          status := q.status,
          toAddress := q.toAddress,
          subjectKeyword := q.subject,
          page := Some(ConvertToZeroBased(q.page)),
          size := Some(ResolveSize(q.size))))
  }

  /** What the controller resolves, the service keeps: its normalisation
      leaves a controller-built condition unchanged. */
  lemma ServiceKeepsControllerPaging(q: Query, parse: string -> Option<DateTime>)
    requires BuildCondition(q, parse).Success?
    ensures var c := BuildCondition(q, parse).value;
            c.(page := Some(MailLogSearchServiceImpl.NormalizePage(c.page)),
               size := Some(MailLogSearchServiceImpl.NormalizeSize(c.size))) == c
  {
  }

  /** `search`: a bad date stops the request before the service (and so
      the mapper) is reached; otherwise the service runs on the built
      condition exactly as it was built. */
  method Search<T>(q: Query, parse: string -> Option<DateTime>, count: SearchCondition -> Count,
                   find: (SearchCondition, Int32, Int32) -> seq<T>)
    returns (result: Result<MailLogSearchResponse<T>, HttpError>, findCalls: seq<(Int32, Int32)>)
    ensures result.Failure? <==> BuildCondition(q, parse).Failure?
    ensures result.Failure? ==> result.error == BuildCondition(q, parse).error && findCalls == []
    ensures result.Success? ==>
              var c := BuildCondition(q, parse).value;
              var page, size := c.page.value, c.size.value;
              && findCalls == (if count(c) == 0 then [] else [(Mul(page, size), size)])
              && result.value.items == (if count(c) == 0 then [] else find(c, Mul(page, size), size))
              && result.value.totalCount == count(c)
              && result.value.page == ConvertToZeroBased(q.page)
              && result.value.size == ResolveSize(q.size)
              && result.value.totalPages == PageMath.TotalPages(count(c), size)
              && (result.value.hasPrevious <==> page > 0)
              && (result.value.hasNext <==> Add(page, 1) < result.value.totalPages)
  {
    var condition := BuildCondition(q, parse);
    if condition.Failure? {
      result := Failure(condition.error);
      findCalls := [];
      return;
    }
    ServiceKeepsControllerPaging(q, parse);
    var response, effective;
    response, effective, findCalls := MailLogSearchServiceImpl.Search(Some(condition.value), count, find);
    result := Success(response);
  }
}
