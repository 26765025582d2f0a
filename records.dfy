/** The plain data records the core passes around: the `mail_log` row, the
    search condition and the two paginated search envelopes. Each Lombok
    `@AllArgsConstructor` takes its fields in declaration order, and the
    datatypes below keep that order. `None` stands for Java's `null`. */
module Records {
  import opened Wrappers
  import opened JavaInt

  /** A `LocalDateTime` to the minute, as the `yyyy/MM/dd HH:mm` pattern
      carries it. */
  datatype DateTime = DateTime(year: int, month: int, day: int, hour: int, minute: int)

  /** `MailLog`, one row of `mail_log`. */
  datatype MailLog = MailLog(
    id: Option<int>,
    toAddress: Option<string>,
    ccAddress: Option<string>,
    bccAddress: Option<string>,
    subject: Option<string>,
    body: Option<string>,
    isHtml: Option<bool>,
    status: Option<string>,
    errorMessage: Option<string>,
    sentAt: Option<DateTime>,
    createdAt: Option<DateTime>,
    updatedAt: Option<DateTime>,
    version: Option<int>)

  /** `MailSearchConditionDto` and `MailLogSearchConditionDto`, which declare
      the same fields in the same order. */
  datatype SearchCondition = SearchCondition(
    toAddress: Option<string>,
    ccAddress: Option<string>,
    bccAddress: Option<string>,
    subjectKeyword: Option<string>,
    status: Option<string>,
    sentAtFrom: Option<DateTime>,
    sentAtTo: Option<DateTime>,
    page: Option<Int32>,
    size: Option<Int32>)

  /** `new MailLogSearchConditionDto()`: every field `null`. */
  const EmptyCondition: SearchCondition :=
    SearchCondition(None, None, None, None, None, None, None, None, None)

  /** `MailSearchResponseDto`, fields in declaration order. */
  datatype MailSearchResponse<T> = MailSearchResponse(
    items: seq<T>,
    totalSize: int,
    totalPages: Int32,
    page: Int32,
    size: Int32,
    hasNext: bool,
    hasPrevious: bool)

  /** `MailLogSearchResponseDto`, fields in declaration order. */
  datatype MailLogSearchResponse<T> = MailLogSearchResponse(
    items: seq<T>,
    totalCount: int,
    page: Int32,
    size: Int32,
    totalPages: Int32,
    hasNext: bool,
    hasPrevious: bool)
}
