/** `MailSendService`: validates the send form, records the mail in
    `mail_log` and answers with a `MailSendResponseDto`. No mail is sent;
    the insert is the whole effect. */
module MailSendService {
  import opened Wrappers
  import opened JavaInt
  import opened Text
  import opened Records
  import opened FormField
  import opened FormValidator
  import opened MailSendField
  import Dto = MailSendResponseDto

  const CHECK_FAILED: string := "チェック処理に失敗しました。"
  const INPUT_ERROR: string := "入力内容にエラーがあります。"
  const INSERT_FAILED: string := "メール送信ログの登録に失敗しました。"
  const SYSTEM_ERROR: string := "システムエラーが発生しました。"
  const ACCEPTED: string := "メール送信処理を受け付けました。（ダミー）"

  /** The global error for an unexpected row count `n`. */
  function CountError(n: Int32): string {
    "登録件数異常です。[" + IntToString(n) + "]"
  }

  /** `"true".equalsIgnoreCase(isHtmlParam)`; `null` gives `false`. */
  predicate IsHtmlFlag(raw: Option<string>) {
    raw.Some? && EqualsIgnoreCase("true", raw.value)
  }

  /** The row `insert` builds: addresses, subject and body copied raw (not
      trimmed), no reply-to column, status `SUCCESS`, no error, version 0,
      and the one clock reading in all three timestamps. */
  function BuildMailLog(params: map<string, string>, now: DateTime): (log: MailLog)
    ensures log.id.None?
    ensures log.toAddress == Lookup(params, ParamName(To))
    ensures log.ccAddress == Lookup(params, ParamName(Cc))
    ensures log.bccAddress == Lookup(params, ParamName(Bcc))
    ensures log.subject == Lookup(params, ParamName(Subject))
    ensures log.body == Lookup(params, ParamName(Body))
    ensures log.isHtml == Some(IsHtmlFlag(Lookup(params, ParamName(IsHtml))))
    ensures log.status == Some("SUCCESS") && log.errorMessage.None? && log.version == Some(0)
    ensures log.sentAt == Some(now) && log.createdAt == Some(now) && log.updatedAt == Some(now)
  {
    MailLog(
      id := None,
      toAddress := Lookup(params, "toAddress"),
      ccAddress := Lookup(params, "ccAddress"),
      bccAddress := Lookup(params, "bccAddress"),
      subject := Lookup(params, "subject"),
      body := Lookup(params, "body"),
      isHtml := Some(IsHtmlFlag(Lookup(params, "isHtml"))),
      status := Some("SUCCESS"),
      errorMessage := None,
      sentAt := Some(now),
      createdAt := Some(now),
      updatedAt := Some(now),
      version := Some(0))
  }

  /** The decision chain of `send`, on what `validate` returned (`None` when
      the validator threw) and what `insert` returned (`None` when the insert
      threw; only looked at when there are no errors). */
  function Decide(validation: Option<seq<Entry>>, inserted: Option<Int32>): Dto.Response {
    if validation.None? then
      Dto.Failure(CHECK_FAILED, Some([]), Some([Some(SYSTEM_ERROR)]))
    else if validation.value != [] then
      Dto.Failure(INPUT_ERROR, validation, None)
    else if inserted.None? then
      Dto.Failure(INSERT_FAILED, Some([]), Some([Some(SYSTEM_ERROR)]))
    else if inserted.value != 1 then
      Dto.Failure(INSERT_FAILED, Some([]), Some([Some(CountError(inserted.value))]))
    else
      Dto.Success(ACCEPTED)
  }

  /** The fixed messages and the count message survive sanitisation as they
      are. */
  lemma MessagesClean(n: Int32)
    ensures Dto.Sanitize([Some(SYSTEM_ERROR)]) == [SYSTEM_ERROR]
    ensures Dto.Sanitize([Some(CountError(n))]) == [CountError(n)]
  {
    var c := CountError(n);
    assert c[0] == '登' && c[|c| - 1] == ']';
    Dto.SanitizeSingle(c);
    assert SYSTEM_ERROR[0] == 'シ' && SYSTEM_ERROR[|SYSTEM_ERROR| - 1] == '。';
    Dto.SanitizeSingle(SYSTEM_ERROR);
  }

  /** The outcome of `send`, case by case. */
  lemma DecideCases(validation: Option<seq<Entry>>, inserted: Option<Int32>)
    ensures var r := Decide(validation, inserted);
            && (r.success <==> validation == Some([]) && inserted == Some(1))
            && (r.success ==> r.message == ACCEPTED && r.fieldErrors.None? && r.globalErrors.None?)
            && (validation.None? ==>
                  r.message == CHECK_FAILED && r.fieldErrors.None? && r.globalErrors == Some([SYSTEM_ERROR]))
            && (validation.Some? && validation.value != [] ==>
                  r.message == INPUT_ERROR && r.fieldErrors == validation && r.globalErrors.None?)
            && (validation == Some([]) && inserted.None? ==>
                  r.message == INSERT_FAILED && r.fieldErrors.None? && r.globalErrors == Some([SYSTEM_ERROR]))
            && (validation == Some([]) && inserted.Some? && inserted.value != 1 ==>
                  r.message == INSERT_FAILED && r.fieldErrors.None? && r.globalErrors == Some([CountError(inserted.value)]))
  {
    var r := Decide(validation, inserted);
    if validation.None? || (validation.value == [] && inserted.None?) {
      MessagesClean(0);
      assert r.globalErrors == Some([SYSTEM_ERROR]);
    } else if validation.value == [] && inserted.value != 1 {
      MessagesClean(inserted.value);
      assert r.globalErrors == Some([CountError(inserted.value)]);
    }
  }

  /** `send`: validate, and only when nothing failed build the row and call
      `insert` (the mapper, with a thrown exception as `None`); `inserted`
      is the row handed to it, if any. */
  method Send(params: map<string, string>, now: DateTime, insert: MailLog -> Option<Int32>)
    returns (response: Dto.Response, inserted: Option<MailLog>)
    ensures var report := Report(Table(), params);
            && inserted == (if report == [] then Some(BuildMailLog(params, now)) else None)
            && response == Decide(Some(report), if report == [] then insert(BuildMailLog(params, now)) else None)
  {
    var errors := Validate(Table(), params);
    var report := errors.entries;
    if report != [] {
      response := Dto.Failure(INPUT_ERROR, Some(report), None);
      inserted := None;
      return;
    }
    var log := BuildMailLog(params, now);
    inserted := Some(log);
    var result := insert(log);
    if result.None? {
      response := Dto.Failure(INSERT_FAILED, Some([]), Some([Some(SYSTEM_ERROR)]));
    } else if result.value != 1 {
      response := Dto.Failure(INSERT_FAILED, Some([]), Some([Some(CountError(result.value))]));
    } else {
      response := Dto.Success(ACCEPTED);
    }
  }

  /** A form that fails validation is answered with exactly the validator's
      report, and nothing is inserted; a form that passes is inserted once. */
  lemma SendInsertsOnlyValidForms(params: map<string, string>, n: Option<Int32>)
    ensures var report := Report(Table(), params);
            var r := Decide(Some(report), n);
            report != [] ==> !r.success && r.fieldErrors == Some(report)
  {
    DecideCases(Some(Report(Table(), params)), n);
  }

  /** `isHtml` is set exactly for "true" in any letter case. */
  lemma IsHtmlFlagCases()
    ensures IsHtmlFlag(Some("true")) && IsHtmlFlag(Some("TRUE")) && IsHtmlFlag(Some("True"))
    ensures !IsHtmlFlag(None) && !IsHtmlFlag(Some("")) && !IsHtmlFlag(Some("1")) && !IsHtmlFlag(Some(" true"))
  {
    assert ToUpper("true") == "TRUE" && ToUpper("True") == "TRUE" && ToUpper("TRUE") == "TRUE";
    assert |ToUpper("1")| != |ToUpper("true")|;
    assert ToUpper(" true")[0] == ' ';
  }
}
