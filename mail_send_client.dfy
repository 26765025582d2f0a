/** The mail send page (`mail-send.js`): it reads the form, posts it as
    `application/x-www-form-urlencoded` to the send endpoint and shows the
    reply's message, coloured by outcome, in the message area. */
module MailSendPage {
  import opened Wrappers
  import opened Text
  import opened Http
  import opened MailSendField
  import FormValidator
  import Dto = MailSendResponseDto
  import MailSendService
  import JavaInt

  const SENT_MESSAGE: string := "送信しました。"
  const SEND_FAILED_MESSAGE: string := "送信に失敗しました。"
  const NETWORK_ERROR_MESSAGE: string := "通信エラーが発生しました。時間をおいて再度お試しください。"
  const SUCCESS_CLASS: string := "text-success"
  const DANGER_CLASS: string := "text-danger"

  /** A JavaScript value as the page meets it in the payload and in the
      parsed reply. `JsOther` is an object or an array. */
  datatype JsValue = JsString(s: string) | JsBool(b: bool) | JsNumber(n: int) | JsNull | JsOther

  /** JavaScript truthiness; `None` is `undefined`. */
  predicate Truthy(v: Option<JsValue>) {
    match v
    case None => false
    case Some(JsString(s)) => s != ""
    case Some(JsBool(b)) => b
    case Some(JsNumber(n)) => n != 0
    case Some(JsNull) => false
    case Some(JsOther) => true
  }

  // ---------------------------------------------------------------------
  // Reading the form

  /** A form control: its `value` (`None` for `null`) and, for the
      checkbox, whether it is checked. */
  datatype Element = Element(value: Option<string>, checked: bool)

  /** The controls `cacheElements` finds, `None` when the id is missing.
      The reply-to entry is looked up under the id `toAddress`, so it is
      the to-address control itself. */
  datatype Controls = Controls(
    toAddress: Option<Element>,
    ccAddress: Option<Element>,
    bccAddress: Option<Element>,
    subject: Option<Element>,
    body: Option<Element>,
    isHtml: Option<Element>)

  /** `getFieldValue`: `""` without the control or without a value, else
      the value trimmed. */
  function GetFieldValue(element: Option<Element>): (r: string)
    ensures Trimmed(r, IsJsWhitespace)
    ensures element.None? || element.value.value.None? ==> r == ""
    ensures element.Some? && element.value.value.Some? ==> r == JsTrim(element.value.value.value)
  {
    match element
    case None => ""
    case Some(e) => JsTrim(e.value.GetOr(""))
  }

  /** Reading a control back after writing a read value into it changes
      nothing. */
  lemma GetFieldValueIdempotent(element: Option<Element>)
    ensures GetFieldValue(Some(Element(Some(GetFieldValue(element)), false))) == GetFieldValue(element)
  {
    StripTrimmed(GetFieldValue(element), IsJsWhitespace);
  }

  /** The object `buildPayload` returns. */
  datatype Payload = Payload(
    toAddress: string,
    replyTo: string,
    ccAddress: string,
    bccAddress: string,
    subject: string,
    body: string,
    isHtml: bool)

  /** `buildPayload`: nothing to send without the to-address, subject or
      body control; the reply-to is read from the to-address control and
      the HTML flag is set exactly when the checkbox exists and is checked. */
  function BuildPayload(c: Controls): (p: Option<Payload>)
    ensures p.None? <==> c.toAddress.None? || c.subject.None? || c.body.None?
    ensures p.Some? ==>
              && p.value.toAddress == GetFieldValue(c.toAddress)
              && p.value.replyTo == p.value.toAddress
              && p.value.ccAddress == GetFieldValue(c.ccAddress)
              && p.value.bccAddress == GetFieldValue(c.bccAddress)
              && p.value.subject == GetFieldValue(c.subject)
              && p.value.body == GetFieldValue(c.body)
              && (p.value.isHtml <==> c.isHtml.Some? && c.isHtml.value.checked)
  {
    if c.toAddress.None? || c.subject.None? || c.body.None? then None
    else Some(Payload(
      GetFieldValue(c.toAddress),
      GetFieldValue(c.toAddress),
      GetFieldValue(c.ccAddress),
      GetFieldValue(c.bccAddress),
      GetFieldValue(c.subject),
      GetFieldValue(c.body),
      c.isHtml.Some? && c.isHtml.value.checked))
  }

  // ---------------------------------------------------------------------
  // The form body

  /** `Object.entries(payload)`: the payload's properties in the order the
      object literal declares them. */
  function Entries(p: Payload): seq<(string, JsValue)> {
    [("toAddress", JsString(p.toAddress)),
     ("replyTo", JsString(p.replyTo)),
     ("ccAddress", JsString(p.ccAddress)),
     ("bccAddress", JsString(p.bccAddress)),
     ("subject", JsString(p.subject)),
     ("body", JsString(p.body)),
     ("isHtml", JsBool(p.isHtml))]
  }

  /** The string a value is sent as: booleans as `true`/`false`, `null` as
      the empty string, a string as it is. */
  function FormValue(v: JsValue): string
    requires !v.JsNumber? && !v.JsOther?
  {
    match v
    case JsBool(b) => if b then "true" else "false"
    case JsNull => ""
    case JsString(s) => s
  }

  predicate Sendable(entries: seq<(string, JsValue)>) {
    forall i :: 0 <= i < |entries| ==> !entries[i].1.JsNumber? && !entries[i].1.JsOther?
  }

  /** The pairs of a form body: one per entry, same key, same order. */
  function FormPairs(entries: seq<(string, JsValue)>): (pairs: seq<Pair>)
    requires Sendable(entries)
    ensures |pairs| == |entries|
    ensures forall i :: 0 <= i < |entries| ==> pairs[i] == (entries[i].0, FormValue(entries[i].1))
  {
    seq(|entries|, i requires 0 <= i < |entries| => (entries[i].0, FormValue(entries[i].1)))
  }

  /** The pairs a payload is sent as. */
  function PayloadPairs(p: Payload): seq<Pair> {
    assert Sendable(Entries(p));
    FormPairs(Entries(p))
  }

  /** `buildFormBody`, before percent-encoding. */
  method BuildFormBody(entries: seq<(string, JsValue)>) returns (params: seq<Pair>)
    requires Sendable(entries)
    ensures params == FormPairs(entries)
  {
    params := [];
    var i := 0;
    while i < |entries|
      invariant 0 <= i <= |entries|
      invariant |params| == i
      invariant forall j :: 0 <= j < i ==> params[j] == (entries[j].0, FormValue(entries[j].1))
    {
      var (key, value) := entries[i];
      if value.JsBool? {
        params := params + [(key, if value.b then "true" else "false")];
      } else if value.JsNull? {
        params := params + [(key, "")];
      } else {
        params := params + [(key, value.s)];
      }
      i := i + 1;
    }
  }

  /** The value the page sends for a field of the server's table. */
  function ClientValue(p: Payload, f: Field): string {
    match f
    case To => p.toAddress
    case ReplyTo => p.replyTo
    case Cc => p.ccAddress
    case Bcc => p.bccAddress
    case Subject => p.subject
    case Body => p.body
    case IsHtml => if p.isHtml then "true" else "false"
  }

  /** The form body lists the server's parameters in the server's order. */
  lemma EntriesFollowTable(p: Payload)
    ensures Sendable(Entries(p))
    ensures |Entries(p)| == |Fields|
    ensures forall i :: 0 <= i < |Fields| ==>
              FormPairs(Entries(p))[i] == (ParamName(Fields[i]), ClientValue(p, Fields[i]))
  {
  }

  /** Every parameter the server validates arrives with the value the page
      read, and the HTML flag arrives as a string the server reads back as
      the same flag. */
  lemma FormReachesServer(p: Payload, f: Field)
    ensures var m := ParamMap(FormPairs(Entries(p)));
            FormValidator.Lookup(m, ParamName(f)) == Some(ClientValue(p, f))
    ensures var m := ParamMap(FormPairs(Entries(p)));
            MailSendService.IsHtmlFlag(FormValidator.Lookup(m, ParamName(IsHtml))) == p.isHtml
  {
    FieldArrives(p, f);
    FieldArrives(p, IsHtml);
    if !p.isHtml {
      assert ToUpper("false") != ToUpper("true");
    }
  }

  /** One field's parameter is bound to the value the page read: no
      earlier pair of the body has its name. */
  lemma FieldArrives(p: Payload, g: Field)
    ensures var m := ParamMap(FormPairs(Entries(p)));
            ParamName(g) in m && m[ParamName(g)] == ClientValue(p, g)
  {
    EntriesFollowTable(p);
    TableDistinct();
    var pairs := FormPairs(Entries(p));
    var i := Position(g);
    forall j | 0 <= j < i ensures pairs[j].0 != pairs[i].0 {
      assert Table()[j].paramName != Table()[i].paramName;
    }
    ParamMapFirst(pairs, i);
  }

  // ---------------------------------------------------------------------
  // The reply

  /** The reply body as parsed: each member `None` when absent, all of them
      when the body is not JSON. `globalErrors` is `None` also when it is
      not an array. */
  datatype ReplyBody = ReplyBody(success: Option<JsValue>, message: Option<JsValue>, globalErrors: Option<seq<JsValue>>)

  const EmptyBody: ReplyBody := ReplyBody(None, None, None)

  /** The message shown: the reply's own when it is a string, else a
      fallback chosen by the HTTP status. */
  function MessageOf(ok: bool, body: ReplyBody): (message: string)
    ensures body.message.Some? && body.message.value.JsString? ==> message == body.message.value.s
    ensures !(body.message.Some? && body.message.value.JsString?) ==>
              message == (if ok then SENT_MESSAGE else SEND_FAILED_MESSAGE)
  {
    if body.message.Some? && body.message.value.JsString? then body.message.value.s
    else if ok then SENT_MESSAGE
    else SEND_FAILED_MESSAGE
  }

  /** The line one error element contributes: a string trimmed, unless
      that leaves it empty; nothing for anything else. */
  function Kept(error: JsValue): (lines: seq<string>)
    ensures |lines| <= 1
    ensures lines != [] ==> error.JsString? && lines[0] == JsTrim(error.s) && lines[0] != ""
  {
    if error.JsString? && JsTrim(error.s) != "" then [JsTrim(error.s)] else []
  }

  /** The lines an error list contributes, in order. */
  function KeptErrors(errors: seq<JsValue>): seq<string> {
    if errors == [] then [] else KeptErrors(errors[..|errors| - 1]) + Kept(errors[|errors| - 1])
  }

  /** The lines `composeGlobalMessage` collects: a non-empty message first,
      then the kept errors. */
  function ComposeLines(message: string, globalErrors: Option<seq<JsValue>>): seq<string> {
    (if message != "" then [message] else [])
    + (if globalErrors.Some? then KeptErrors(globalErrors.value) else [])
  }

  /** `Array.prototype.join("\n")`. */
  function JoinLines(lines: seq<string>): string {
    if lines == [] then "" else Join(lines, '\n')
  }

  lemma KeptStep(head: seq<string>, errors: seq<JsValue>, i: nat)
    requires i < |errors|
    ensures head + KeptErrors(errors[..i + 1]) == (head + KeptErrors(errors[..i])) + Kept(errors[i])
  {
    assert errors[..i + 1][..i] == errors[..i];
  }

  /** The `forEach` over an error array: each string element is trimmed
      and pushed onto `lines` unless that leaves it empty. */
  method PushErrors(lines: seq<string>, errors: seq<JsValue>) returns (pushed: seq<string>)
    ensures pushed == lines + KeptErrors(errors)
  {
    pushed := lines;
    var i := 0;
    while i < |errors|
      invariant 0 <= i <= |errors|
      invariant pushed == lines + KeptErrors(errors[..i])
    {
      var error := errors[i];
      KeptStep(lines, errors, i);
      if error.JsString? {
        var trimmed := JsTrim(error.s);
        if trimmed != "" {
          pushed := pushed + [trimmed];
        }
      }
      i := i + 1;
    }
    assert errors[..i] == errors;
  }

  /** `composeGlobalMessage`. */
  method ComposeGlobalMessage(message: string, globalErrors: Option<seq<JsValue>>) returns (text: string)
    ensures text == JoinLines(ComposeLines(message, globalErrors))
  {
    var lines: seq<string> := [];
    if message != "" {
      lines := lines + [message];
    }
    if globalErrors.Some? {
      lines := PushErrors(lines, globalErrors.value);
    }
    text := JoinLines(lines);
  }

  /** Strings as JSON values. */
  function Strings(errors: seq<string>): (values: seq<JsValue>)
    ensures |values| == |errors|
  {
    if errors == [] then [] else Strings(errors[..|errors| - 1]) + [JsString(errors[|errors| - 1])]
  }

  /** Every error that survives the server's sanitising is shown as it is,
      one line each, in order. */
  lemma {:induction false} KeptCleanErrors(errors: seq<string>)
    requires forall k :: 0 <= k < |errors| ==> Dto.Clean(errors[k])
    ensures KeptErrors(Strings(errors)) == errors
  {
    if errors != [] {
      var n := |errors| - 1;
      assert errors[..n] + [errors[n]] == errors;
      var values := Strings(errors);
      assert values[..n] == Strings(errors[..n]);
      KeptCleanErrors(errors[..n]);
      assert Kept(values[n]) == [errors[n]] by {
        StripTrimmed(errors[n], IsJavaTrimmable);
        JsTrimOfJavaTrimmed(errors[n]);
      }
    }
  }

  /** What the page shows after a reply: the text, the state class and
      whether the form is reset. `reply` is `None` when the request itself
      fails; otherwise it is the HTTP `ok` flag and the parsed body. */
  datatype Outcome = Outcome(text: string, state: string, resetForm: bool)

  function SubmitOutcome(reply: Option<(bool, ReplyBody)>): (o: Outcome)
    ensures o.state == SUCCESS_CLASS <==> reply.Some? && reply.value.0 && Truthy(reply.value.1.success)
    ensures o.resetForm <==> o.state == SUCCESS_CLASS
    ensures o.state != SUCCESS_CLASS ==> o.state == DANGER_CLASS
    ensures reply.None? ==> o.text == NETWORK_ERROR_MESSAGE
  {
    match reply
    case None => Outcome(NETWORK_ERROR_MESSAGE, DANGER_CLASS, false)
    case Some((ok, body)) =>
      var message := MessageOf(ok, body);
      if ok && Truthy(body.success) then Outcome(message, SUCCESS_CLASS, true)
      else Outcome(JoinLines(ComposeLines(message, body.globalErrors)), DANGER_CLASS, false)
  }

  /** `showMessage`'s class: the base class, then the state class after a
      space when both are set. */
  function MessageClass(base: string, state: string): (r: string)
    ensures |r| == |base| + |state| + (if base != "" && state != "" then 1 else 0)
    ensures r[..|base|] == base
    ensures r[|r| - |state|..] == state
    ensures base != "" && state != "" ==> r[|base|] == ' '
  {
    if state == "" then base
    else if base == "" then state
    else base + " " + state
  }

  /** Jackson's rendering of the send response: `success` always, the
      message unless empty, the error list unless absent or empty. */
  function ToBody(r: Dto.Response): ReplyBody {
    ReplyBody(
      Some(JsBool(r.success)),
      if r.message == "" then None else Some(JsString(r.message)),
      match r.globalErrors
      case Some(errors) =>
        if errors == [] then None else Some(Strings(errors))
      case None => None)
  }

  /** The message a reply of the send endpoint brings, or the fallback for
      its status. */
  function ReplyMessage(ok: bool, r: Dto.Response): (message: string)
    ensures message != ""
  {
    if r.message != "" then r.message else if ok then SENT_MESSAGE else SEND_FAILED_MESSAGE
  }

  lemma ReplyLines(ok: bool, r: Dto.Response)
    requires Dto.WellFormed(r)
    ensures MessageOf(ok, ToBody(r)) == ReplyMessage(ok, r)
    ensures ComposeLines(MessageOf(ok, ToBody(r)), ToBody(r).globalErrors)
            == [ReplyMessage(ok, r)] + r.globalErrors.GetOr([])
  {
    if r.globalErrors.Some? {
      KeptCleanErrors(r.globalErrors.value);
    }
  }

  /** How a reply of the send endpoint is shown: green with its message
      exactly when the status is OK and the send succeeded; otherwise red,
      the message (or the status fallback) followed by each global error on
      its own line. */
  lemma ShowsServerReply(ok: bool, r: Dto.Response)
    requires Dto.WellFormed(r)
    ensures var o := SubmitOutcome(Some((ok, ToBody(r))));
            && (o.state == SUCCESS_CLASS <==> ok && r.success)
            && (ok && r.success ==> o.text == ReplyMessage(ok, r))
            && (!(ok && r.success) ==> o.text == JoinLines([ReplyMessage(ok, r)] + r.globalErrors.GetOr([])))
  {
    ReplyLines(ok, r);
  }

  /** A form the server rejects shows the input-error message alone; the
      per-field messages go to the field areas. */
  lemma RejectedFormShown(ok: bool, errors: seq<FormValidator.Entry>, inserted: Option<JavaInt.Int32>)
    requires errors != []
    ensures SubmitOutcome(Some((ok, ToBody(MailSendService.Decide(Some(errors), inserted)))))
            == Outcome(MailSendService.INPUT_ERROR, DANGER_CLASS, false)
  {
    MailSendService.DecideCases(Some(errors), inserted);
  }

  /** The request and the display of its outcome, once the payload is
      built. */
  method SendPayload(payload: Payload, baseClass: string, post: seq<Pair> -> Option<(bool, ReplyBody)>)
    returns (sent: seq<Pair>, shown: (string, string), resetForm: bool)
    ensures sent == PayloadPairs(payload)
    ensures shown == (SubmitOutcome(post(sent)).text, MessageClass(baseClass, SubmitOutcome(post(sent)).state))
    ensures resetForm == SubmitOutcome(post(sent)).resetForm
  {
    var entries := Entries(payload);
    assert Sendable(entries);
    sent := BuildFormBody(entries);
    var reply := post(sent);
    var outcome: Outcome;
    if reply.None? {
      outcome := Outcome(NETWORK_ERROR_MESSAGE, DANGER_CLASS, false);
    } else {
      var (ok, body) := reply.value;
      var message := MessageOf(ok, body);
      if ok && Truthy(body.success) {
        outcome := Outcome(message, SUCCESS_CLASS, true);
      } else {
        var composed := ComposeGlobalMessage(message, body.globalErrors);
        outcome := Outcome(composed, DANGER_CLASS, false);
      }
    }
    assert outcome == SubmitOutcome(reply);
    shown := (outcome.text, MessageClass(baseClass, outcome.state));
    resetForm := outcome.resetForm;
  }

  /** `submitForm`: nothing is sent without a payload; otherwise the form
      body is posted and the outcome shown in the message area, whose class
      is the base class followed by the state class. `post` stands for the
      request and the parsing of its reply. */
  method SubmitForm(controls: Controls, baseClass: string, post: seq<Pair> -> Option<(bool, ReplyBody)>)
    returns (sent: Option<seq<Pair>>, shown: Option<(string, string)>, resetForm: bool)
    ensures sent.None? <==> BuildPayload(controls).None?
    ensures sent.None? ==> shown.None? && !resetForm
    ensures sent.Some? ==>
              var o := SubmitOutcome(post(sent.value));
              && sent.value == PayloadPairs(BuildPayload(controls).value)
              && shown == Some((o.text, MessageClass(baseClass, o.state)))
              && resetForm == o.resetForm
  {
    var payload := BuildPayload(controls);
    if payload.None? {
      return None, None, false;
    }
    var pairs, display, reset := SendPayload(payload.value, baseClass, post);
    sent, shown, resetForm := Some(pairs), Some(display), reset;
  }
}
