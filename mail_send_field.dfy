/** `MailSendField`: the fields of the mail-send form, each with its request
    parameter name and its rule annotations. */
module MailSendField {
  import opened Wrappers
  import opened Text
  import opened EmailPattern
  import opened FormField
  import opened FormValidator

  datatype Field = To | ReplyTo | Cc | Bcc | Subject | Body | IsHtml

  /** The enum constants in declaration order. */
  const Fields: seq<Field> := [To, ReplyTo, Cc, Bcc, Subject, Body, IsHtml]

  function ParamName(f: Field): string {
    match f
    case To => "toAddress"
    case ReplyTo => "replyTo"
    case Cc => "ccAddress"
    case Bcc => "bccAddress"
    case Subject => "subject"
    case Body => "body"
    case IsHtml => "isHtml"
  }

  /** The annotations of each constant. */
  function Decl(f: Field): (d: FieldDecl)
    ensures d.paramName == ParamName(f)
  {
    match f
    case To =>
      FieldDecl("toAddress", Some("宛先(To)は必須です"),
        Some(MaxLength(1000, "宛先(To)は1000文字以内で入力してください")), Some("宛先(To)の形式が不正です"))
    case ReplyTo =>
      FieldDecl("replyTo", Some("返信先は必須です"),
        Some(MaxLength(1000, "返信先は1000文字以内で入力してください")), Some("返信先の形式が不正です"))
    case Cc =>
      FieldDecl("ccAddress", None,
        Some(MaxLength(1000, "CC は1000文字以内で入力してください")), Some("CC の形式が不正です"))
    case Bcc =>
      FieldDecl("bccAddress", None,
        Some(MaxLength(1000, "BCC は1000文字以内で入力してください")), Some("BCC の形式が不正です"))
    case Subject =>
      FieldDecl("subject", Some("件名は必須です"), Some(MaxLength(255, "件名は255文字以内で入力してください")), None)
    case Body =>
      FieldDecl("body", Some("本文は必須です"), Some(MaxLength(4000, "本文は4000文字以内で入力してください")), None)
    case IsHtml =>
      FieldDecl("isHtml", None, None, None)
  }

  /** The table `validate` walks for this enum. */
  function Table(): (t: seq<FieldDecl>)
    ensures |t| == |Fields|
    ensures forall i :: 0 <= i < |t| ==> t[i] == Decl(Fields[i])
  {
    seq(|Fields|, i requires 0 <= i < |Fields| => Decl(Fields[i]))
  }

  /** The value `validate` checks for a field. */
  function ValueOf(params: map<string, string>, f: Field): string {
    Normalize(Lookup(params, ParamName(f)))
  }

  /** Every constant has its own parameter name. */
  lemma TableDistinct()
    ensures DistinctNames(Table())
  {
    var t := Table();
    forall i, j | 0 <= i < j < |t| ensures t[i].paramName != t[j].paramName {
      assert t[i] == Decl(Fields[i]) && t[j] == Decl(Fields[j]);
      ParamNameInjective(Fields[i], Fields[j]);
      PositionOf(i);
      PositionOf(j);
    }
  }

  /** Different constants have different parameter names. */
  lemma ParamNameInjective(f: Field, g: Field)
    ensures ParamName(f) == ParamName(g) ==> f == g
  {
    if ParamName(f) == ParamName(g) {
      var n := ParamName(f);
      assert n[0] == ParamName(g)[0] && |n| == |ParamName(g)|;
    }
  }

  /** Exactly To, ReplyTo, Subject and Body are required; exactly the four
      address fields are address lists; every field but IsHtml has a length
      limit, 255 for the subject, 4000 for the body and 1000 otherwise. */
  lemma RuleSummary(f: Field)
    ensures Decl(f).required.Some? <==> f in {To, ReplyTo, Subject, Body}
    ensures Decl(f).emailList.Some? <==> f in {To, ReplyTo, Cc, Bcc}
    ensures Decl(f).maxLength.Some? <==> f != IsHtml
    ensures Decl(f).maxLength.Some? ==>
              Decl(f).maxLength.value.limit == (if f == Subject then 255 else if f == Body then 4000 else 1000)
  {
  }

  /** The position of a constant in the table. */
  function Position(f: Field): (i: nat)
    ensures i < |Fields| && Fields[i] == f
  {
    match f
    case To => 0
    case ReplyTo => 1
    case Cc => 2
    case Bcc => 3
    case Subject => 4
    case Body => 5
    case IsHtml => 6
  }

  /** Each constant sits at one position only. */
  lemma PositionOf(i: nat)
    requires i < |Fields|
    ensures Position(Fields[i]) == i
  {
  }

  /** Per field of the mail-send form: it is reported iff one of its rules
      fails, and then with the message of its first failing rule. */
  lemma MailSendReport(params: map<string, string>, f: Field)
    ensures var failure := FirstFailure(Decl(f), ValueOf(params, f));
            var r := Report(Table(), params);
            (failure.Some? <==> ParamName(f) in Keys(r)) &&
            (failure.Some? ==> (ParamName(f), failure.value) in r)
  {
    TableDistinct();
    var i := Position(f);
    ReportLookup(Table(), params, i);
  }

  /** `isHtml` carries no rule and never appears in the report. */
  lemma IsHtmlNeverReported(params: map<string, string>)
    ensures "isHtml" !in Keys(Report(Table(), params))
  {
    MailSendReport(params, IsHtml);
  }

  /** A missing or blank required field is reported with its `@Required`
      message, whatever else it carries. */
  lemma BlankRequiredReported(params: map<string, string>, f: Field)
    requires f in {To, ReplyTo, Subject, Body}
    requires ValueOf(params, f) == []
    ensures (ParamName(f), Decl(f).required.value) in Report(Table(), params)
  {
    MailSendReport(params, f);
  }

  /** CC and BCC may be left out or blank. */
  lemma BlankOptionalPasses(params: map<string, string>, f: Field)
    requires f in {Cc, Bcc}
    requires ValueOf(params, f) == []
    ensures ParamName(f) !in Keys(Report(Table(), params))
  {
    MailSendReport(params, f);
  }

  /** A non-blank value over the limit is reported with the `@MaxLength`
      message, before its addresses are looked at. */
  lemma TooLongReported(params: map<string, string>, f: Field)
    requires f != IsHtml
    requires Utf16Length(ValueOf(params, f)) > Decl(f).maxLength.value.limit
    ensures (ParamName(f), Decl(f).maxLength.value.message) in Report(Table(), params)
  {
    var d, value := Decl(f), ValueOf(params, f);
    assert d.maxLength.Some? && d.maxLength.value.limit >= 0;
    assert FirstFailure(d, value) == Some(d.maxLength.value.message);
    MailSendReport(params, f);
  }

  /** The limit is in UTF-16 code units: a subject of 128 characters
      U+1F600, each a surrogate pair, is 256 units long and is reported as
      over the 255 limit. */
  lemma SurrogatePairsCountTwice(params: map<string, string>)
    requires "subject" in params && |params["subject"]| == 128
    requires forall i :: 0 <= i < |params["subject"]| ==> params["subject"][i] == '\U{1F600}'
    ensures ("subject", Decl(Subject).maxLength.value.message) in Report(Table(), params)
  {
    var s := params["subject"];
    PairsOnly(s);
    assert ValueOf(params, Subject) == s;
    TooLongReported(params, Subject);
  }

  lemma PairsOnly(s: string)
    requires forall i :: 0 <= i < |s| ==> s[i] == '\U{1F600}'
    ensures JavaTrim(s) == s && Utf16Length(s) == 2 * |s|
  {
    assert Trimmed(s, IsJavaTrimmable);
    StripTrimmed(s, IsJavaTrimmable);
    Utf16LengthSupplementary(s);
  }

  /** A lone comma splits into no piece at all, so it passes the address
      rule (and, being non-blank, the required rule too). */
  lemma LoneCommaAccepted()
    ensures EmailListOk(",")
  {
    assert "," == [] + [','] + [];
    SplitAllCons([], ',', []);
    assert DropTrailingEmpty(SplitAll(",", ',')) == [];
  }
}
