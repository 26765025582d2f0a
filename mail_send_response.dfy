/** `MailSendResponseDto`: the JSON body of the mail-send endpoint and its two
    factories. The DTO is serialised with `@JsonInclude(NON_EMPTY)`, so an
    absent collection and an empty one look the same to the client; the
    factories never attach an empty one. */
module MailSendResponseDto {
  import opened Wrappers
  import opened Text
  import opened FormValidator

  /** The four properties; `None` is Java's `null`. */
  datatype Response = Response(
    success: bool,
    message: string,
    fieldErrors: Option<seq<Entry>>,
    globalErrors: Option<seq<string>>)

  /** What every factory-built response satisfies: an attached collection is
      never empty, and every global error is trimmed and non-blank. */
  predicate WellFormed(r: Response) {
    && (r.fieldErrors.Some? ==> r.fieldErrors.value != [])
    && (r.globalErrors.Some? ==>
          r.globalErrors.value != [] &&
          forall i :: 0 <= i < |r.globalErrors.value| ==> Clean(r.globalErrors.value[i]))
  }

  /** A string that survives sanitisation unchanged. */
  predicate Clean(s: string) {
    s != [] && Trimmed(s, IsJavaTrimmable)
  }

  /** What the pipeline makes of one element: nothing for `null` or a blank
      string, otherwise the trimmed string. */
  function SanitizeOne(error: Option<string>): (r: seq<string>)
    ensures |r| <= 1
    ensures r != [] ==> error.Some? && Clean(r[0]) && r[0] == JavaTrim(error.value)
    ensures r == [] <==> error.None? || JavaTrim(error.value) == []
  {
    match error
    case None => []
    case Some(e) =>
      var t := JavaTrim(e);
      BlankAfterTrim(e);
      if IsBlank(t) then [] else [t]
  }

  /** The stream pipeline of `failure`: drop `null`s, trim, drop blanks,
      keep the order. */
  function Sanitize(errors: seq<Option<string>>): (r: seq<string>)
    ensures |r| <= |errors|
  {
    if errors == [] then [] else SanitizeOne(errors[0]) + Sanitize(errors[1..])
  }

  /** Every output element is clean. */
  lemma {:induction false} SanitizedAreClean(errors: seq<Option<string>>)
    ensures forall k :: 0 <= k < |Sanitize(errors)| ==> Clean(Sanitize(errors)[k])
  {
    if errors != [] {
      var head, rest := SanitizeOne(errors[0]), Sanitize(errors[1..]);
      SanitizedAreClean(errors[1..]);
      forall k | 0 <= k < |head + rest| ensures Clean((head + rest)[k]) {
        if k >= |head| {
          assert (head + rest)[k] == rest[k - |head|];
        }
      }
    }
  }

  /** Every output element is the trimmed form of a present input. */
  lemma {:induction false} SanitizeSound(errors: seq<Option<string>>, k: nat)
    requires k < |Sanitize(errors)|
    ensures exists i :: 0 <= i < |errors| && errors[i].Some? && JavaTrim(errors[i].value) == Sanitize(errors)[k]
  {
    var head := SanitizeOne(errors[0]);
    var rest := Sanitize(errors[1..]);
    assert Sanitize(errors) == head + rest;
    if k < |head| {
      assert errors[0].Some? && JavaTrim(errors[0].value) == (head + rest)[k];
    } else {
      assert (head + rest)[k] == rest[k - |head|];
      SanitizeSound(errors[1..], k - |head|);
      var i :| 0 <= i < |errors[1..]| && errors[1..][i].Some? && JavaTrim(errors[1..][i].value) == rest[k - |head|];
      assert errors[i + 1] == errors[1..][i];
    }
  }

  /** `MailSendResponseDto.success(message)` */
  function Success(message: string): (r: Response)
    ensures r.success && r.message == message
    ensures r.fieldErrors.None? && r.globalErrors.None?
  {
    Response(true, message, None, None)
  }

  /** `MailSendResponseDto.failure(message, fieldErrors, globalErrors)` */
  function Failure(message: string, fieldErrors: Option<seq<Entry>>, globalErrors: Option<seq<Option<string>>>): (r: Response)
    ensures !r.success && r.message == message
    ensures r.fieldErrors.Some? <==> fieldErrors.Some? && fieldErrors.value != []
    ensures r.fieldErrors.Some? ==> r.fieldErrors == fieldErrors
    ensures r.globalErrors.Some? <==> globalErrors.Some? && Sanitize(globalErrors.value) != []
    ensures r.globalErrors.Some? ==> r.globalErrors.value == Sanitize(globalErrors.value)
  {
    var withFields := if fieldErrors.Some? && fieldErrors.value != [] then fieldErrors else None;
    var sanitized := if globalErrors.Some? && globalErrors.value != [] then Sanitize(globalErrors.value) else [];
    Response(false, message, withFields, if sanitized != [] then Some(sanitized) else None)
  }

  /** Both factories build well-formed responses. */
  lemma FactoriesWellFormed(message: string, fieldErrors: Option<seq<Entry>>, globalErrors: Option<seq<Option<string>>>)
    ensures WellFormed(Success(message))
    ensures WellFormed(Failure(message, fieldErrors, globalErrors))
  {
    if globalErrors.Some? {
      SanitizedAreClean(globalErrors.value);
    }
  }

  /** Sanitisation works element by element, so it keeps the relative order of
      what it keeps. */
  lemma {:induction false} SanitizeAppend(a: seq<Option<string>>, b: seq<Option<string>>)
    ensures Sanitize(a + b) == Sanitize(a) + Sanitize(b)
  {
    if a == [] {
      assert a + b == b;
    } else {
      assert (a + b)[0] == a[0];
      assert (a + b)[1..] == a[1..] + b;
      calc {
        Sanitize(a + b);
        SanitizeOne(a[0]) + Sanitize((a + b)[1..]);
        SanitizeOne(a[0]) + Sanitize(a[1..] + b);
        { SanitizeAppend(a[1..], b); }
        SanitizeOne(a[0]) + (Sanitize(a[1..]) + Sanitize(b));
        Sanitize(a) + Sanitize(b);
      }
    }
  }

  /** Every input that is present and not blank once trimmed appears,
      trimmed, in the output, between what the inputs before it and after
      it give. */
  lemma SanitizeKeeps(errors: seq<Option<string>>, i: nat)
    requires i < |errors| && errors[i].Some? && JavaTrim(errors[i].value) != []
    ensures Sanitize(errors) == Sanitize(errors[..i]) + ([JavaTrim(errors[i].value)] + Sanitize(errors[i + 1..]))
  {
    SanitizeSplit(errors, i);
    var one := SanitizeOne(errors[i]);
    assert one == [JavaTrim(errors[i].value)] by {
      assert |one| == 1;
    }
  }

  /** The output is what each element gives, in input order: the elements
      before position `i`, the element at `i`, and those after it. */
  lemma SanitizeSplit(errors: seq<Option<string>>, i: nat)
    requires i < |errors|
    ensures Sanitize(errors) == Sanitize(errors[..i]) + (SanitizeOne(errors[i]) + Sanitize(errors[i + 1..]))
  {
    var before, from := errors[..i], errors[i..];
    assert Sanitize(errors) == Sanitize(before) + Sanitize(from) by {
      assert errors == before + from;
      SanitizeAppend(before, from);
    }
    assert Sanitize(from) == SanitizeOne(errors[i]) + Sanitize(errors[i + 1..]) by {
      assert from[0] == errors[i] && from[1..] == errors[i + 1..];
    }
  }

  /** A single clean message passes through unchanged. */
  lemma SanitizeSingle(error: string)
    requires Clean(error)
    ensures Sanitize([Some(error)]) == [error]
  {
    StripTrimmed(error, IsJavaTrimmable);
    assert SanitizeOne(Some(error)) == [error];
    assert [Some(error)][1..] == [];
  }

  /** The strings as a list of present (non-`null`) elements. */
  function Present(errors: seq<string>): (r: seq<Option<string>>)
    ensures |r| == |errors|
  {
    if errors == [] then [] else [Some(errors[0])] + Present(errors[1..])
  }

  /** A list that is already clean passes through unchanged. */
  lemma {:induction false} SanitizeClean(errors: seq<string>)
    requires forall k :: 0 <= k < |errors| ==> Clean(errors[k])
    ensures Sanitize(Present(errors)) == errors
  {
    if errors != [] {
      var wrapped := Present(errors);
      assert wrapped[0] == Some(errors[0]) && wrapped[1..] == Present(errors[1..]);
      assert SanitizeOne(Some(errors[0])) == [errors[0]] by {
        StripTrimmed(errors[0], IsJavaTrimmable);
      }
      SanitizeClean(errors[1..]);
      assert [errors[0]] + errors[1..] == errors;
    }
  }

  /** Sanitising is idempotent: a second pass over its own output (as the
      client's `composeGlobalMessage` does with trim and skip-empty) changes
      nothing. */
  lemma SanitizeIdempotent(errors: seq<Option<string>>)
    ensures Sanitize(Present(Sanitize(errors))) == Sanitize(errors)
  {
    SanitizedAreClean(errors);
    SanitizeClean(Sanitize(errors));
  }
}
