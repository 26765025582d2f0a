# Admin app mail send and mail log search, modelled in Dafny

The admin application has two mail screens.

**Send form.** `mail-send.js` reads the send form and trims each field with
JavaScript's `trim`. It posts the fields as a form-encoded body. The reply-to
value is taken from the To field. On the server, `MailSendService.send` runs
`FormValidator.validate` over the `MailSendField` enum. Each enum constant
carries `@Required`, `@MaxLength` and `@EmailList` rules. The validator fills
a `LinkedHashMap` with at most one message per field: the message of the
field's first failing rule. If the form is clean, the service builds a
`MailLog` row, inserts it, and answers with a `MailSendResponseDto`. The
failure factory of that DTO drops empty field-error maps. It also trims the
global errors and drops blank ones. The page then shows either the server's
message or a composed error text.

**Log list.** `mail-list.ts` collects a search condition and builds the
query string (`page` is 1-based, `size` is 20). It calls
`GET /api/admin/mail/logs`, then draws a summary line and a pagination bar
of at most five numbered links. `MailLogApiController` converts the page to
0-based and defaults the size. It rejects a malformed date with HTTP 400.
`MailLogSearchServiceImpl` normalises the paging again, counts, fetches one
page, and computes `totalPages`, `hasNext` and `hasPrevious`. A second
search path, `MailSearchService`, works on a raw parameter map. It trims
every value and maps blanks to null. It parses integers leniently (garbage
becomes null), normalises the paging, and builds a `MailSearchResponseDto`.

## How the model is organised

There is one module per core source file:

| module | source file |
|---|---|
| `FormValidator` | `FormValidator.java` |
| `MailSendField` | `MailSendField.java` |
| `MailSendService` | `MailSendService.java` |
| `MailSendResponseDto` | `MailSendResponseDto.java` |
| `MailSearchService` | `MailSearchService.java` |
| `MailLogSearchServiceImpl` | `MailLogSearchServiceImpl.java` |
| `MailLogApiController` | `MailLogApiController.java` |
| `MailList` | `mail-list.ts` |
| `MailSendPage` | `mail-send.js` |

Helper modules hold the library behaviour the sources rely on:

- `JavaInt`: Java `int` wrap-around, `Integer.valueOf` and `String.valueOf`.
- `Text`: `String.trim`, JavaScript `trim`, `String.split`, `toUpperCase`.
- `EmailPattern`: the address pattern, written out by hand and proved equal to the regular expression's meaning.
- `Http`: a form or query string as seen through Spring's `@RequestParam`.
- `PageMath`: the page count and neighbour flags both services share.
- `Records`: the DTO and entity shapes.

Java `int` arithmetic wraps explicitly wherever the source can overflow:

- `raw - 1` in `parsePage`;
- `page + 1` in the `hasNext` tests;
- `page * size` for the offset.

`(int) Math.ceil((double) n / size)` is an integer ceiling with a saturating
cast. It is exact for every count below 2^53.

State is modelled where the source mutates it:

- The validator's `LinkedHashMap` is the class `FormValidator.ErrorMap`. The rule helpers change it in place. `Validate` is proved to produce `Report`, which is the pure fold over the field table.
- The list page's fields `currentPage` and `lastCondition` and its form are the class `MailList.MailLogListPage`.
- Loops in the source are methods with loop invariants:
  - the candidate loop of `validateEmails`;
  - the form-body loop of `buildFormBody`;
  - the error loop of `composeGlobalMessage`;
  - the numbered-link loop of `renderPagination`.

Outside effects are parameters of the model:

- the database (`count`, `find`, `insert`);
- the date parser;
- the clock;
- `fetch`.

## Model

| member | source | states |
|---|---|---|
| FormValidator.Keys | src/main/java/com/example/adminapp/validation/FormValidator.java:33 | the keys of the insertion-ordered error map, one per entry, in order |
| FormValidator.PutEntry | src/main/java/com/example/adminapp/validation/FormValidator.java:92 | `put` on a `LinkedHashMap`: a new key is appended at the end; an existing key keeps its place and the key order is unchanged; afterwards the map holds the pair |
| FormValidator.PutEntryDistinct | src/main/java/com/example/adminapp/validation/FormValidator.java:92 | `put` keeps the keys of the map distinct |
| FormValidator.Normalize | src/main/java/com/example/adminapp/validation/FormValidator.java:139-141 | a missing parameter becomes the empty string, a present one its Java-trimmed value, and the result has no leading or trailing character at or below U+0020 |
| FormValidator.FirstFailure | src/main/java/com/example/adminapp/validation/FormValidator.java:45-58 | a field without rules never fails; a required field with an empty value fails with its required message (the required rule is checked first); a non-empty value longer than the limit in UTF-16 code units fails with the length message; no failure exactly when every present rule passes |
| FormValidator.FieldStepAppends | src/main/java/com/example/adminapp/validation/FormValidator.java:45-58 | the three rule checks for one field either leave the map unchanged or append exactly one entry under that field's name, and only when the name was not yet a key |
| FormValidator.FieldStepOnFreshKey | src/main/java/com/example/adminapp/validation/FormValidator.java:45-58 | on a map without the field's name, the three checks append exactly the field's first failing message, or nothing |
| FormValidator.ReportKeys | src/main/java/com/example/adminapp/validation/FormValidator.java:31-63 | whatever the field table, the report holds each key at most once and only parameter names of the table |
| FormValidator.ExpectedKeys | src/main/java/com/example/adminapp/validation/FormValidator.java:31-63 | the reference report (one entry per failing field) only holds parameter names of the table |
| FormValidator.ReportIsExpected | src/main/java/com/example/adminapp/validation/FormValidator.java:31-63 | with distinct parameter names, the report equals the reference: one entry per failing field, in declaration order, with its first failing message |
| FormValidator.ExpectedLookup | src/main/java/com/example/adminapp/validation/FormValidator.java:39-60 | in the reference report a field's name is a key exactly when one of its rules fails, and then the entry carries the first failing message |
| FormValidator.ReportLookup | src/main/java/com/example/adminapp/validation/FormValidator.java:39-60 | the same per-field iff for the validator's own report, for any table with distinct names |
| FormValidator.ReportEmptyIff | src/main/java/com/example/adminapp/validation/FormValidator.java:31-63 | the reference report is empty exactly when no field of the table fails any rule |
| FormValidator.ErrorMap.constructor | src/main/java/com/example/adminapp/validation/FormValidator.java:33 | a new map is empty |
| FormValidator.ErrorMap.Put | src/main/java/com/example/adminapp/validation/FormValidator.java:92 | the map becomes `PutEntry` of its old contents |
| FormValidator.ValidateRequired | src/main/java/com/example/adminapp/validation/FormValidator.java:90-94 | adds the message exactly when the value is empty and the field has no message yet; otherwise the map is unchanged |
| FormValidator.ValidateLength | src/main/java/com/example/adminapp/validation/FormValidator.java:104-109 | adds the message exactly when the value is non-empty, longer than the limit in UTF-16 code units (`length()`), and the field has no message yet |
| FormValidator.ValidateEmails | src/main/java/com/example/adminapp/validation/FormValidator.java:118-132 | adds the message exactly when the value is non-empty, the field has no message yet, and some comma-separated candidate trims to blank or to a non-address |
| FormValidator.Validate | src/main/java/com/example/adminapp/validation/FormValidator.java:31-63 | returns a fresh map whose contents are the report of the field table over the parameters |
| EmailPattern.IndexOfFrom | src/main/java/com/example/adminapp/validation/FormValidator.java:21-22 | the first index at or after `from` holding the character, or -1 when there is none |
| EmailPattern.LastIndexBefore | src/main/java/com/example/adminapp/validation/FormValidator.java:21-22 | the last index before `end` holding the character, or -1 when there is none |
| EmailPattern.IsEmailIffMatches | src/main/java/com/example/adminapp/validation/FormValidator.java:21-22 | the hand-written address check holds exactly when the string is local characters, `@`, domain characters, a dot, and two or more letters, with some split point |
| EmailPattern.AddressParts | src/main/java/com/example/adminapp/validation/FormValidator.java:21-22 | any non-empty local part, non-empty host and letter suffix of length at least 2, joined with `@` and `.`, is an address |
| EmailPattern.CheckCandidates | src/main/java/com/example/adminapp/validation/FormValidator.java:125-131 | the candidate loop succeeds exactly when every candidate trims to a non-empty address |
| EmailPattern.TrailingCommaIgnored | src/main/java/com/example/adminapp/validation/FormValidator.java:124 | because `split` drops trailing empty strings, a trailing comma does not change the verdict on a non-empty value |
| EmailPattern.LeadingCommaRejected | src/main/java/com/example/adminapp/validation/FormValidator.java:124-128 | a leading comma yields an empty first candidate, so the value is rejected |
| EmailPattern.DoubleCommaRejected | src/main/java/com/example/adminapp/validation/FormValidator.java:124-128 | two commas in a row inside the list yield an empty candidate, so the value is rejected |
| EmailPattern.TwoAddresses | src/main/java/com/example/adminapp/validation/FormValidator.java:124-131 | a list of two candidates is accepted exactly when both trimmed candidates are addresses |
| MailSendField.Decl | src/main/java/com/example/adminapp/validation/MailSendField.java:12-38 | each constant's declaration carries that constant's parameter name |
| MailSendField.Table | src/main/java/com/example/adminapp/validation/MailSendField.java:12-38 | the table lists the seven constants in declaration order |
| MailSendField.TableDistinct | src/main/java/com/example/adminapp/validation/MailSendField.java:12-49 | the seven parameter names are pairwise distinct |
| MailSendField.ParamNameInjective | src/main/java/com/example/adminapp/validation/MailSendField.java:40-49 | two constants with the same parameter name are the same constant |
| MailSendField.RuleSummary | src/main/java/com/example/adminapp/validation/MailSendField.java:12-38 | To, reply-to, subject and body are required; To, reply-to, CC and BCC are address lists; every field but `isHtml` has a length limit: 255 for the subject, 4000 for the body, 1000 otherwise |
| MailSendField.Position | src/main/java/com/example/adminapp/validation/MailSendField.java:12-38 | every constant has a position in the declaration order |
| MailSendField.MailSendReport | src/main/java/com/example/adminapp/validation/MailSendField.java:12-38 | for the mail form, a field is reported exactly when one of its rules fails on its trimmed value (lengths in UTF-16 code units), and then with its first failing message |
| MailSendField.IsHtmlNeverReported | src/main/java/com/example/adminapp/validation/MailSendField.java:38 | `isHtml` carries no rule and never appears in the report |
| MailSendField.BlankRequiredReported | src/main/java/com/example/adminapp/validation/MailSendField.java:12-36 | a blank required field is reported with its required message |
| MailSendField.BlankOptionalPasses | src/main/java/com/example/adminapp/validation/MailSendField.java:22-28 | a blank CC or BCC is not reported |
| MailSendField.TooLongReported | src/main/java/com/example/adminapp/validation/MailSendField.java:12-36 | a trimmed value longer than its limit in UTF-16 code units is reported with the length message |
| MailSendField.SurrogatePairsCountTwice | src/main/java/com/example/adminapp/validation/MailSendField.java:30-32 | a subject of 128 characters above U+FFFF is 256 UTF-16 code units long and is reported as over the 255 limit |
| MailSendField.LoneCommaAccepted | src/main/java/com/example/adminapp/validation/FormValidator.java:120-131 | a value of a single comma splits into no candidates and passes the address-list rule |
| MailSendResponseDto.SanitizeOne | src/main/java/com/example/adminapp/service/mail/dto/MailSendResponseDto.java:38-42 | one global error survives exactly when it is non-null and its trim is not blank, and then it survives as its trim |
| MailSendResponseDto.SanitizedAreClean | src/main/java/com/example/adminapp/service/mail/dto/MailSendResponseDto.java:38-42 | every sanitized error is trimmed and non-blank |
| MailSendResponseDto.SanitizeSound | src/main/java/com/example/adminapp/service/mail/dto/MailSendResponseDto.java:38-42 | every sanitized error is the trim of some non-null input error |
| MailSendResponseDto.SanitizeKeeps | src/main/java/com/example/adminapp/service/mail/dto/MailSendResponseDto.java:38-42 | every input error whose trim is non-blank is kept, in order, between what the errors before and after it produce |
| MailSendResponseDto.SanitizeAppend | src/main/java/com/example/adminapp/service/mail/dto/MailSendResponseDto.java:38-42 | the filter-map-filter stream distributes over concatenation |
| MailSendResponseDto.SanitizeSingle | src/main/java/com/example/adminapp/service/mail/dto/MailSendResponseDto.java:38-42 | a single clean error is kept as it is |
| MailSendResponseDto.SanitizeClean | src/main/java/com/example/adminapp/service/mail/dto/MailSendResponseDto.java:38-42 | a list of clean errors passes through unchanged |
| MailSendResponseDto.SanitizeIdempotent | src/main/java/com/example/adminapp/service/mail/dto/MailSendResponseDto.java:38-42 | sanitizing twice gives what sanitizing once gives |
| MailSendResponseDto.Success | src/main/java/com/example/adminapp/service/mail/dto/MailSendResponseDto.java:20-25 | success with the message and neither field errors nor global errors |
| MailSendResponseDto.Failure | src/main/java/com/example/adminapp/service/mail/dto/MailSendResponseDto.java:27-48 | not successful; field errors present exactly when given non-null and non-empty (and then as given); global errors present exactly when sanitizing them leaves something (and then the sanitized list) |
| MailSendResponseDto.FactoriesWellFormed | src/main/java/com/example/adminapp/service/mail/dto/MailSendResponseDto.java:12-48 | both factories yield a response that serialises as `NON_EMPTY` promises: no empty field-error map, no empty or unclean global-error list |
| MailSendService.BuildMailLog | src/main/java/com/example/adminapp/service/mail/MailSendService.java:95-113 | the log row copies the raw (untrimmed) To, CC, BCC, subject and body parameters; sets `isHtml` from the flag; sets status `SUCCESS`, no error message, version 0 and the same clock reading for all three timestamps |
| MailSendService.IsHtmlFlagCases | src/main/java/com/example/adminapp/service/mail/MailSendService.java:104-105 | `isHtml` is set for "true" in any letter case, and not for a missing value, "", "1" or " true" |
| MailSendService.MessagesClean | src/main/java/com/example/adminapp/service/mail/MailSendService.java:46-64 | the service's global error texts survive sanitizing unchanged |
| MailSendService.DecideCases | src/main/java/com/example/adminapp/service/mail/MailSendService.java:39-68 | success exactly for a clean validation and one inserted row; every failure branch gets its own message, the validation map as field errors only for input errors, the system-error or count-error text otherwise |
| MailSendService.Send | src/main/java/com/example/adminapp/service/mail/MailSendService.java:39-125 | inserts the built log row exactly when the validation report is empty, and answers with the decision on that report and the insert's outcome |
| MailSendService.SendInsertsOnlyValidForms | src/main/java/com/example/adminapp/service/mail/MailSendService.java:49-51 | a non-empty report always yields a failure carrying that report as field errors |
| MailSearchService.Extract | src/main/java/com/example/adminapp/service/mail/MailSearchService.java:194-206 | none exactly for a missing key or a value that trims to empty; otherwise the trimmed, non-empty value |
| MailSearchService.ResolveSubjectKeyword | src/main/java/com/example/adminapp/service/mail/MailSearchService.java:127-134 | `subjectKeyword` wins when present after trimming; otherwise `subject` |
| MailSearchService.ParsePage | src/main/java/com/example/adminapp/service/mail/MailSearchService.java:141-150 | none exactly when `page` does not parse; otherwise a non-negative 0-based page |
| MailSearchService.ParsePageTable | src/main/java/com/example/adminapp/service/mail/MailSearchService.java:141-150 | page n of 1 or more becomes n - 1; a page from 0 down to above `Integer.MIN_VALUE` becomes 0; `Integer.MIN_VALUE` wraps to `Integer.MAX_VALUE` |
| MailSearchService.ParsePageRoundTrip | src/main/java/com/example/adminapp/service/mail/MailSearchService.java:141-150 | the text of page + 1 parses back to the 0-based page |
| MailSearchService.ParseIntegerRoundTrip | src/main/java/com/example/adminapp/service/mail/MailSearchService.java:158-168 | a parameter holding the decimal text of an `int`, after trimming, parses to that `int` |
| MailSearchService.IntToStringTrimmed | src/main/java/com/example/adminapp/service/mail/MailSearchService.java:202-203 | the decimal text of an `int` is unchanged by trimming |
| MailSearchService.Paging.Offset | src/main/java/com/example/adminapp/service/mail/MailSearchService.java:217-219 | the offset is page times size whenever that product fits in an `int` |
| MailSearchService.NormalizePaging | src/main/java/com/example/adminapp/service/mail/MailSearchService.java:81-98 | a non-negative page and a positive size are kept; anything else, missing included, becomes page 0 or size 20 |
| MailSearchService.NormalizePagingIdempotent | src/main/java/com/example/adminapp/service/mail/MailSearchService.java:81-98 | normalising normalised paging changes nothing |
| MailSearchService.DefaultPaging | src/main/java/com/example/adminapp/service/mail/MailSearchService.java:141-150 | without `page` and `size`, the paging is page 0, size 20 |
| MailSearchService.PagingFromParams | src/main/java/com/example/adminapp/service/mail/MailSearchService.java:141-168 | 1-based page p and size s in the parameters give paging (p - 1, s) |
| MailSearchService.BuildResponse | src/main/java/com/example/adminapp/service/mail/MailSearchService.java:107-120 | corrected: each field of the response gets the value named for it; `totalPages` is the shared page count; `hasPrevious` iff page > 0; `hasNext` iff the wrapped page + 1 is below `totalPages` |
| MailSearchService.BuildResponseMisordered | src/main/java/com/example/adminapp/service/mail/MailSearchService.java:111-119 | with 45 results at page 0, size 20, the code as written reports 0 pages, page 20 and size 3, where 3 pages, page 0 and size 20 are meant |
| MailSearchService.BuildResponseAsWrittenShuffles | src/main/java/com/example/adminapp/service/mail/MailSearchService.java:111-119 | as written, for every input the constructor receives page as `totalPages`, size as `page` and the page count as `size`; the other fields agree |
| MailSearchService.SecondPageResponse | src/main/java/com/example/adminapp/service/mail/MailSearchService.java:107-120 | 25 results, page 1 of size 10: 3 pages, with a next and a previous page |
| MailSearchService.PagePastEndNotClamped | src/main/java/com/example/adminapp/service/mail/MailSearchService.java:81-98 | a page beyond the last is kept as it is: offset 100 for page 5 of size 20 over 45 results, with no next page |
| MailSearchService.ParseDateTime | src/main/java/com/example/adminapp/service/mail/MailSearchService.java:176-186 | none for a missing or blank value; otherwise whatever the date parser gives for the trimmed text, a parse failure being none |
| MailSearchService.BuildCondition | src/main/java/com/example/adminapp/service/mail/MailSearchService.java:63-73 | each condition field is read from its own parameter through the lenient readers; CC and BCC stay unset |
| MailSearchService.Search | src/main/java/com/example/adminapp/service/mail/MailSearchService.java:44-56 | corrected: the condition carries the normalised paging; rows are fetched (once, at the offset) only when the count is non-zero; the response is the corrected `BuildResponse` of the count and that paging, not the shuffled one the code returns |
| MailLogSearchServiceImpl.NormalizePage | src/main/java/com/example/adminapp/service/mail/MailLogSearchServiceImpl.java:39-42 | a non-negative page is kept; a missing or negative one becomes 0 |
| MailLogSearchServiceImpl.NormalizeSize | src/main/java/com/example/adminapp/service/mail/MailLogSearchServiceImpl.java:44-47 | a positive size is kept; a missing or non-positive one becomes 20 |
| MailLogSearchServiceImpl.NormalizeIdempotent | src/main/java/com/example/adminapp/service/mail/MailLogSearchServiceImpl.java:39-47 | normalising twice is normalising once |
| MailLogSearchServiceImpl.AgreesWithLenientSearch | src/main/java/com/example/adminapp/service/mail/MailLogSearchServiceImpl.java:39-47 | this service normalises page and size exactly as `MailSearchService.normalizePaging` does |
| MailLogSearchServiceImpl.Search | src/main/java/com/example/adminapp/service/mail/MailLogSearchServiceImpl.java:35-63 | a null condition becomes the empty one; the condition passed on carries the normalised paging; rows are fetched once at the wrapped offset only for a non-zero count; the response carries count, page, size, page count and both neighbour flags |
| MailLogApiController.ConvertToZeroBased | src/main/java/com/example/adminapp/controller/api/mail/MailLogApiController.java:72-77 | a page of 1 or more becomes page - 1; a missing or smaller one becomes 0 |
| MailLogApiController.ResolveSize | src/main/java/com/example/adminapp/controller/api/mail/MailLogApiController.java:85-90 | a size of 1 or more is kept; a missing or smaller one becomes 20 |
| MailLogApiController.ParseDateTime | src/main/java/com/example/adminapp/controller/api/mail/MailLogApiController.java:98-110 | a missing or blank value is no date; a value the parser accepts is that date; any other value is a 400 with the fixed message |
| MailLogApiController.BuildCondition | src/main/java/com/example/adminapp/controller/api/mail/MailLogApiController.java:54-61 | the condition is built exactly when both dates are acceptable, with the text filters passed through and the page and size converted |
| MailLogApiController.ServiceKeepsControllerPaging | src/main/java/com/example/adminapp/service/mail/MailLogSearchServiceImpl.java:39-50 | the service's normalisation leaves the controller's page and size unchanged |
| MailLogApiController.Search | src/main/java/com/example/adminapp/controller/api/mail/MailLogApiController.java:45-64 | a bad date is a 400 with no query run; otherwise the service runs on the built condition, and the response carries the fetched items (none for a zero count), the count, the 0-based page, the resolved size, the page count of count and size, and both neighbour flags |
| PageMath.CeilDiv | src/main/java/com/example/adminapp/service/mail/MailLogSearchServiceImpl.java:58 | the least quotient whose product with the divisor covers the count |
| PageMath.TotalPages | src/main/java/com/example/adminapp/service/mail/MailLogSearchServiceImpl.java:58 | the page count is never negative and is 0 exactly when the count or the size is 0 |
| PageMath.HasNextIff | src/main/java/com/example/adminapp/service/mail/MailLogSearchServiceImpl.java:58-60 | below `Integer.MAX_VALUE`, a next page is announced exactly when items lie beyond the current page |
| PageMath.HasNextAtMaxPage | src/main/java/com/example/adminapp/service/mail/MailLogSearchServiceImpl.java:60 | at page `Integer.MAX_VALUE`, `page + 1` wraps and a next page is always announced |
| JavaInt.Wrap | src/main/java/com/example/adminapp/service/mail/MailSearchService.java:148 | the result is congruent to the input modulo 2^32 and equals it when it fits |
| JavaInt.Add | src/main/java/com/example/adminapp/service/mail/MailSearchService.java:110 | `int` addition: exact when it fits, 2^32 lower on overflow |
| JavaInt.Sub | src/main/java/com/example/adminapp/service/mail/MailSearchService.java:148 | `int` subtraction: exact when it fits, 2^32 higher on underflow |
| JavaInt.Mul | src/main/java/com/example/adminapp/service/mail/MailSearchService.java:218 | `int` multiplication: exact when it fits |
| JavaInt.SaturatingCast | src/main/java/com/example/adminapp/service/mail/MailSearchService.java:108 | the `(int)` cast of a non-negative whole `double` clamps at `Integer.MAX_VALUE` |
| JavaInt.ParseInt | src/main/java/com/example/adminapp/service/mail/MailSearchService.java:163 | `Integer.valueOf` over ASCII digits: accepts only non-empty text; a negative result comes from a leading minus |
| JavaInt.ParseIntRoundTrip | src/main/java/com/example/adminapp/service/mail/MailSearchService.java:163 | parsing the decimal text of any `int` gives it back |
| JavaInt.DigitsRoundTrip | src/main/java/com/example/adminapp/service/mail/MailSearchService.java:163 | the digits written for a natural number read back as that number |
| Text.Strip | src/main/java/com/example/adminapp/validation/FormValidator.java:140 | the trimmed string has no whitespace of the given class at either end and is no longer than the input |
| Text.Utf16Length | src/main/java/com/example/adminapp/validation/FormValidator.java:105 | `length()` counts between one and two code units per character |
| Text.Utf16LengthAppend | src/main/java/com/example/adminapp/validation/FormValidator.java:105 | code-unit lengths add up over concatenation |
| Text.Utf16LengthBmp | src/main/java/com/example/adminapp/validation/FormValidator.java:105 | for text inside the Basic Multilingual Plane, `length()` is the number of characters |
| Text.Utf16LengthSupplementary | src/main/java/com/example/adminapp/validation/FormValidator.java:105 | text made only of characters above U+FFFF has two code units per character |
| Text.Utf16Prefix | src/main/ts/mail/mail-list.ts:428 | `substring(0, n)` cut at a character boundary: the longest prefix of at most n code units, so the next character would not fit |
| Text.JavaTrimIdempotent | src/main/java/com/example/adminapp/service/mail/MailSearchService.java:203 | trimming a trimmed string changes nothing |
| Text.JsTrimOfJavaTrimmed | src/main/resources/static/js/mail/mail-send.js:150 | a string the server has trimmed is left unchanged by JavaScript's `trim` |
| Text.BlankAfterTrim | src/main/java/com/example/adminapp/service/mail/dto/MailSendResponseDto.java:40-41 | after `trim`, the ASCII `isBlank` of the model is the same as `isEmpty` (Java's `isBlank` also counts non-ASCII spaces such as U+3000) |
| Text.SplitAllJoin | src/main/java/com/example/adminapp/validation/FormValidator.java:124 | splitting at every separator and joining again gives the input back |
| Text.JavaSplitTrailingSeparator | src/main/java/com/example/adminapp/validation/FormValidator.java:124 | `split` on a non-empty string ignores one trailing separator |
| Text.JavaSplitPieces | src/main/java/com/example/adminapp/validation/FormValidator.java:124 | no piece holds the separator, and the pieces are the full split with trailing empty pieces dropped |
| Text.ToUpper | src/main/ts/mail/mail-list.ts:377 | upper-casing maps each character on its own, moving only `a`-`z` |
| Http.ParamMapFirst | src/main/java/com/example/adminapp/controller/api/mail/MailLogApiController.java:46-52 | a parameter whose name does not occur earlier in the query binds to its first value |
| MailSendPage.GetFieldValue | src/main/resources/static/js/mail/mail-send.js:145-151 | a missing element or a null value gives the empty string; otherwise the JavaScript-trimmed value |
| MailSendPage.GetFieldValueIdempotent | src/main/resources/static/js/mail/mail-send.js:145-151 | reading back a value written from this function gives the same value |
| MailSendPage.BuildPayload | src/main/resources/static/js/mail/mail-send.js:115-129 | no payload exactly when the To, subject or body element is missing; otherwise trimmed values, reply-to equal to To, and `isHtml` iff the box exists and is checked |
| MailSendPage.FormPairs | src/main/resources/static/js/mail/mail-send.js:130-144 | one pair per entry, in order, with booleans written as "true"/"false" and null as "" |
| MailSendPage.BuildFormBody | src/main/resources/static/js/mail/mail-send.js:130-144 | the loop appends exactly the pairs `FormPairs` describes |
| MailSendPage.EntriesFollowTable | src/main/resources/static/js/mail/mail-send.js:120-128 | the payload's entries come in the same order as the server's field table, each under that field's parameter name |
| MailSendPage.FieldArrives | src/main/resources/static/js/mail/mail-send.js:130-144 | every field of the posted body binds on the server to the value the page computed |
| MailSendPage.FormReachesServer | src/main/resources/static/js/mail/mail-send.js:115-144 | the server's lookup of each field finds the page's value, and the server's `isHtml` flag equals the checkbox |
| MailSendPage.MessageOf | src/main/resources/static/js/mail/mail-send.js:97-98 | a string message from the server is shown as it is; otherwise the fallback for an ok or a failed status |
| MailSendPage.Kept | src/main/resources/static/js/mail/mail-send.js:205-211 | a global error contributes a line only when it is a string whose trim is non-empty, and then its trim |
| MailSendPage.PushErrors | src/main/resources/static/js/mail/mail-send.js:204-213 | the loop adds exactly the kept lines of the errors, in order |
| MailSendPage.ComposeGlobalMessage | src/main/resources/static/js/mail/mail-send.js:199-215 | the text is the non-empty message followed by the kept error lines, joined by newlines |
| MailSendPage.KeptCleanErrors | src/main/resources/static/js/mail/mail-send.js:205-211 | global errors the server already sanitized all become lines, unchanged |
| MailSendPage.SubmitOutcome | src/main/resources/static/js/mail/mail-send.js:99-109 | success styling (and the form reset) exactly for an ok status with a truthy `success`; danger styling otherwise; a failed request shows the network-error text |
| MailSendPage.MessageClass | src/main/resources/static/js/mail/mail-send.js:169-172 | the class is the base class, a space when both parts are non-empty, and the state class |
| MailSendPage.ReplyMessage | src/main/resources/static/js/mail/mail-send.js:97-98 | the message shown for a server reply is never empty |
| MailSendPage.ReplyLines | src/main/resources/static/js/mail/mail-send.js:97-106 | for a well-formed server reply, the lines shown are its message followed by its global errors, unchanged |
| MailSendPage.ShowsServerReply | src/main/resources/static/js/mail/mail-send.js:97-106 | a reply is shown as a success exactly when the status is ok and the service succeeded; a failure shows the message and the global errors joined by newlines |
| MailSendPage.RejectedFormShown | src/main/java/com/example/adminapp/service/mail/MailSendService.java:49-51 | a form the validator rejects is shown with the input-error message, in danger styling, and the form is kept |
| MailSendPage.SendPayload | src/main/resources/static/js/mail/mail-send.js:77-113 | the request body is the payload's pairs, and what is shown is the outcome of the reply in the composed class |
| MailSendPage.SubmitForm | src/main/resources/static/js/mail/mail-send.js:69-114 | nothing is sent, shown or reset exactly when the payload cannot be built; otherwise the payload's pairs are sent and the reply's outcome is shown |
| MailList.Number | src/main/ts/mail/mail-list.ts:360-362 | a member read as a number is present exactly when it holds a number |
| MailList.EnvelopeMembers | src/main/java/com/example/adminapp/service/mail/dto/MailLogSearchResponseDto.java:14-22 | the endpoint's JSON holds `totalCount`, `page`, `size` and `totalPages` as numbers, and no `totalSize` |
| MailList.SummaryFor | src/main/ts/mail/mail-list.ts:355-371 | no-data text exactly when the total or the item count is 0; otherwise the total, a first row of at least 1, and a last row at most the total |
| MailList.RenderSummaryAsWrittenNoData | src/main/ts/mail/mail-list.ts:360 | as written (reading `totalSize`), the summary of every envelope the endpoint sends is the no-data text |
| MailList.RenderSummaryOfEnvelope | src/main/ts/mail/mail-list.ts:355-371 | corrected: no-data exactly for a zero count or no items; otherwise rows page*size+1 up to the smaller of that plus the item count and the total |
| MailList.SummaryRangeInside | src/main/ts/mail/mail-list.ts:368-370 | for a page that lies inside the result, the shown range covers exactly the items and stays within 1..total |
| MailList.CeilPages | src/main/ts/mail/mail-list.ts:318 | the page count fallback is at least 1: 1 for no results, the ceiling of total/size otherwise, and `NaN` without a total or size |
| MailList.CeilUnique | src/main/ts/mail/mail-list.ts:318 | the integer formula for `Math.ceil` agrees with the least covering quotient |
| MailList.TotalPagesFor | src/main/ts/mail/mail-list.ts:316-318 | a finite page count on the bar is always at least 1 |
| MailList.Window | src/main/ts/mail/mail-list.ts:337-343 | the window starts at 1 or later; for a finite count it holds min(5, count) pages inside 1..count and contains the current page when that is in range; for `NaN` it holds five pages |
| MailList.NumberItems | src/main/ts/mail/mail-list.ts:345-347 | one item per page of the window |
| MailList.NumberItemsAt | src/main/ts/mail/mail-list.ts:345-347 | the k-th numbered item is page start + k, active exactly for the current page |
| MailList.RenderPagination | src/main/ts/mail/mail-list.ts:310-350 | corrected: the bar drawn is the pagination list of the current page and the page count read from `totalCount`, where the code reads `totalSize` |
| MailList.RenderItems | src/main/ts/mail/mail-list.ts:335-349 | previous item, numbered items and next item as the specification function lists them |
| MailList.AppendNumbers | src/main/ts/mail/mail-list.ts:345-347 | the loop appends exactly the numbered items of the window |
| MailList.PaginationShape | src/main/ts/mail/mail-list.ts:335-349 | the bar has min(5, pages) + 2 items; previous is page c - 1, disabled iff c <= 1; next is page c + 1, disabled iff c >= pages; the rest are the window's pages in order, all within 1..pages, active only at c |
| MailList.OneActiveItem | src/main/ts/mail/mail-list.ts:345-347 | for a current page within the count, exactly one item is active, and it is that page |
| MailList.QueryParamsShape | src/main/ts/mail/mail-list.ts:193-213 | the query is the non-empty condition members in a fixed order, then `page` and `size` |
| MailList.QueryLookup | src/main/ts/mail/mail-list.ts:193-213 | a key is bound in the query exactly when the reference binding gives it a value, and then to that value |
| MailList.QueryPaging | src/main/ts/mail/mail-list.ts:209-210 | the query binds `page` and `size` to their texts |
| MailList.QueryCarriesDates | src/main/ts/mail/mail-list.ts:197-204 | a date filter is bound exactly when non-empty, and then to its text |
| MailList.QueryCarriesStatus | src/main/ts/mail/mail-list.ts:197-205 | the status filter is bound exactly when non-empty, and then to its text |
| MailList.QueryCarriesText | src/main/ts/mail/mail-list.ts:197-207 | the address and subject filters are bound exactly when non-empty, and then to their texts |
| MailList.BindQueryOf | src/main/java/com/example/adminapp/controller/api/mail/MailLogApiController.java:45-52 | a query carrying the filters and numeric page and size binds to the controller's arguments |
| MailList.QueryReachesController | src/main/ts/mail/mail-list.ts:193-213 | the page's query for page p binds to the controller with every non-empty filter, page p and size 20, which become 0-based page p - 1 and size 20 |
| MailList.Truncate | src/main/ts/mail/mail-list.ts:421-429 | a missing or empty value shows as "-"; one within the limit in UTF-16 code units as it is; a longer one as the longest prefix fitting in `length` code units followed by "..." |
| MailList.PadTwoDigits | src/main/ts/mail/mail-list.ts:414-416 | a value from 0 to 99 is written as two digits that read back as it |
| MailList.BadgeClass | src/main/ts/mail/mail-list.ts:376-390 | each badge class is chosen exactly for its upper-cased statuses, and unknown statuses get the secondary badge |
| MailList.BadgeClassIgnoresCase | src/main/ts/mail/mail-list.ts:377 | the badge does not depend on letter case |
| MailList.InputValue | src/main/ts/mail/mail-list.ts:135-138 | a text input's value is trimmed |
| MailList.CollectSearchCondition | src/main/ts/mail/mail-list.ts:122-130 | the text filters are trimmed, and the status is the select's raw value |
| MailList.ResetForm | src/main/ts/mail/mail-list.ts:151-163 | after the reset every filter reads as empty, and no control appears or disappears |
| MailList.ClearedQuery | src/main/ts/mail/mail-list.ts:93-97 | after clearing, the query holds only `page` and `size` |
| MailList.ClickOnBar | src/main/ts/mail/mail-list.ts:102-117 | a click on the active item is ignored, and a click that is not ignored asks for another page, at least 1, from an enabled item |
| MailList.MailLogListPage.constructor | src/main/ts/mail/mail-list.ts:35-37 | a new page is on page 1 and has no saved condition |
| MailList.MailLogListPage.ExecuteSearch | src/main/ts/mail/mail-list.ts:168-188 | corrected: the query is built from the saved condition or the live form; the current page moves only when the fetch succeeds, and then the summary and bar of the reply are drawn reading `totalCount`, where the code reads `totalSize` |
| MailList.MailLogListPage.Init | src/main/ts/mail/mail-list.ts:47-51 | the first search asks for page 1 |
| MailList.MailLogListPage.HandleSearchButton | src/main/ts/mail/mail-list.ts:84-87 | saves the form's condition and searches page 1 with it |
| MailList.MailLogListPage.HandleClearButton | src/main/ts/mail/mail-list.ts:93-97 | clears the form, saves the empty condition, and searches page 1 with only `page` and `size` |
| MailList.MailLogListPage.HandlePaginationClick | src/main/ts/mail/mail-list.ts:102-117 | no search exactly when the guard ignores the target; otherwise a search for that page with the effective condition |
| MailList.EmptyResultBarAsWritten | src/main/ts/mail/mail-list.ts:316-318 | as written, an empty result (0 pages) gives `NaN` pages: five numbered links and an enabled next link |
| MailList.EmptyResultBar | src/main/ts/mail/mail-list.ts:316-349 | corrected: an empty result draws a disabled previous link, the active page 1, and a disabled next link |

## Left out

- Reflection over the enum: `resolveField` and its `IllegalStateException` are not modelled. The field table is the seven declarations of `MailSendField`, and an enum constant always has its field. The validator exception in `MailSendService.validate` therefore cannot arise, and the `validation.None?` branch of `MailSendService.Decide` stands for it.
- `FormField` is an interface outside this model. The model takes only its `paramName` from each constant.
- Stack traces printed by `MailSendService` are not modelled. The database `insert` is a parameter that gives the row count, or none for an exception.
- `LocalDateTime.now()` and `LocalDateTime.parse` are parameters: the clock reading and a date parser that returns none on failure. The `yyyy/MM/dd HH:mm` format itself is not modelled.
- The database queries `countByCondition` and `findByCondition` are parameters. The model records the calls made to `find` and their offset and size.
- The HTTP layer is partly left out:
  - percent-encoding and URL parsing are not modelled;
  - Spring's `@RequestParam` binding is reduced to the first value of each name;
  - a page or size that is not an `int` fails binding as a whole, and no status code or error body is modelled for it.
- Characters are reduced in four ways:
  - Java's `trim` removes the characters up to U+0020, exactly as in Java;
  - `String.isBlank` is modelled over ASCII whitespace only. Java's `Character.isWhitespace` also holds for U+1680, U+2000 to U+2006, U+2008 to U+200A, U+2028, U+2029, U+205F and U+3000, which the model does not treat as blank;
  - JavaScript's `trim` is modelled over ASCII whitespace only. It also removes U+00A0, U+1680, U+2000 to U+200A, U+2028, U+2029, U+202F, U+205F, U+3000 and U+FEFF, which the model keeps;
  - `toUpperCase` moves only ASCII letters.
- SanitizeOne (`MailSendResponseDto.SanitizeOne`): a global error that trims to non-ASCII spaces only, such as U+3000, is blank for Java and dropped by `failure`. The model keeps it, because its `isBlank` is ASCII-only.
- ParseInt (`JavaInt.ParseInt`): `Integer.valueOf` also accepts non-ASCII decimal digits, for example the full-width "２" as 2. The model accepts ASCII digits only. A page written in such digits therefore gives no page in `MailSearchService.ParsePage` and is then normalised to index 0, where Java gives index 1.
- Truncate (`MailList.Truncate`): when the cut at `length` code units falls inside a surrogate pair, JavaScript keeps a lone high surrogate, which a Dafny string cannot hold. The model keeps only the characters before that pair.
- `MailSearchService.Search`, `MailList.RenderPagination` and `MailList.MailLogListPage.ExecuteSearch` compute the corrected behaviour of the findings below, not the code as written:
  - `Search` returns the response of `BuildResponse`, not the shuffled one of `BuildResponseAsWritten`;
  - the page members read the page count and the summary total from `totalCount`, where the code reads `totalSize`.

  The as-written behaviour is stated separately by `MailSearchService.BuildResponseAsWrittenShuffles`, `MailList.RenderSummaryAsWrittenNoData` and `MailList.EmptyResultBarAsWritten`.
- JavaScript numbers are integers or `NaN`. Only `NaN` is modelled among non-finite or fractional results. JSON is reduced to the members the page reads.
- The DOM is left out. The following are not modelled:
  - `cacheElements`, `registerEvents` and `registerEventHandlers`;
  - `toggleSending` and `resetFeedback`;
  - `renderFieldErrors` and `clearFieldErrors`;
  - `renderTable` and its detail and resend buttons, and the `alert` texts;
  - the "sending" message.

  The controls are values that may be missing. A pagination link's caption is a label ("«", "»" or the page number) instead of its text.
- `MailList.MailLogListPage.ExecuteSearch`: `fetch` is a parameter that returns the parsed body, or none for any failure. Interleaving of concurrent `async` searches is not modelled.
- `formatDateTime` works on JavaScript `Date` and time zones, so it is not modelled. Only its `pad` helper is.
- `MailSendResponseDto`, `MailSearchResponseDto`, `MailLogSearchResponseDto` and the condition DTOs are immutable values in the model. The services' setter calls are record updates.
- `PageMath.TotalPages`: counts are taken below 2^53, where `(double) count / size` rounds to a value with the same ceiling as the exact quotient. Larger counts are not modelled.
- `MailSearchService.PagePastEndNotClamped`: a page past the last one is kept and the response says there is no next page. The services do not clamp it. The model follows the code here.

## Findings

| source | as written | input that shows it | evidently intended | confidence | as-written member | corrected member |
|---|---|---|---|---|---|---|
| src/main/java/com/example/adminapp/service/mail/MailSearchService.java:111-119 | the all-arguments constructor of `MailSearchResponseDto` takes (items, totalSize, totalPages, page, size, ...). It is called with (items, totalCount, page, size, totalPages, ...), so page lands in `totalPages`, size in `page`, and the page count in `size` | 45 results, page 0, size 20: the response says 0 pages, page 20, size 3 | 3 pages, page 0, size 20 | not executed | MailSearchService.BuildResponseAsWrittenShuffles | MailSearchService.BuildResponse |
| src/main/ts/mail/mail-list.ts:360 | the summary reads `data.totalSize`, but the endpoint's `MailLogSearchResponseDto` sends `totalCount`. The total is therefore always 0 | any response, for example 45 results with 20 items on page 0 | "全 45 件中 1〜20 件を表示" | not executed | MailList.RenderSummaryAsWrittenNoData | MailList.RenderSummaryOfEnvelope |
| src/main/ts/mail/mail-list.ts:318 | with `totalPages` 0 (no results), the fallback divides the missing `totalSize` by the size, and `Math.max(1, NaN)` is `NaN` | a search with no results | a bar with the single page 1 and both arrows disabled | not executed | MailList.EmptyResultBarAsWritten | MailList.EmptyResultBar |
