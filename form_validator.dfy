/** `FormValidator.validate`: checks raw request parameters against a table
    of field rules and collects one message per failing parameter, in field
    declaration order. */
module FormValidator {
  import opened Wrappers
  import opened Text
  import opened EmailPattern
  import opened FormField

  /** One entry of the error report: parameter name and message. */
  type Entry = (string, string)

  /** The keys of an insertion-ordered map, in order. */
  function Keys(entries: seq<Entry>): (ks: seq<string>)
    ensures |ks| == |entries|
    ensures forall i :: 0 <= i < |entries| ==> ks[i] == entries[i].0
  {
    seq(|entries|, i requires 0 <= i < |entries| => entries[i].0)
  }

  predicate DistinctKeys(entries: seq<Entry>) {
    forall i, j :: 0 <= i < j < |entries| ==> entries[i].0 != entries[j].0
  }

  /** `LinkedHashMap.put`: a present key keeps its position and takes the new
      value; a new key goes to the end. */
  function PutEntry(entries: seq<Entry>, key: string, value: string): (r: seq<Entry>)
    ensures key !in Keys(entries) ==> r == entries + [(key, value)]
    ensures key in Keys(entries) ==> Keys(r) == Keys(entries)
    ensures (key, value) in r
  {
    if entries == [] then [(key, value)]
    else if entries[0].0 == key then [(key, value)] + entries[1..]
    else
      var rest := PutEntry(entries[1..], key, value);
      assert Keys(entries[1..]) == Keys(entries)[1..];
      [entries[0]] + rest
  }

  /** Putting never repeats a key. */
  lemma {:induction false} PutEntryDistinct(entries: seq<Entry>, key: string, value: string)
    requires DistinctKeys(entries)
    ensures DistinctKeys(PutEntry(entries, key, value))
  {
    var r := PutEntry(entries, key, value);
    if key in Keys(entries) {
      forall i, j | 0 <= i < j < |r| ensures r[i].0 != r[j].0 {
        assert Keys(r)[i] == Keys(entries)[i] && Keys(r)[j] == Keys(entries)[j];
      }
    } else {
      forall i, j | 0 <= i < j < |r| ensures r[i].0 != r[j].0 {
        if j == |entries| {
          assert Keys(entries)[i] == r[i].0;
        }
      }
    }
  }

  /** `params.get(key)`: the raw value, `None` standing for Java's `null`. */
  function Lookup(params: map<string, string>, key: string): Option<string> {
    if key in params then Some(params[key]) else None
  }

  /** `normalize`: `null` becomes the empty string, anything else is trimmed. */
  function Normalize(raw: Option<string>): (v: string)
    ensures Trimmed(v, IsJavaTrimmable)
    ensures raw.None? ==> v == []
    ensures raw.Some? ==> v == JavaTrim(raw.value)
  {
    match raw
    case None => []
    case Some(s) => JavaTrim(s)
  }

  // ---------------------------------------------------------------------
  // The three rules, one step each, on the report built so far

  /** `validateRequired` */
  function RequiredStep(errors: seq<Entry>, name: string, value: string, message: string): seq<Entry> {
    if value == [] && name !in Keys(errors) then PutEntry(errors, name, message) else errors
  }

  /** `validateLength`; `length()` counts UTF-16 code units. */
  function LengthStep(errors: seq<Entry>, name: string, value: string, limit: int, message: string): seq<Entry> {
    if value != [] && Utf16Length(value) > limit && name !in Keys(errors) then PutEntry(errors, name, message) else errors
  }

  /** `validateEmails` */
  function EmailStep(errors: seq<Entry>, name: string, value: string, message: string): seq<Entry> {
    if value == [] || name in Keys(errors) then errors
    else if EmailListOk(value) then errors
    else PutEntry(errors, name, message)
  }

  /** The checks of one field, always in the order Required, MaxLength,
      EmailList, each only when its annotation is present. */
  function FieldStep(errors: seq<Entry>, field: FieldDecl, params: map<string, string>): seq<Entry> {
    var name := field.paramName;
    var value := Normalize(Lookup(params, name));
    var afterRequired := if field.required.Some? then RequiredStep(errors, name, value, field.required.value) else errors;
    var afterLength :=
      if field.maxLength.Some? then LengthStep(afterRequired, name, value, field.maxLength.value.limit, field.maxLength.value.message)
      else afterRequired;
    if field.emailList.Some? then EmailStep(afterLength, name, value, field.emailList.value) else afterLength
  }

  /** The report `validate` returns: the fields applied in declaration order to
      an initially empty map. */
  function Report(fields: seq<FieldDecl>, params: map<string, string>): seq<Entry> {
    if fields == [] then []
    else FieldStep(Report(fields[..|fields| - 1], params), fields[|fields| - 1], params)
  }

  // ---------------------------------------------------------------------
  // A reference definition: the first failing rule of each field

  /** The message of the first rule of `field` that `value` fails, if any. */
  function FirstFailure(field: FieldDecl, value: string): (r: Option<string>)
    ensures field.HasNoRules() ==> r.None?
    ensures field.required.Some? && value == [] ==> r == field.required
    ensures field.maxLength.Some? && value != [] && Utf16Length(value) > field.maxLength.value.limit ==>
              r == Some(field.maxLength.value.message)
    ensures r.None? <==>
              && (field.required.Some? ==> value != [])
              && (field.maxLength.Some? && value != [] ==> Utf16Length(value) <= field.maxLength.value.limit)
              && (field.emailList.Some? && value != [] ==> EmailListOk(value))
  {
    if field.required.Some? && value == [] then field.required
    else if field.maxLength.Some? && value != [] && Utf16Length(value) > field.maxLength.value.limit then Some(field.maxLength.value.message)
    else if field.emailList.Some? && value != [] && !EmailListOk(value) then field.emailList
    else None
  }

  /** The error entry a field contributes on its own. */
  function FieldErrors(field: FieldDecl, params: map<string, string>): seq<Entry> {
    match FirstFailure(field, Normalize(Lookup(params, field.paramName)))
    case Some(m) => [(field.paramName, m)]
    case None => []
  }

  /** One entry per failing field, in declaration order. */
  function Expected(fields: seq<FieldDecl>, params: map<string, string>): seq<Entry> {
    if fields == [] then []
    else Expected(fields[..|fields| - 1], params) + FieldErrors(fields[|fields| - 1], params)
  }

  /** Whatever it finds, a field's checks either leave the report alone or
      append one entry under the field's own name, which was not yet a key. */
  lemma FieldStepAppends(errors: seq<Entry>, field: FieldDecl, params: map<string, string>)
    ensures var r := FieldStep(errors, field, params);
            r == errors ||
            (field.paramName !in Keys(errors) && exists m :: r == errors + [(field.paramName, m)])
  {
    var name := field.paramName;
    var value := Normalize(Lookup(params, name));
    if name in Keys(errors) {
      assert FieldStep(errors, field, params) == errors;
    }
  }

  /** On a report without the field's key, the field's checks add exactly its
      first failure. */
  lemma FieldStepOnFreshKey(errors: seq<Entry>, field: FieldDecl, params: map<string, string>)
    requires field.paramName !in Keys(errors)
    ensures FieldStep(errors, field, params) == errors + FieldErrors(field, params)
  {
    var name := field.paramName;
    var value := Normalize(Lookup(params, name));
    var failure := FirstFailure(field, value);
    if failure.Some? {
      var r := errors + [(name, failure.value)];
      assert Keys(r)[|errors|] == name;
      if field.required.Some? && value == [] {
        assert RequiredStep(errors, name, value, field.required.value) == r;
      } else if field.maxLength.Some? && value != [] && Utf16Length(value) > field.maxLength.value.limit {
        assert LengthStep(errors, name, value, field.maxLength.value.limit, field.maxLength.value.message) == r;
      } else {
        assert EmailStep(errors, name, value, field.emailList.value) == r;
      }
    }
  }

  /** The last field's name is not among the names before it. */
  lemma LastNameIsNew(fields: seq<FieldDecl>)
    requires DistinctNames(fields) && fields != []
    ensures fields[|fields| - 1].paramName !in ParamNames(fields[..|fields| - 1])
  {
    var prefix := fields[..|fields| - 1];
    forall j | 0 <= j < |prefix| ensures ParamNames(prefix)[j] != fields[|fields| - 1].paramName {
      assert prefix[j] == fields[j];
    }
  }

  /** Every name of a prefix of the table is a name of the table. */
  lemma PrefixNames(fields: seq<FieldDecl>, k: string)
    requires fields != [] && k in ParamNames(fields[..|fields| - 1])
    ensures k in ParamNames(fields)
  {
    var prefix := fields[..|fields| - 1];
    var j :| 0 <= j < |prefix| && ParamNames(prefix)[j] == k;
    assert ParamNames(fields)[j] == k;
  }

  /** Whatever the table, the report holds each key at most once, and only
      keys that are parameter names of the table. */
  lemma {:induction false} ReportKeys(fields: seq<FieldDecl>, params: map<string, string>)
    ensures DistinctKeys(Report(fields, params))
    ensures forall k :: k in Keys(Report(fields, params)) ==> k in ParamNames(fields)
  {
    if fields != [] {
      var prefix := fields[..|fields| - 1];
      var last := fields[|fields| - 1];
      ReportKeys(prefix, params);
      var before := Report(prefix, params);
      var after := Report(fields, params);
      FieldStepAppends(before, last, params);
      assert ParamNames(fields)[|fields| - 1] == last.paramName;
      forall k | k in Keys(after) ensures k in ParamNames(fields) {
        if k != last.paramName {
          assert k in Keys(before);
          PrefixNames(fields, k);
        }
      }
    }
  }

  /** The keys of the reference report are parameter names of the table. */
  lemma {:induction false} ExpectedKeys(fields: seq<FieldDecl>, params: map<string, string>)
    ensures forall k :: k in Keys(Expected(fields, params)) ==> k in ParamNames(fields)
  {
    if fields != [] {
      var prefix := fields[..|fields| - 1];
      ExpectedKeys(prefix, params);
      forall k | k in Keys(Expected(prefix, params)) ensures k in ParamNames(fields) {
        PrefixNames(fields, k);
      }
      assert ParamNames(fields)[|fields| - 1] == fields[|fields| - 1].paramName;
    }
  }

  /** With distinct parameter names (as every enum table has), the report is
      exactly one entry per failing field, in declaration order, carrying the
      message of that field's first failing rule. */
  lemma {:induction false} ReportIsExpected(fields: seq<FieldDecl>, params: map<string, string>)
    requires DistinctNames(fields)
    ensures Report(fields, params) == Expected(fields, params)
  {
    if fields != [] {
      var prefix := fields[..|fields| - 1];
      var last := fields[|fields| - 1];
      assert DistinctNames(prefix);
      ReportIsExpected(prefix, params);
      ExpectedKeys(prefix, params);
      LastNameIsNew(fields);
      FieldStepOnFreshKey(Report(prefix, params), last, params);
    }
  }

  lemma KeysAppend(a: seq<Entry>, b: seq<Entry>)
    ensures Keys(a + b) == Keys(a) + Keys(b)
  {
    assert forall i :: 0 <= i < |a| + |b| ==> Keys(a + b)[i] == (Keys(a) + Keys(b))[i];
  }

  /** Per field of the reference report: its name is a key iff one of its
      rules fails, and then the entry carries its first failing message. */
  lemma {:induction false} ExpectedLookup(fields: seq<FieldDecl>, params: map<string, string>, j: nat)
    requires DistinctNames(fields)
    requires j < |fields|
    ensures var r := Expected(fields, params);
            var failure := FirstFailure(fields[j], Normalize(Lookup(params, fields[j].paramName)));
            (failure.Some? <==> fields[j].paramName in Keys(r)) &&
            (failure.Some? ==> (fields[j].paramName, failure.value) in r)
  {
    var prefix := fields[..|fields| - 1];
    var last := fields[|fields| - 1];
    var name := fields[j].paramName;
    var tail := FieldErrors(last, params);
    KeysAppend(Expected(prefix, params), tail);
    assert DistinctNames(prefix);
    if j == |fields| - 1 {
      LastNameIsNew(fields);
      ExpectedKeys(prefix, params);
      assert name !in Keys(Expected(prefix, params));
      var failure := FirstFailure(last, Normalize(Lookup(params, name)));
      if failure.Some? {
        assert tail == [(name, failure.value)];
        assert Keys(tail) == [name];
      } else {
        assert tail == [];
      }
    } else {
      assert prefix[j] == fields[j];
      ExpectedLookup(prefix, params, j);
      assert ParamNames(fields)[j] == name;
      assert ParamNames(fields)[|fields| - 1] == last.paramName;
      assert name !in Keys(tail);
    }
  }

  /** Per field: its name is a key of the report iff one of its rules fails,
      and then the message is that of its first failing rule. */
  lemma ReportLookup(fields: seq<FieldDecl>, params: map<string, string>, j: nat)
    requires DistinctNames(fields)
    requires j < |fields|
    ensures var r := Report(fields, params);
            var failure := FirstFailure(fields[j], Normalize(Lookup(params, fields[j].paramName)));
            (failure.Some? <==> fields[j].paramName in Keys(r)) &&
            (failure.Some? ==> (fields[j].paramName, failure.value) in r)
  {
    ReportIsExpected(fields, params);
    ExpectedLookup(fields, params, j);
  }

  /** Nothing fails exactly when the report is empty. */
  lemma {:induction false} ReportEmptyIff(fields: seq<FieldDecl>, params: map<string, string>)
    ensures Expected(fields, params) == [] <==>
            forall j :: 0 <= j < |fields| ==> FirstFailure(fields[j], Normalize(Lookup(params, fields[j].paramName))).None?
  {
    if fields != [] {
      var prefix := fields[..|fields| - 1];
      ReportEmptyIff(prefix, params);
      assert forall j :: 0 <= j < |prefix| ==> prefix[j] == fields[j];
    }
  }

  // ---------------------------------------------------------------------
  // The imperative validator

  /** The `LinkedHashMap<String, String>` that `validate` fills and that the
      rule helpers receive by reference. */
  class ErrorMap {
    var entries: seq<Entry>

    constructor ()
      ensures entries == []
    {
      entries := [];
    }

    predicate ContainsKey(key: string)
      reads this
    {
      key in Keys(entries)
    }

    method Put(key: string, value: string)
      modifies this
      ensures entries == PutEntry(old(entries), key, value)
    {
      entries := PutEntry(entries, key, value);
    }
  }

  method ValidateRequired(fieldName: string, value: string, message: string, errors: ErrorMap)
    modifies errors
    ensures errors.entries == RequiredStep(old(errors.entries), fieldName, value, message)
  {
    if value == [] && !errors.ContainsKey(fieldName) {
      errors.Put(fieldName, message);
    }
  }

  method ValidateLength(fieldName: string, value: string, maxLength: int, message: string, errors: ErrorMap)
    modifies errors
    ensures errors.entries == LengthStep(old(errors.entries), fieldName, value, maxLength, message)
  {
    if value != [] && Utf16Length(value) > maxLength && !errors.ContainsKey(fieldName) {
      errors.Put(fieldName, message);
    }
  }

  /** `validateEmails`: walks the comma-separated candidates and stops at the
      first one that is blank or not an address. */
  method ValidateEmails(fieldName: string, value: string, message: string, errors: ErrorMap)
    modifies errors
    ensures errors.entries == EmailStep(old(errors.entries), fieldName, value, message)
  {
    if value == [] || errors.ContainsKey(fieldName) {
      return;
    }
    var ok := CheckCandidates(JavaSplit(value, ','));
    if !ok {
      errors.Put(fieldName, message);
    }
  }

  /** `validate`: a fresh report filled field by field. */
  method Validate(fields: seq<FieldDecl>, params: map<string, string>) returns (rtn: ErrorMap)
    ensures fresh(rtn)
    ensures rtn.entries == Report(fields, params)
  {
    rtn := new ErrorMap();
    var i := 0;
    while i < |fields|
      invariant 0 <= i <= |fields|
      invariant rtn.entries == Report(fields[..i], params)
    {
      var field := fields[i];
      var paramName := field.paramName;
      var value := Normalize(Lookup(params, paramName));
      if field.required.Some? {
        ValidateRequired(paramName, value, field.required.value, rtn);
      }
      if field.maxLength.Some? {
        ValidateLength(paramName, value, field.maxLength.value.limit, field.maxLength.value.message, rtn);
      }
      if field.emailList.Some? {
        ValidateEmails(paramName, value, field.emailList.value, rtn);
      }
      assert fields[..i + 1][..i] == fields[..i];
      i := i + 1;
    }
    assert fields[..|fields|] == fields;
  }
}
