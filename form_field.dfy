/** The rule annotations a form-field enum constant may carry (`@Required`,
    `@MaxLength`, `@EmailList`), read once into a static table instead of by
    reflection. */
module FormField {
  import opened Wrappers

  /** `@MaxLength(value = limit, message = message)` */
  datatype MaxLength = MaxLength(limit: int, message: string)

  /** One constant of a form-field enum: its request parameter name and the
      message of each rule annotation it carries (`None` when absent). */
  datatype FieldDecl = FieldDecl(
    paramName: string,
    required: Option<string>,
    maxLength: Option<MaxLength>,
    emailList: Option<string>)
  {
    /** The constant carries no rule annotation at all. */
    predicate HasNoRules() {
      required.None? && maxLength.None? && emailList.None?
    }
  }

  /** The parameter names of a field table, in declaration order. */
  function ParamNames(fields: seq<FieldDecl>): (names: seq<string>)
    ensures |names| == |fields|
    ensures forall i :: 0 <= i < |fields| ==> names[i] == fields[i].paramName
  {
    seq(|fields|, i requires 0 <= i < |fields| => fields[i].paramName)
  }

  predicate DistinctNames(fields: seq<FieldDecl>) {
    forall i, j :: 0 <= i < j < |fields| ==> fields[i].paramName != fields[j].paramName
  }
}
