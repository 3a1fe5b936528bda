/** What the two storage schemas share: per-field validation errors and the combined message. */
module Schema {

  /** The first failing validator of one field: the field's path and the validator's message. */
  datatype FieldError = FieldError(path: string, message: string)

  /** "path: message" for each error, joined by ", ". */
  function JoinErrors(errs: seq<FieldError>): (r: string)
    ensures errs == [] <==> r == ""
  {
    if errs == [] then ""
    else
      var first := errs[0].path + ": " + errs[0].message;
      if |errs| == 1 then first else first + ", " + JoinErrors(errs[1..])
  }

  /** The message of a rejected document: "<Model> validation failed: " and the joined field errors. */
  function ValidationMessage(model: string, errs: seq<FieldError>): string {
    model + " validation failed: " + JoinErrors(errs)
  }
}
