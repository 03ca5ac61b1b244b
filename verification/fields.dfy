/** The request body as the two zod schemas see it, and the issue lists a
    `z.string(...)` chain produces for one property. Only the three keys the
    schemas read are represented; zod strips every other key. */
module Fields {

  /** One property of the parsed JSON body. `Missing` is `undefined` (the key
      is absent); `NonText` is any non-string JSON value, named the way zod
      names received types ("number", "null", "object", ...). */
  datatype Field = Missing | Text(s: string) | NonText(received: string)

  /** `req.body`: either not an object at all, or an object whose `name`,
      `email` and `password` properties are the given fields. */
  datatype Body = NotAnObject | JsonObject(name: Field, email: Field, password: Field)

  /** Field-level errors as `error.flatten().fieldErrors` reports them: a key
      is present exactly when that property produced at least one issue. */
  type FieldErrors = map<string, seq<string>>

  /** The messages and bounds of `z.string({required_error}).min(..).max(..)`. */
  datatype LengthRules = LengthRules(
    required: string,
    min: nat, minMessage: string,
    max: nat, maxMessage: string)

  /** The messages of `z.string({required_error}).email({message})`. */
  datatype EmailRules = EmailRules(required: string, invalid: string)

  /** zod's default message for a value of the wrong type. */
  function TypeMessage(received: string): string
  {
    "Expected string, received " + received
  }

  /** Issues of a length-checked string property. A missing or non-string
      value stops at the type check; a string runs both length checks, each
      inclusive, and reports every one that fails. */
  function LengthIssues(f: Field, rules: LengthRules): (issues: seq<string>)
    ensures issues == [] <==> f.Text? && rules.min <= |f.s| <= rules.max
    ensures f.Missing? ==> issues == [rules.required]
    ensures f.NonText? ==> issues == [TypeMessage(f.received)]
    ensures f.Text? && |f.s| < rules.min && |f.s| <= rules.max ==> issues == [rules.minMessage]
    ensures f.Text? && rules.min <= |f.s| && rules.max < |f.s| ==> issues == [rules.maxMessage]
    ensures f.Text? ==> |issues| <= 2
  {
    match f
    case Missing => [rules.required]
    case NonText(received) => [TypeMessage(received)]
    case Text(s) =>
      (if |s| < rules.min then [rules.minMessage] else [])
      + (if |s| > rules.max then [rules.maxMessage] else [])
  }

  /** Issues of an email-checked string property; whether a string is an
      email address is zod's own regular expression, given as `isEmail`. */
  function EmailIssues(f: Field, rules: EmailRules, isEmail: string -> bool): (issues: seq<string>)
    ensures issues == [] <==> f.Text? && isEmail(f.s)
    ensures f.Missing? ==> issues == [rules.required]
    ensures f.NonText? ==> issues == [TypeMessage(f.received)]
    ensures f.Text? && !isEmail(f.s) ==> issues == [rules.invalid]
  {
    match f
    case Missing => [rules.required]
    case NonText(received) => [TypeMessage(received)]
    case Text(s) => if isEmail(s) then [] else [rules.invalid]
  }

  /** Files one property's issues under its key, as `flatten` does. */
  function WithIssues(errors: FieldErrors, key: string, issues: seq<string>): (r: FieldErrors)
    ensures key in r <==> key in errors || issues != []
    ensures issues != [] ==> r[key] == issues
    ensures forall k :: k != key && k in errors ==> k in r && r[k] == errors[k]
    ensures forall k :: k != key && k in r ==> k in errors
  {
    if issues == [] then errors else errors[key := issues]
  }
}
