/** `signInSchema` (src/schemas/signin.ts): the shape a signin body must have.
    It has no `name` property; a body's name is never looked at. */
module SignInSchema {
  import opened Wrappers
  import opened Fields

  const EmailMessages := EmailRules(
    "Email is required",
    "Email must be a valid email address")

  const PasswordRules := LengthRules(
    "Password is required",
    6, "Password must be at least 6 characters long",
    255, "Password must be at most 255 characters long")

  datatype SignInData = SignInData(email: string, password: string)

  /** When the schema accepts a body, written out with its literal bounds. */
  predicate Accepts(body: Body, isEmail: string -> bool)
  {
    && body.JsonObject?
    && body.email.Text? && isEmail(body.email.s)
    && body.password.Text? && 6 <= |body.password.s| <= 255
  }

  /** `signInSchema.safeParse(body)`, failures already flattened to field errors. */
  function SafeParse(body: Body, isEmail: string -> bool): (r: Result<SignInData, FieldErrors>)
    ensures r.Success? <==> Accepts(body, isEmail)
    ensures r.Success? ==> r.value == SignInData(body.email.s, body.password.s)
    ensures body.NotAnObject? ==> r == Failure(map[])
    ensures r.Failure? && body.JsonObject? ==>
      && r.error.Keys <= {"email", "password"}
      && r.error != map[]
      && ("email" in r.error <==> EmailIssues(body.email, EmailMessages, isEmail) != [])
      && ("email" in r.error ==> r.error["email"] == EmailIssues(body.email, EmailMessages, isEmail))
      && ("password" in r.error <==> LengthIssues(body.password, PasswordRules) != [])
      && ("password" in r.error ==> r.error["password"] == LengthIssues(body.password, PasswordRules))
  {
    match body
    case NotAnObject => Failure(map[])
    case JsonObject(_, email, password) =>
      var emailIssues := EmailIssues(email, EmailMessages, isEmail);
      var passwordIssues := LengthIssues(password, PasswordRules);
      if emailIssues == [] && passwordIssues == [] then
        Success(SignInData(email.s, password.s))
      else
        Failure(WithIssues(WithIssues(map[], "email", emailIssues), "password", passwordIssues))
  }

  /** The `name` property, present or not, valid or not, changes nothing. */
  lemma NameIgnored(n1: Field, n2: Field, email: Field, password: Field, isEmail: string -> bool)
    ensures SafeParse(JsonObject(n1, email, password), isEmail)
         == SafeParse(JsonObject(n2, email, password), isEmail)
  {
  }

  /** The password bounds are inclusive: lengths 6 and 255 pass; 5 fails with
      the minimum message only and 256 with the maximum message only. */
  lemma PasswordBoundaries(name: Field, email: string, password: string, isEmail: string -> bool)
    requires isEmail(email)
    ensures var r := SafeParse(JsonObject(name, Text(email), Text(password)), isEmail);
      && (|password| == 6 || |password| == 255 ==> r.Success?)
      && (|password| == 5 ==> r == Failure(map["password" := ["Password must be at least 6 characters long"]]))
      && (|password| == 256 ==> r == Failure(map["password" := ["Password must be at most 255 characters long"]]))
  {
  }

  /** Missing properties and an invalid address get their configured messages. */
  lemma RequiredAndInvalidMessages(body: Body, isEmail: string -> bool)
    requires body.JsonObject?
    ensures var r := SafeParse(body, isEmail);
      && (body.email.Missing? ==> r.Failure? && r.error["email"] == ["Email is required"])
      && (body.password.Missing? ==> r.Failure? && r.error["password"] == ["Password is required"])
      && (body.email.Text? && !isEmail(body.email.s) ==>
            r.Failure? && r.error["email"] == ["Email must be a valid email address"])
  {
  }
}
