/** `signUpSchema` (src/schemas/signup.ts): the shape a signup body must have. */
module SignUpSchema {
  import opened Wrappers
  import opened Fields

  const NameRules := LengthRules(
    "Name is required",
    2, "Name must be at least 2 characters long",
    255, "Name must be at most 255 characters long")

  const EmailMessages := EmailRules(
    "Email is required",
    "Email must be a valid email address")

  const PasswordRules := LengthRules(
    "Password is required",
    6, "Password must be at least 6 characters long",
    255, "Password must be at most 255 characters long")

  /** The parsed data: exactly the three strings, nothing else. */
  datatype SignUpData = SignUpData(name: string, email: string, password: string)

  /** When the schema accepts a body, written out with its literal bounds. */
  predicate Accepts(body: Body, isEmail: string -> bool)
  {
    && body.JsonObject?
    && body.name.Text? && 2 <= |body.name.s| <= 255
    && body.email.Text? && isEmail(body.email.s)
    && body.password.Text? && 6 <= |body.password.s| <= 255
  }

  /** `signUpSchema.safeParse(body)`, failures already flattened to field
      errors. Each property is checked on its own and reported under its key. */
  function SafeParse(body: Body, isEmail: string -> bool): (r: Result<SignUpData, FieldErrors>)
    ensures r.Success? <==> Accepts(body, isEmail)
    ensures r.Success? ==> r.value == SignUpData(body.name.s, body.email.s, body.password.s)
    ensures body.NotAnObject? ==> r == Failure(map[])
    ensures r.Failure? && body.JsonObject? ==>
      && r.error.Keys <= {"name", "email", "password"}
      && r.error != map[]
      && ("name" in r.error <==> LengthIssues(body.name, NameRules) != [])
      && ("name" in r.error ==> r.error["name"] == LengthIssues(body.name, NameRules))
      && ("email" in r.error <==> EmailIssues(body.email, EmailMessages, isEmail) != [])
      && ("email" in r.error ==> r.error["email"] == EmailIssues(body.email, EmailMessages, isEmail))
      && ("password" in r.error <==> LengthIssues(body.password, PasswordRules) != [])
      && ("password" in r.error ==> r.error["password"] == LengthIssues(body.password, PasswordRules))
  {
    match body
    case NotAnObject => Failure(map[])
    case JsonObject(name, email, password) =>
      var nameIssues := LengthIssues(name, NameRules);
      var emailIssues := EmailIssues(email, EmailMessages, isEmail);
      var passwordIssues := LengthIssues(password, PasswordRules);
      if nameIssues == [] && emailIssues == [] && passwordIssues == [] then
        Success(SignUpData(name.s, email.s, password.s))
      else
        Failure(WithIssues(WithIssues(WithIssues(map[], "name", nameIssues), "email", emailIssues), "password", passwordIssues))
  }

  /** A body whose email and password are valid, with the given name. */
  function WithName(name: string, email: string, password: string): Body
  {
    JsonObject(Text(name), Text(email), Text(password))
  }

  /** The name bounds are inclusive: lengths 2 and 255 pass; 1 fails with the
      minimum message only and 256 with the maximum message only. */
  lemma NameBoundaries(name: string, email: string, password: string, isEmail: string -> bool)
    requires isEmail(email) && 6 <= |password| <= 255
    ensures |name| == 2 || |name| == 255 ==> SafeParse(WithName(name, email, password), isEmail).Success?
    ensures |name| == 1 ==> SafeParse(WithName(name, email, password), isEmail)
                            == Failure(map["name" := ["Name must be at least 2 characters long"]])
    ensures |name| == 256 ==> SafeParse(WithName(name, email, password), isEmail)
                              == Failure(map["name" := ["Name must be at most 255 characters long"]])
  {
  }

  /** The password bounds are inclusive: lengths 6 and 255 pass; 5 fails with
      the minimum message only and 256 with the maximum message only. */
  lemma PasswordBoundaries(name: string, email: string, password: string, isEmail: string -> bool)
    requires isEmail(email) && 2 <= |name| <= 255
    ensures |password| == 6 || |password| == 255 ==> SafeParse(WithName(name, email, password), isEmail).Success?
    ensures |password| == 5 ==> SafeParse(WithName(name, email, password), isEmail)
                                == Failure(map["password" := ["Password must be at least 6 characters long"]])
    ensures |password| == 256 ==> SafeParse(WithName(name, email, password), isEmail)
                                  == Failure(map["password" := ["Password must be at most 255 characters long"]])
  {
  }

  /** A missing property yields that property's "... is required" message,
      and an address the email check rejects yields the invalid-email
      message; the other properties are reported independently. */
  lemma RequiredAndInvalidMessages(body: Body, isEmail: string -> bool)
    requires body.JsonObject?
    ensures var r := SafeParse(body, isEmail);
      && (body.name.Missing? ==> r.Failure? && r.error["name"] == ["Name is required"])
      && (body.email.Missing? ==> r.Failure? && r.error["email"] == ["Email is required"])
      && (body.password.Missing? ==> r.Failure? && r.error["password"] == ["Password is required"])
      && (body.email.Text? && !isEmail(body.email.s) ==>
            r.Failure? && r.error["email"] == ["Email must be a valid email address"])
  {
  }
}
