# Account registration and sign-in, modelled in Dafny

This project models the authentication core of a small social-posting
backend. That core has two HTTP handlers, `signup` and `signin`. They sit on
the account repository (`getUserByEmail`, `getUserBySlug`, `createUser`), two
zod request schemas and the public-URL helper that renders stored image
paths.

The model is functional. The account table is an immutable sequence of rows
in insertion order. Each handler is a pure function from (table, request
body) to (response, table afterwards):

- `AuthController.Signup` validates the body and rejects a known email. It
  then searches for a free slug: first `slug(name)`, then
  `slug(name + suffix)` with a random suffix, until a slug is unused. It
  stores the bcrypt hash and answers 201 with a token and the public fields.
- `AuthController.Signin` validates the body, looks up the email and
  compares the password. An unknown email and a wrong password produce the
  same 401 "Access denied".

The library code the handlers call is passed in as uninterpreted functions
(`AuthController.Foreign`). That covers the `slug` package, bcrypt `hash`
and `compare`, and zod's email check. A JSON Web Token is the abstract value
`Jwt(slug)`. `process.env.BASE_URL` and the table's column defaults are an
explicit `Config`. The `Math.random()` draws arrive as a finite sequence of
`Suffix` values (0..999998, the range of `Math.floor(Math.random() * 999999)`).

Modules follow the source files:

| file | module | source |
|---|---|---|
| url.dfy | `Url` | src/utils/url.ts |
| decimal.dfy | `Decimal` | `Number.prototype.toString` as used at src/controllers/auth.ts:50 |
| fields.dfy | `Fields` | the zod string checks both schemas use |
| signup_schema.dfy | `SignUpSchema` | src/schemas/signup.ts |
| signin_schema.dfy | `SignInSchema` | src/schemas/signin.ts |
| user_service.dfy | `UserService` | src/services/user.ts |
| auth_controller.dfy | `AuthController` | src/controllers/auth.ts |
| auth_properties.dfy | `AuthProperties` | lemmas relating several handler calls |
| wrappers.dfy | `Wrappers` | `Option` (null) and `Result` |

Facts about the code that shape the model:

- The suffix is `Math.floor(Math.random() * 999999)`, so it ranges over 0..999998.
- The slug loop has no attempt cap.
- A unique-constraint conflict in `createUser` is not retried.
- Tokens carry no expiry.
- `signup` and `signin` validate their own bodies before anything else.

## Model

| member | source | states |
|---|---|---|
| Url.PublicUrl | src/utils/url.ts:7-9 | the URL is the base text, then '/', then the path unchanged; its length is \|base\| + 1 + \|path\|; an unset BASE_URL renders as "undefined" |
| Url.PathOf | src/utils/url.ts:8 | the inverse of rendering: a path it returns renders back to the URL, and when it returns none, no path renders to that URL |
| Url.PathOfPublicUrl | src/utils/url.ts:8 | stripping the base from a rendered URL gives back the stored path |
| Url.PublicUrlInjective | src/utils/url.ts:8 | for a fixed base, two paths render to the same URL exactly when they are equal |
| Decimal.ToString | src/controllers/auth.ts:50 | a suffix's text is non-empty, all digits, starts with '0' only for 0, and has one digit exactly below 10 |
| Decimal.ValueOfToString | src/controllers/auth.ts:50 | reading the digits back gives the drawn number |
| Decimal.ToStringInjective | src/controllers/auth.ts:50-51 | distinct draws give distinct suffix texts |
| Fields.LengthIssues | src/schemas/signup.ts:28-31 | a string property passes exactly when min <= length <= max (both inclusive); missing gives the required message, a non-string the type message, a short string only the min message, a long one only the max message |
| Fields.EmailIssues | src/schemas/signup.ts:25-27 | an email property passes exactly when it is a string the email check accepts; missing gives the required message, a rejected address the invalid message |
| Fields.WithIssues | src/controllers/auth.ts:28 | a field's key appears in the flattened errors exactly when it has issues, holding those issues; other keys are untouched |
| SignUpSchema.SafeParse | src/schemas/signup.ts:20-32 | accepts exactly when 2 <= \|name\| <= 255, the email passes the check and 6 <= \|password\| <= 255, returning those three strings; otherwise each key maps to its own property's issues only; a non-object body gives no field errors |
| SignUpSchema.NameBoundaries | src/schemas/signup.ts:21-24 | name lengths 2 and 255 pass; 1 fails with only "Name must be at least 2 characters long", 256 with only "Name must be at most 255 characters long" |
| SignUpSchema.PasswordBoundaries | src/schemas/signup.ts:28-31 | password lengths 6 and 255 pass; 5 and 256 fail with only the min or max password message |
| SignUpSchema.RequiredAndInvalidMessages | src/schemas/signup.ts:3-18 | a missing name, email or password yields its "... is required" message; a rejected address yields "Email must be a valid email address" |
| SignInSchema.SafeParse | src/schemas/signin.ts:15-23 | accepts exactly when the email passes the check and 6 <= \|password\| <= 255, returning those two strings; otherwise per-key issues for email and password only |
| SignInSchema.NameIgnored | src/schemas/signin.ts:15-23 | the body's name property, whatever it holds, does not change the outcome |
| SignInSchema.PasswordBoundaries | src/schemas/signin.ts:19-22 | password lengths 6 and 255 pass; 5 and 256 fail with only the min or max message |
| SignInSchema.RequiredAndInvalidMessages | src/schemas/signin.ts:3-13 | a missing email or password yields its required message; a rejected address yields the invalid-email message |
| UserService.FindUnique | src/services/user.ts:13-15 | finds nothing exactly when no row holds the value in that column; a found row is in the table and holds the value |
| UserService.FindUniqueFindsRow | src/services/user.ts:37-47 | on a unique column the lookup returns the one row holding the value |
| UserService.GetUserByEmail | src/services/user.ts:11-27 | null exactly when no row has the email; otherwise a row with that email where only avatar and cover are replaced by their public URLs |
| UserService.GetUserByEmailIsTheRow | src/services/user.ts:13-22 | in a table with unique emails, the result is that email's row, rendered |
| UserService.GetUserBySlug | src/services/user.ts:35-59 | null exactly when no row has the slug; otherwise avatar, cover, slug, name, bio and link of such a row, with public URLs; the result type has no email or password |
| UserService.GetUserBySlugIsTheRow | src/services/user.ts:37-54 | in a table with unique slugs, the result is that slug's row, projected |
| UserService.CreateUser | src/services/user.ts:67-77 | fails exactly when the email or slug is taken; otherwise appends one row with the given fields and the column defaults, keeps every old row, returns the new row rendered, and keeps both columns unique |
| AuthController.SlugSearch | src/controllers/auth.ts:45-56 | a returned slug is free and is the current candidate or one built from the original name and a draw; no slug exactly when the current candidate and every retry are taken |
| AuthController.PickSlug | src/controllers/auth.ts:42-56 | the loop starts from slug(name); the chosen slug is free and among the candidates; it gives up only when every candidate is taken |
| AuthController.Signup | src/controllers/auth.ts:22-78 | a rejected body gives 400 with its field errors; a known email gives 400 "User already exists"; every non-201 leaves the table unchanged; a 201 appends exactly one row (chosen slug, name, email, hash(password), defaults) with a free slug, answers Jwt(slug) and the row's name, slug and avatar URL, and keeps emails and slugs unique |
| AuthController.Signin | src/controllers/auth.ts:92-132 | never changes the table; a rejected body gives 401 with its field errors; an unknown email gives 401 "Access denied"; any other answer is 200 with Jwt(slug) and the public fields of an account with that email whose stored hash the password matches |
| AuthProperties.SlugSearchIsFirstFree | src/controllers/auth.ts:45-56 | the loop returns the first free candidate, in order, and gives up only when none is free |
| AuthProperties.PickSlugIsFirstFree | src/controllers/auth.ts:43-56 | the chosen slug is the first free one of slug(name), slug(name + d0), slug(name + d1), ... |
| AuthProperties.SignupChoosesFirstFree | src/controllers/auth.ts:42-67 | the inserted row carries the first free candidate slug and the token is issued for it |
| AuthProperties.SignupSucceedsIff | src/controllers/auth.ts:24-76 | signup answers 201 exactly when the body is valid, the email is new and some candidate slug is free |
| AuthProperties.SignupDuplicateEmail | src/controllers/auth.ts:33-40 | a valid body whose email is on file always gets 400 "User already exists", and the table is unchanged, whatever the name and password |
| AuthProperties.SuccessiveSignupsDistinct | src/controllers/auth.ts:42-65 | two successful signups in a row insert rows with different slugs and emails, and the table stays unique on both |
| AuthProperties.SigninUniformDenial | src/controllers/auth.ts:103-119 | an unknown email and a wrong password give the identical 401 "Access denied" response, and neither changes the table |
| AuthProperties.SigninSucceeds | src/controllers/auth.ts:103-130 | the account's email with a password compare accepts gives 200 with Jwt(slug) and that account's name, slug and avatar URL |
| AuthProperties.SignupThenSignin | src/controllers/auth.ts:58-130 | if compare accepts a password against its own hash, signing in right after signup returns 200 with a token for the same slug and the same user object signup returned |

## Left out

- Token verification middleware and request guarding: the middleware that sets the request's identity is not part of this model.
- src/utils/jwt.ts: signing with `JWT_SECRET` and the `iat` claim are not modelled; a token is the abstract value `Jwt(slug)`.
- bcrypt `hash` and `compare` (cost factor 10), the `slug` package's transliteration and zod's email regular expression are foreign library code. They are uninterpreted parameters. Salting is modelled by letting each signup bring its own hash function.
- `Math.random` and loop termination: the source loop has no cap, so draws come as a finite sequence. When every candidate they allow is taken, `Signup` returns `OutOfDraws`; the real loop would keep drawing.
- Concurrency: the check-then-create race between simultaneous signups is not modelled; requests are handled one after another.
- A `createUser` unique violation would be an unhandled rejection in the handler. It is modelled as a failure `Signup` provably never reaches on a sequential table.
- UserService.CreateUser: when both the email and the slug are taken, the error names the email column; which constraint Prisma reports is not pinned down.
- The Prisma schema is not part of this model. The column defaults for avatar, cover, bio and link are a `Config` parameter. Avatar and cover are taken to be non-null. Generated columns such as an id are not represented.
- Persistence and `process.env`: the table is in memory and the environment is an explicit `Config`.
- String lengths: zod counts UTF-16 code units; the model counts sequence elements.
- A body that is not an object: zod reports it under form errors, which the handler drops. The model gives empty field errors and does not model the form-error text.
- Message text for a non-string property: modelled as zod's default "Expected string, received X", with X supplied by the body.
- JSON key order of responses and the unknown keys zod strips are not represented.
- AuthProperties.SigninSucceeds: assumes the table's unique constraints hold (`Valid`); on a table with duplicate emails only the first matching row would be consulted.
- AuthProperties.SigninUniformDenial: the wrong-password side assumes the table's unique constraints hold, for the same reason.
- AuthProperties.SignupThenSignin: relies on `compare(p, hash(p))` as a stated assumption about bcrypt. It promises a token for the same slug, not the same token string: `jwt.sign` adds an `iat` claim, so a signin in a later second gets a different string.
- Lookups and unique constraints compare emails and slugs as exact strings, as under a binary collation. The database and its collation are not part of this model; under a case-insensitive collation `findUnique` would also match addresses that differ only in case.
