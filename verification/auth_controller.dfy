/** The two request handlers of src/controllers/auth.ts as pure transitions
    of the account table: each takes the table and a request body and
    returns the HTTP response together with the table afterwards. */
module AuthController {
  import opened Wrappers
  import Decimal
  import Url
  import opened Fields
  import SignUpSchema
  import SignInSchema
  import opened UserService

  /** Process configuration: `process.env.BASE_URL` and the column defaults
      the table fills in on insert. */
  datatype Config = Config(baseUrl: Option<string>, defaults: ColumnDefaults)

  /** Library code the handlers call but the model does not look inside:
      the `slug` package, bcrypt's `hash` (salted, so each signup may bring
      its own) and `compare`, and zod's email check. */
  datatype Foreign = Foreign(
    slugify: string -> string,
    hash: string -> string,
    compare: (string, string) -> bool,
    isEmail: string -> bool)

  /** One value of `Math.floor(Math.random() * 999999)`. */
  type Suffix = n: nat | n <= 999998

  /** `createJwt(slug)`: a token whose payload is `{slug}`; signing is not modelled. */
  datatype Token = Jwt(slug: string)

  /** The `user` object of a successful response. */
  datatype PublicUser = PublicUser(name: string, slug: string, avatar: string)

  /** The JSON bodies the handlers send. */
  datatype Payload =
    | ValidationErrors(fieldErrors: FieldErrors)
    | ErrorMessage(error: string)
    | Session(token: Token, user: PublicUser)

  datatype Response = Response(status: int, payload: Payload)

  /** A handled request: the response and the table afterwards. */
  datatype Transition = Transition(response: Response, store: Store)

  /** A signup run. `OutOfDraws` means every slug candidate the supplied
      random draws allow was taken; the handler itself would keep drawing. */
  datatype SignupRun = Finished(t: Transition) | OutOfDraws

  const UserExists := "User already exists"
  const AccessDenied := "Access denied"

  /** The retry candidates: each built from the original name and one draw. */
  function Retries(name: string, slugify: string -> string, draws: seq<Suffix>): (c: seq<string>)
    ensures |c| == |draws|
  {
    seq(|draws|, i requires 0 <= i < |draws| => slugify(name + Decimal.ToString(draws[i])))
  }

  /** Every slug the loop may try, in order: `slug(name)`, then one retry per draw. */
  function Candidates(name: string, slugify: string -> string, draws: seq<Suffix>): seq<string>
  {
    [slugify(name)] + Retries(name, slugify, draws)
  }

  /** Reference characterisation of the loop's choice: `k` is the first
      position of `candidates` whose slug no row holds. */
  predicate FirstFree(store: Store, candidates: seq<string>, k: int)
  {
    && 0 <= k < |candidates|
    && !Holds(store, SlugColumn, candidates[k])
    && forall j :: 0 <= j < k ==> Holds(store, SlugColumn, candidates[j])
  }

  /** The `while (genSlug)` loop from the candidate `current` on: keep it if
      `getUserBySlug` finds nobody, otherwise retry with the next draw. */
  function SlugSearch(baseUrl: Option<string>, store: Store, name: string, slugify: string -> string,
                      current: string, draws: seq<Suffix>): (r: Option<string>)
    ensures r.Some? ==> !Holds(store, SlugColumn, r.value)
    ensures r.Some? ==> r.value == current || r.value in Retries(name, slugify, draws)
    ensures r.None? <==>
      Holds(store, SlugColumn, current)
      && forall c :: c in Retries(name, slugify, draws) ==> Holds(store, SlugColumn, c)
    decreases |draws|
  {
    if GetUserBySlug(baseUrl, store, current).None? then Some(current)
    else if |draws| == 0 then None
    else
      assert Retries(name, slugify, draws) == [slugify(name + Decimal.ToString(draws[0]))]
                                            + Retries(name, slugify, draws[1..]);
      SlugSearch(baseUrl, store, name, slugify, slugify(name + Decimal.ToString(draws[0])), draws[1..])
  }

  /** The slug signup picks: the loop started from `slug(name)`. */
  function PickSlug(baseUrl: Option<string>, store: Store, name: string, slugify: string -> string,
                    draws: seq<Suffix>): (r: Option<string>)
    ensures r.Some? ==> !Holds(store, SlugColumn, r.value) && r.value in Candidates(name, slugify, draws)
    ensures r.None? <==> forall c :: c in Candidates(name, slugify, draws) ==> Holds(store, SlugColumn, c)
  {
    SlugSearch(baseUrl, store, name, slugify, slugify(name), draws)
  }

  /** The account a successful signup inserts for `data`, whose password
      field holds `hash(password)`. */
  predicate CreatedFor(cfg: Config, ext: Foreign, data: SignUpSchema.SignUpData, slug: string, row: User)
  {
    Inserted(NewUser(slug, data.name, data.email, ext.hash(data.password)), cfg.defaults, row)
  }

  /** `signup`. Validation and duplicate-email failures answer 400 and leave
      the table alone; success appends exactly one row and answers 201 with
      a token for the chosen slug and the new row's public fields. */
  function Signup(cfg: Config, ext: Foreign, store: Store, body: Body, draws: seq<Suffix>): (r: SignupRun)
    ensures !SignUpSchema.Accepts(body, ext.isEmail) ==>
      r == Finished(Transition(Response(400, ValidationErrors(SignUpSchema.SafeParse(body, ext.isEmail).error)), store))
    ensures SignUpSchema.Accepts(body, ext.isEmail) && Holds(store, EmailColumn, body.email.s) ==>
      r == Finished(Transition(Response(400, ErrorMessage(UserExists)), store))
    ensures r.OutOfDraws? <==>
      && SignUpSchema.Accepts(body, ext.isEmail)
      && !Holds(store, EmailColumn, body.email.s)
      && forall c :: c in Candidates(body.name.s, ext.slugify, draws) ==> Holds(store, SlugColumn, c)
    ensures r.Finished? && r.t.response.status != 201 ==>
      && r.t.response.status == 400
      && r.t.store == store
      && (!SignUpSchema.Accepts(body, ext.isEmail) || Holds(store, EmailColumn, body.email.s))
    ensures r.Finished? && r.t.response.status == 201 ==>
      var data := SignUpSchema.SafeParse(body, ext.isEmail).value;
      var store' := r.t.store;
      && |store'| == |store| + 1
      && store'[..|store|] == store
      && var row := store'[|store|];
      && CreatedFor(cfg, ext, data, row.slug, row)
      && row.slug in Candidates(data.name, ext.slugify, draws)
      && !Holds(store, SlugColumn, row.slug)
      && r.t.response.payload == Session(Jwt(row.slug), PublicUser(row.name, row.slug, Url.PublicUrl(cfg.baseUrl, row.avatar)))
    ensures r.Finished? && Valid(store) ==> Valid(r.t.store)
  {
    match SignUpSchema.SafeParse(body, ext.isEmail)
    case Failure(errors) => Finished(Transition(Response(400, ValidationErrors(errors)), store))
    case Success(data) =>
      if GetUserByEmail(cfg.baseUrl, store, data.email).Some? then
        Finished(Transition(Response(400, ErrorMessage(UserExists)), store))
      else
        match PickSlug(cfg.baseUrl, store, data.name, ext.slugify, draws)
        case None => OutOfDraws
        case Some(slug) =>
          var hashed := ext.hash(data.password);
          match CreateUser(cfg.baseUrl, cfg.defaults, store, NewUser(slug, data.name, data.email, hashed))
          case Failure(_) => assert false; OutOfDraws
          case Success((created, store')) =>
            Finished(Transition(
              Response(201, Session(Jwt(slug), PublicUser(created.name, created.slug, created.avatar))),
              store'))
  }

  /** `signin`. Never changes the table. A body the schema rejects answers
      401 with its field errors; an unknown email and a wrong password both
      answer the same 401 "Access denied"; otherwise 200 with a token for the
      account's slug and its public fields. */
  function Signin(cfg: Config, ext: Foreign, store: Store, body: Body): (r: Transition)
    ensures r.store == store
    ensures !SignInSchema.Accepts(body, ext.isEmail) ==>
      r.response == Response(401, ValidationErrors(SignInSchema.SafeParse(body, ext.isEmail).error))
    ensures SignInSchema.Accepts(body, ext.isEmail) && !Holds(store, EmailColumn, body.email.s) ==>
      r.response == Response(401, ErrorMessage(AccessDenied))
    ensures SignInSchema.Accepts(body, ext.isEmail) && r.response.status != 401 ==>
      exists u :: u in store && u.email == body.email.s && ext.compare(body.password.s, u.password)
        && r.response == Response(200, Session(Jwt(u.slug), PublicUser(u.name, u.slug, Url.PublicUrl(cfg.baseUrl, u.avatar))))
    ensures r.response.status == 200 || r.response.status == 401
  {
    match SignInSchema.SafeParse(body, ext.isEmail)
    case Failure(errors) => Transition(Response(401, ValidationErrors(errors)), store)
    case Success(data) =>
      match GetUserByEmail(cfg.baseUrl, store, data.email)
      case None => Transition(Response(401, ErrorMessage(AccessDenied)), store)
      case Some(found) =>
        if !ext.compare(data.password, found.password) then
          Transition(Response(401, ErrorMessage(AccessDenied)), store)
        else
          Transition(
            Response(200, Session(Jwt(found.slug), PublicUser(found.name, found.slug, found.avatar))),
            store)
  }
}
