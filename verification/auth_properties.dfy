/** Properties of the auth handlers that relate several calls or compare a
    handler with an independent description of what it should do. */
module AuthProperties {
  import opened Wrappers
  import Url
  import opened Fields
  import SignUpSchema
  import SignInSchema
  import opened UserService
  import opened AuthController

  /** The slug loop from `current` returns the first slug of
      `[current] + retries` that no row holds, and gives up only when there
      is none. */
  lemma {:induction false} SlugSearchIsFirstFree(baseUrl: Option<string>, store: Store, name: string,
                                                 slugify: string -> string, current: string, draws: seq<Suffix>)
    ensures var candidates := [current] + Retries(name, slugify, draws);
      match SlugSearch(baseUrl, store, name, slugify, current, draws)
      case Some(s) => exists k :: FirstFree(store, candidates, k) && s == candidates[k]
      case None => forall k :: !FirstFree(store, candidates, k)
    decreases |draws|
  {
    var candidates := [current] + Retries(name, slugify, draws);
    if !Holds(store, SlugColumn, current) {
      assert FirstFree(store, candidates, 0);
    } else if |draws| == 0 {
      forall k ensures !FirstFree(store, candidates, k) {
      }
    } else {
      var next := slugify(name + Decimal.ToString(draws[0]));
      var rest := [next] + Retries(name, slugify, draws[1..]);
      assert candidates == [current] + rest;
      SlugSearchIsFirstFree(baseUrl, store, name, slugify, next, draws[1..]);
      forall k | 0 <= k < |rest|
        ensures FirstFree(store, candidates, k + 1) <==> FirstFree(store, rest, k)
      {
        if FirstFree(store, rest, k) {
          forall j | 0 <= j < k + 1 ensures Holds(store, SlugColumn, candidates[j]) {
            if j > 0 { assert candidates[j] == rest[j - 1]; }
          }
        }
        if FirstFree(store, candidates, k + 1) {
          forall j | 0 <= j < k ensures Holds(store, SlugColumn, rest[j]) {
            assert candidates[j + 1] == rest[j];
          }
        }
      }
      match SlugSearch(baseUrl, store, name, slugify, current, draws)
      case Some(s) =>
        var k :| FirstFree(store, rest, k) && s == rest[k];
        assert FirstFree(store, candidates, k + 1);
      case None =>
        forall k ensures !FirstFree(store, candidates, k) {
          if 1 <= k < |candidates| {
            assert !FirstFree(store, rest, k - 1);
          }
        }
    }
  }

  /** Signup's slug is the first of `slug(name)`, `slug(name + d0)`,
      `slug(name + d1)`, ... that no row holds, and signup runs out of draws
      only when every one of them is held. */
  lemma PickSlugIsFirstFree(baseUrl: Option<string>, store: Store, name: string,
                            slugify: string -> string, draws: seq<Suffix>)
    ensures var candidates := Candidates(name, slugify, draws);
      match PickSlug(baseUrl, store, name, slugify, draws)
      case Some(s) => exists k :: FirstFree(store, candidates, k) && s == candidates[k]
      case None => forall k :: !FirstFree(store, candidates, k)
  {
    SlugSearchIsFirstFree(baseUrl, store, name, slugify, slugify(name), draws);
  }

  /** The row a successful signup inserts carries the first free candidate
      slug, and the token is issued for that slug. */
  lemma SignupChoosesFirstFree(cfg: Config, ext: Foreign, store: Store, body: Body, draws: seq<Suffix>)
    requires Signup(cfg, ext, store, body, draws).Finished?
    requires Signup(cfg, ext, store, body, draws).t.response.status == 201
    ensures var t := Signup(cfg, ext, store, body, draws).t;
      var candidates := Candidates(body.name.s, ext.slugify, draws);
      && (exists k :: FirstFree(store, candidates, k) && t.store[|store|].slug == candidates[k])
      && t.response.payload.token == Jwt(t.store[|store|].slug)
  {
    PickSlugIsFirstFree(cfg.baseUrl, store, body.name.s, ext.slugify, draws);
  }

  /** Signup succeeds exactly when the body is valid, its email is new and
      some candidate slug is free. */
  lemma SignupSucceedsIff(cfg: Config, ext: Foreign, store: Store, body: Body, draws: seq<Suffix>)
    ensures var r := Signup(cfg, ext, store, body, draws);
      (r.Finished? && r.t.response.status == 201) <==>
        && SignUpSchema.Accepts(body, ext.isEmail)
        && !Holds(store, EmailColumn, body.email.s)
        && exists c :: c in Candidates(body.name.s, ext.slugify, draws) && !Holds(store, SlugColumn, c)
  {
  }

  /** A signup with an email already on file fails the same way whatever
      the name and the password, and changes nothing. */
  lemma SignupDuplicateEmail(cfg: Config, ext: Foreign, store: Store, body: Body, draws: seq<Suffix>, i: int)
    requires SignUpSchema.Accepts(body, ext.isEmail)
    requires 0 <= i < |store| && store[i].email == body.email.s
    ensures Signup(cfg, ext, store, body, draws)
         == Finished(Transition(Response(400, ErrorMessage(UserExists)), store))
  {
  }

  /** Two successful signups in a row get different slugs and different
      emails, and the table still satisfies both unique constraints. */
  lemma SuccessiveSignupsDistinct(cfg: Config, ext: Foreign, store: Store,
                                  b1: Body, d1: seq<Suffix>, b2: Body, d2: seq<Suffix>)
    requires Valid(store)
    requires Signup(cfg, ext, store, b1, d1).Finished?
    requires Signup(cfg, ext, store, b1, d1).t.response.status == 201
    requires var s1 := Signup(cfg, ext, store, b1, d1).t.store;
      Signup(cfg, ext, s1, b2, d2).Finished? && Signup(cfg, ext, s1, b2, d2).t.response.status == 201
    ensures var s1 := Signup(cfg, ext, store, b1, d1).t.store;
      var s2 := Signup(cfg, ext, s1, b2, d2).t.store;
      && |s2| == |store| + 2
      && s2[|store|].slug != s2[|store| + 1].slug
      && s2[|store|].email != s2[|store| + 1].email
      && Valid(s2)
  {
  }

  /** Signin on an unknown email and signin with a wrong password give the
      same response, and neither touches the table. */
  lemma SigninUniformDenial(cfg: Config, ext: Foreign, s1: Store, b1: Body, s2: Store, b2: Body, i: int)
    requires SignInSchema.Accepts(b1, ext.isEmail) && !Holds(s1, EmailColumn, b1.email.s)
    requires Valid(s2) && SignInSchema.Accepts(b2, ext.isEmail)
    requires 0 <= i < |s2| && s2[i].email == b2.email.s && !ext.compare(b2.password.s, s2[i].password)
    ensures Signin(cfg, ext, s1, b1) == Transition(Response(401, ErrorMessage(AccessDenied)), s1)
    ensures Signin(cfg, ext, s2, b2) == Transition(Response(401, ErrorMessage(AccessDenied)), s2)
    ensures Signin(cfg, ext, s1, b1).response == Signin(cfg, ext, s2, b2).response
  {
  }

  /** Signin with an account's email and a password bcrypt accepts for it
      answers 200 with a token for that account's slug and its public fields. */
  lemma SigninSucceeds(cfg: Config, ext: Foreign, store: Store, body: Body, i: int)
    requires Valid(store) && SignInSchema.Accepts(body, ext.isEmail)
    requires 0 <= i < |store| && store[i].email == body.email.s && ext.compare(body.password.s, store[i].password)
    ensures Signin(cfg, ext, store, body) == Transition(
      Response(200, Session(Jwt(store[i].slug),
        PublicUser(store[i].name, store[i].slug, Url.PublicUrl(cfg.baseUrl, store[i].avatar)))),
      store)
  {
  }

  /** Whenever bcrypt's `compare` accepts a password against its own hash,
      signing in right after a successful signup with the same email and
      password answers 200 with a token for the same slug and the same user
      object signup sent. */
  lemma SignupThenSignin(cfg: Config, ext: Foreign, store: Store, body: Body, draws: seq<Suffix>, name: Field)
    requires Valid(store)
    requires Signup(cfg, ext, store, body, draws).Finished?
    requires Signup(cfg, ext, store, body, draws).t.response.status == 201
    requires ext.compare(body.password.s, ext.hash(body.password.s))
    ensures var t := Signup(cfg, ext, store, body, draws).t;
      Signin(cfg, ext, t.store, JsonObject(name, body.email, body.password))
        == Transition(Response(200, t.response.payload), t.store)
  {
  }
}
