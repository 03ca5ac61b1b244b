/** The account repository (src/services/user.ts) over an in-memory table.
    The table is a sequence of rows in insertion order; the Prisma schema's
    unique constraints on `email` and `slug` become the `Valid` invariant. */
module UserService {
  import opened Wrappers
  import Url

  /** A stored account row. `password` holds the bcrypt hash, never the
      plaintext; `avatar` and `cover` hold relative paths. */
  datatype User = User(
    slug: string, name: string, email: string, password: string,
    avatar: string, cover: string, bio: Option<string>, link: Option<string>)

  type Store = seq<User>

  /** The values the table fills in for the columns `createUser` leaves out. */
  datatype ColumnDefaults = ColumnDefaults(
    avatar: string, cover: string, bio: Option<string>, link: Option<string>)

  /** The create input signup passes: `{slug, name, email, password}`. */
  datatype NewUser = NewUser(slug: string, name: string, email: string, password: string)

  /** What `getUserBySlug` selects: no email, no password. */
  datatype Profile = Profile(
    avatar: string, cover: string, slug: string, name: string,
    bio: Option<string>, link: Option<string>)

  /** The two unique columns `findUnique` can search. */
  datatype Column = EmailColumn | SlugColumn

  datatype CreateError = UniqueViolation(column: Column)

  function Key(u: User, column: Column): string
  {
    match column
    case EmailColumn => u.email
    case SlugColumn => u.slug
  }

  /** Some row holds `value` in `column`. */
  predicate Holds(store: Store, column: Column, value: string)
  {
    exists i :: 0 <= i < |store| && Key(store[i], column) == value
  }

  predicate Unique(store: Store, column: Column)
  {
    forall i, j :: 0 <= i < j < |store| ==> Key(store[i], column) != Key(store[j], column)
  }

  /** The table's unique constraints: no two rows share an email or a slug. */
  predicate Valid(store: Store)
  {
    Unique(store, EmailColumn) && Unique(store, SlugColumn)
  }

  /** `prisma.user.findUnique({where: {column: value}})`. */
  function FindUnique(store: Store, column: Column, value: string): (r: Option<User>)
    ensures r.None? <==> !Holds(store, column, value)
    ensures r.Some? ==> r.value in store && Key(r.value, column) == value
    decreases |store|
  {
    if |store| == 0 then None
    else if Key(store[0], column) == value then Some(store[0])
    else
      var rest := FindUnique(store[1..], column, value);
      assert Holds(store, column, value) ==> Holds(store[1..], column, value) by {
        if Holds(store, column, value) {
          var i :| 0 <= i < |store| && Key(store[i], column) == value;
          assert i > 0 && Key(store[1..][i - 1], column) == value;
        }
      }
      rest
  }

  /** On a column whose values are unique, the search finds the one row that
      holds the value. */
  lemma FindUniqueFindsRow(store: Store, column: Column, i: int)
    requires Unique(store, column)
    requires 0 <= i < |store|
    ensures FindUnique(store, column, Key(store[i], column)) == Some(store[i])
  {
  }

  /** `shown` is `stored` as the service hands it out: `{...user, avatar,
      cover}` with both image paths rendered to public URLs. */
  predicate Rendered(baseUrl: Option<string>, stored: User, shown: User)
  {
    && shown.slug == stored.slug
    && shown.name == stored.name
    && shown.email == stored.email
    && shown.password == stored.password
    && shown.bio == stored.bio
    && shown.link == stored.link
    && shown.avatar == Url.PublicUrl(baseUrl, stored.avatar)
    && shown.cover == Url.PublicUrl(baseUrl, stored.cover)
  }

  function WithPublicUrls(baseUrl: Option<string>, u: User): User
  {
    u.(avatar := Url.PublicUrl(baseUrl, u.avatar), cover := Url.PublicUrl(baseUrl, u.cover))
  }

  /** `getUserByEmail(email)`: null exactly when no row has this email,
      otherwise a stored row with that email, rendered. */
  function GetUserByEmail(baseUrl: Option<string>, store: Store, email: string): (r: Option<User>)
    ensures r.None? <==> !Holds(store, EmailColumn, email)
    ensures r.Some? ==> exists u :: u in store && u.email == email && Rendered(baseUrl, u, r.value)
  {
    match FindUnique(store, EmailColumn, email)
    case None => None
    case Some(u) => Some(WithPublicUrls(baseUrl, u))
  }

  /** In a valid table the row `getUserBySlug` selects is THE row with that slug. */
  lemma GetUserBySlugIsTheRow(baseUrl: Option<string>, store: Store, i: int)
    requires Valid(store)
    requires 0 <= i < |store|
    ensures var r := GetUserBySlug(baseUrl, store, store[i].slug);
      r.Some? && Selected(baseUrl, store[i], r.value)
  {
  }

  /** In a valid table the row `getUserByEmail` renders is THE row with that email. */
  lemma GetUserByEmailIsTheRow(baseUrl: Option<string>, store: Store, i: int)
    requires Valid(store)
    requires 0 <= i < |store|
    ensures var r := GetUserByEmail(baseUrl, store, store[i].email);
      r.Some? && Rendered(baseUrl, store[i], r.value)
  {
  }

  /** `getUserBySlug(slug)`: null exactly when no row has this slug,
      otherwise the selected columns of a row with that slug, rendered. */
  function GetUserBySlug(baseUrl: Option<string>, store: Store, slug: string): (r: Option<Profile>)
    ensures r.None? <==> !Holds(store, SlugColumn, slug)
    ensures r.Some? ==> exists u :: u in store && u.slug == slug && Selected(baseUrl, u, r.value)
  {
    match FindUnique(store, SlugColumn, slug)
    case None => None
    case Some(u) => Some(Project(baseUrl, u))
  }

  /** `profile` is what `getUserBySlug` selects from `stored`: the public
      columns, with both image paths rendered to public URLs. The type itself
      has no place for the email or the password hash. */
  predicate Selected(baseUrl: Option<string>, stored: User, profile: Profile)
  {
    && profile.slug == stored.slug
    && profile.name == stored.name
    && profile.bio == stored.bio
    && profile.link == stored.link
    && profile.avatar == Url.PublicUrl(baseUrl, stored.avatar)
    && profile.cover == Url.PublicUrl(baseUrl, stored.cover)
  }

  function Project(baseUrl: Option<string>, u: User): Profile
  {
    Profile(Url.PublicUrl(baseUrl, u.avatar), Url.PublicUrl(baseUrl, u.cover), u.slug, u.name, u.bio, u.link)
  }

  /** The row `prisma.user.create({data})` inserts. */
  predicate Inserted(data: NewUser, defaults: ColumnDefaults, row: User)
  {
    && row.slug == data.slug && row.name == data.name
    && row.email == data.email && row.password == data.password
    && row.avatar == defaults.avatar && row.cover == defaults.cover
    && row.bio == defaults.bio && row.link == defaults.link
  }

  /** `createUser(data)`: fails on a unique-constraint violation, otherwise
      appends exactly one row built from `data` and the column defaults and
      returns it rendered. */
  function CreateUser(baseUrl: Option<string>, defaults: ColumnDefaults, store: Store, data: NewUser)
    : (r: Result<(User, Store), CreateError>)
    ensures r.Failure? <==> Holds(store, EmailColumn, data.email) || Holds(store, SlugColumn, data.slug)
    ensures r.Success? ==>
      var (shown, store') := r.value;
      && |store'| == |store| + 1
      && store'[..|store|] == store
      && Inserted(data, defaults, store'[|store|])
      && Rendered(baseUrl, store'[|store|], shown)
    ensures r.Success? && Valid(store) ==> Valid(r.value.1)
  {
    if Holds(store, EmailColumn, data.email) then Failure(UniqueViolation(EmailColumn))
    else if Holds(store, SlugColumn, data.slug) then Failure(UniqueViolation(SlugColumn))
    else
      var row := User(data.slug, data.name, data.email, data.password,
                      defaults.avatar, defaults.cover, defaults.bio, defaults.link);
      var store' := store + [row];
      assert store'[..|store|] == store;
      Success((WithPublicUrls(baseUrl, row), store'))
  }
}
