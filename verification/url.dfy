/** Public URL rendering (src/utils/url.ts): a stored relative path becomes a
    fully-qualified URL by prefixing the configured base URL and a slash. */
module Url {
  import opened Wrappers

  /** How a template literal renders `process.env.BASE_URL`: the variable's
      text when it is set, the word "undefined" when it is not. */
  function BaseText(baseUrl: Option<string>): string
  {
    match baseUrl
    case Some(b) => b
    case None => "undefined"
  }

  /** `getPublicUrl(path)`: the base, one '/', then the path exactly as given
      (no normalisation, no slash collapsing). */
  function PublicUrl(baseUrl: Option<string>, path: string): (url: string)
    ensures |url| == |BaseText(baseUrl)| + 1 + |path|
    ensures url[..|BaseText(baseUrl)|] == BaseText(baseUrl)
    ensures url[|BaseText(baseUrl)|] == '/'
    ensures url[|BaseText(baseUrl)| + 1..] == path
  {
    BaseText(baseUrl) + "/" + path
  }

  /** The inverse of `PublicUrl`: the path a URL was rendered from, if it was
      rendered from this base at all. */
  function PathOf(baseUrl: Option<string>, url: string): (path: Option<string>)
    ensures path.Some? ==> PublicUrl(baseUrl, path.value) == url
    ensures path.None? ==> forall p :: PublicUrl(baseUrl, p) != url
  {
    var prefix := BaseText(baseUrl) + "/";
    if |prefix| <= |url| && url[..|prefix|] == prefix then
      assert url == prefix + url[|prefix|..];
      Some(url[|prefix|..])
    else
      None
  }

  /** Rendering then stripping gives back the stored path. */
  lemma PathOfPublicUrl(baseUrl: Option<string>, path: string)
    ensures PathOf(baseUrl, PublicUrl(baseUrl, path)) == Some(path)
  {
  }

  /** For a fixed base, distinct stored paths render to distinct URLs. */
  lemma PublicUrlInjective(baseUrl: Option<string>, p: string, q: string)
    ensures PublicUrl(baseUrl, p) == PublicUrl(baseUrl, q) <==> p == q
  {
  }
}
