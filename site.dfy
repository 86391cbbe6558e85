/**
 * The site configuration's URL: `NEXT_PUBLIC_SITE_URL` when it is set and
 * non-empty, the CloudFront address otherwise, and `absoluteUrl`.
 */
module SiteConfig {
  import Wrappers

  const DefaultUrl: string := "https://d19uazred58exm.cloudfront.net"

  /** `siteConfig.url`: the environment value unless it is missing or empty. */
  function Url(env: Wrappers.Option<string>): (r: string)
    ensures env.Some? && env.value != "" ==> r == env.value
    ensures env.None? || env.value == "" ==> r == DefaultUrl
    ensures r != ""
  {
    if env.Some? && env.value != "" then env.value else DefaultUrl
  }

  /** `absoluteUrl(path)`: the site URL followed by the path. */
  function AbsoluteUrl(env: Wrappers.Option<string>, path: string): (r: string)
    ensures |r| == |Url(env)| + |path|
    ensures r[..|Url(env)|] == Url(env) && r[|Url(env)|..] == path
  {
    Url(env) + path
  }

  /** With the default argument `''`, `absoluteUrl()` is the site URL itself. */
  lemma AbsoluteUrlDefault(env: Wrappers.Option<string>)
    ensures AbsoluteUrl(env, "") == Url(env)
  {
    assert Url(env) + "" == Url(env);
  }

  /** Without the environment value, `absoluteUrl('/projects')` is the
      CloudFront address followed by `/projects`. */
  lemma AbsoluteUrlProjects()
    ensures AbsoluteUrl(Wrappers.None, "/projects") == "https://d19uazred58exm.cloudfront.net/projects"
  {
  }

  /** Different paths give different URLs. */
  lemma AbsoluteUrlInjective(env: Wrappers.Option<string>, p: string, q: string)
    requires AbsoluteUrl(env, p) == AbsoluteUrl(env, q)
    ensures p == q
  {
    var u := Url(env);
    assert p == AbsoluteUrl(env, p)[|u|..];
    assert q == AbsoluteUrl(env, q)[|u|..];
  }
}
