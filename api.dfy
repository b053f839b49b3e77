/**
 * The client's server address (`src/lib/api.ts`): the base URL comes from the build
 * environment, falling back to the local development server, and every request path is
 * joined to it with exactly one slash.
 */
module Api {
  import opened Text

  const DefaultBaseUrl := "http://localhost:3001"

  /** `API_BASE_URL`: the environment's value when it is set and not empty. */
  function BaseUrl(env: string): (r: string)
    ensures r != ""
    ensures env != "" ==> r == env
  {
    if env != "" then env else DefaultBaseUrl
  }

  /** `apiUrl`: the base alone for an empty path, else the base, a slash, and the path
      without the slash it may already start with. */
  function ApiUrl(env: string, path: string): (r: string)
    ensures StartsWith(r, BaseUrl(env))
    ensures path == "" <==> r == BaseUrl(env)
    ensures path != "" ==> r[|BaseUrl(env)|] == '/'
    ensures path != "" && path[0] == '/' ==> r[|BaseUrl(env)|..] == path
    ensures path != "" && path[0] != '/' ==> r[|BaseUrl(env)| + 1..] == path
  {
    var base := BaseUrl(env);
    var normalized := if path == "" then "" else if path[0] == '/' then path else "/" + path;
    var r := base + normalized;
    assert r[..|base|] == base && r[|base|..] == normalized;
    r
  }

  /** A path without its leading slash reaches the same URL as with it. */
  lemma SlashOptional(env: string, path: string)
    requires path != "" && path[0] != '/'
    ensures ApiUrl(env, path) == ApiUrl(env, "/" + path)
  {
    var a, b := ApiUrl(env, path), ApiUrl(env, "/" + path);
    var n := |BaseUrl(env)|;
    assert a[..n] == b[..n];
    assert a[n..] == "/" + path == b[n..];
    assert a == a[..n] + a[n..];
    assert b == b[..n] + b[n..];
  }
}
