/** The API address helpers of frontend/src/config.ts. The build-time values
    `VITE_API_BASE` and `DEV` become parameters: `env` is the configured base
    (None when it is not set) and `isDev` says whether the development server
    proxies `/api` itself. */
module Config {
  import opened Common
  import opened Text

  /** `replace(/\/+$/, '')`: drops the run of "/" at the end, however long. */
  function StripTrailingSlashes(s: string): (r: string)
    ensures |r| <= |s| && r == s[..|r|]
    ensures r == [] || r[|r| - 1] != '/'
    ensures forall i :: |r| <= i < |s| ==> s[i] == '/'
    decreases |s|
  {
    if |s| > 0 && s[|s| - 1] == '/' then StripTrailingSlashes(s[..|s| - 1]) else s
  }

  /** Stripping twice is stripping once. */
  lemma StripTrailingSlashesIdempotent(s: string)
    ensures StripTrailingSlashes(StripTrailingSlashes(s)) == StripTrailingSlashes(s)
  {
  }

  /** `apiBase`: the trimmed setting without trailing slashes; unset, blank,
      "undefined" and "null" all mean no base (""). */
  function ApiBase(env: Option<string>): (r: string)
    ensures r != "" ==> r[|r| - 1] != '/'
    ensures var raw := Trim(if env.Some? then env.value else "");
            (raw == "" || raw == "undefined" || raw == "null" ==> r == "")
            && (raw != "" && raw != "undefined" && raw != "null" ==>
                  StartsWith(raw, r) && forall i :: |r| <= i < |raw| ==> raw[i] == '/')
            && (r != "" ==> raw != "undefined" && raw != "null")
  {
    var raw := Trim(if env.Some? then env.value else "");
    if raw == "" || raw == "undefined" || raw == "null" then "" else StripTrailingSlashes(raw)
  }

  /** A configured address keeps everything up to its trailing slashes. */
  lemma ApiBaseExample()
    ensures ApiBase(Some("abc")) == "abc"
    ensures ApiBase(Some("ab//")) == "ab"
    ensures ApiBase(Some("null")) == "" && ApiBase(None) == ""
  {
    assert "ab//"[..3][..2] == "ab";
  }

  /** A setting made only of slashes (after trimming) also gives no base. */
  lemma OnlySlashesGiveNoBase(env: string)
    requires forall i :: 0 <= i < |Trim(env)| ==> Trim(env)[i] == '/'
    ensures ApiBase(Some(env)) == ""
  {
    var raw := Trim(env);
    if raw != "" && raw != "undefined" && raw != "null" {
      AllSlashesStrip(raw);
    }
  }

  lemma {:induction false} AllSlashesStrip(s: string)
    requires forall i :: 0 <= i < |s| ==> s[i] == '/'
    ensures StripTrailingSlashes(s) == ""
    decreases |s|
  {
    if |s| > 0 {
      AllSlashesStrip(s[..|s| - 1]);
    }
  }

  /** The path with a leading "/" added when it has none. */
  function NormalizePath(path: string): (r: string)
    ensures |r| > 0 && r[0] == '/'
    ensures StartsWith(path, "/") ==> r == path
    ensures !StartsWith(path, "/") ==> r == "/" + path
  {
    if StartsWith(path, "/") then path else "/" + path
  }

  /** Normalising a path twice is normalising it once. */
  lemma NormalizePathIdempotent(path: string)
    ensures NormalizePath(NormalizePath(path)) == NormalizePath(path)
  {
  }

  /** `buildApiUrl`: in development the bare path (the dev server proxies it),
      otherwise the base followed by the path, or the bare path with no base. */
  function BuildApiUrl(isDev: bool, apiBase: string, path: string): (r: string)
    ensures |NormalizePath(path)| <= |r| && r[|r| - |NormalizePath(path)|..] == NormalizePath(path)
  {
    var normalizedPath := NormalizePath(path);
    if isDev then normalizedPath
    else if apiBase != "" then apiBase + normalizedPath
    else normalizedPath
  }

  /** The address always ends with the normalised path, and what comes before
      it is the base in production and nothing in development. */
  lemma BuildApiUrlSplits(isDev: bool, apiBase: string, path: string)
    ensures var r := BuildApiUrl(isDev, apiBase, path);
            var p := NormalizePath(path);
            |p| <= |r| && r[|r| - |p|..] == p
            && r[..|r| - |p|] == (if isDev then "" else apiBase)
  {
    var r := BuildApiUrl(isDev, apiBase, path);
    var p := NormalizePath(path);
    if !isDev && apiBase != "" {
      assert r == apiBase + p;
      assert r[|r| - |p|..] == p;
      assert r[..|r| - |p|] == apiBase;
    }
  }

  /** With a base read from the setting, base and path meet at exactly one
      "/": the base never ends with one and the path always starts with one. */
  lemma SingleSlashAtJoin(env: Option<string>, path: string)
    requires ApiBase(env) != ""
    ensures var base := ApiBase(env);
            var r := BuildApiUrl(false, base, path);
            |r| > |base| && r[|base| - 1] != '/' && r[|base|] == '/'
            && r == base + NormalizePath(path)
  {
  }
}
