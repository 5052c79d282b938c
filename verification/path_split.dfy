/**
 * Splitting the decoded request path into PathBase (the part the matched URL
 * prefix covers) and Path (the rest), as the Request constructor does.
 */
module PathSplit {
  import opened Wrappers
  import opened HttpApi

  datatype PathPair = PathPair(pathBase: string, path: string)

  /** String.Substring's complaint when the start lies beyond the string. */
  datatype SplitError = ArgumentOutOfRange

  /**
   * The prefix table's longest-prefix match, given the secure flag, the host
   * and the decoded path; None when no registered prefix matches.
   */
  type LongestPrefixOracle = (bool, string, string) -> Option<PathPair>

  /**
   * A registered prefix path without its trailing slash ("/base/" gives
   * "/base", "/" gives ""). Registered prefix paths always end in '/'.
   */
  function WithoutTrailingSlash(prefixPath: string): (r: string)
    ensures prefixPath != [] && prefixPath[|prefixPath| - 1] == '/' ==> r + "/" == prefixPath
    ensures prefixPath == [] || prefixPath[|prefixPath| - 1] != '/' ==> r == prefixPath
  {
    if prefixPath != [] && prefixPath[|prefixPath| - 1] == '/' then prefixPath[..|prefixPath| - 1]
    else prefixPath
  }

  /** The server-wide probe `OPTIONS * HTTP/1.1`. */
  predicate IsOptionsStar(verb: HttpVerb, rawUrl: string) {
    verb == Options && rawUrl == "*"
  }

  /**
   * PathBase and Path for a request. contextPrefix is the path of the prefix
   * registered for the request's URL context, when there is one; without one
   * the oracle is asked; without a match the defaults ("", originalPath) stand.
   * A prefix longer than the path makes Substring throw.
   */
  function SplitPath(verb: HttpVerb, rawUrl: string, originalPath: string,
                     contextPrefix: Option<string>, isHttps: bool, host: string,
                     longestPrefix: LongestPrefixOracle): (r: Result<PathPair, SplitError>)
    ensures IsOptionsStar(verb, rawUrl) ==> r == Ok(PathPair("", ""))
    ensures !IsOptionsStar(verb, rawUrl) && contextPrefix.Some? ==>
      var n := |WithoutTrailingSlash(contextPrefix.value)|;
      (r.Ok? <==> n <= |originalPath|) &&
      (r.Ok? ==>
        r.value.pathBase + r.value.path == originalPath &&
        |r.value.pathBase| == n &&
        (r.value.path == "" <==> |originalPath| == n))
    ensures !IsOptionsStar(verb, rawUrl) && contextPrefix.None? ==>
      r.Ok? && (longestPrefix(isHttps, host, originalPath).Some? ==>
                  r.value == longestPrefix(isHttps, host, originalPath).value)
    ensures !IsOptionsStar(verb, rawUrl) && contextPrefix.None? &&
            longestPrefix(isHttps, host, originalPath).None? ==>
      r == Ok(PathPair("", originalPath))
  {
    if IsOptionsStar(verb, rawUrl) then
      Ok(PathPair("", ""))
    else if contextPrefix.Some? then
      var n := |WithoutTrailingSlash(contextPrefix.value)|;
      if |originalPath| == n then
        // The path is the prefix path without its trailing slash.
        Ok(PathPair(originalPath, ""))
      else if n <= |originalPath| then
        // Preserve the casing of the request, not of the prefix.
        Ok(PathPair(originalPath[..n], originalPath[n..]))
      else
        Err(ArgumentOutOfRange)
    else
      Ok(longestPrefix(isHttps, host, originalPath).GetOr(PathPair("", originalPath)))
  }

  /** An oracle that never matches, for the worked examples. */
  function NoMatch(isHttps: bool, host: string, path: string): Option<PathPair> {
    None
  }

  /** The split keeps the request's own characters: PathBase is the path's first n characters. */
  lemma SplitKeepsRequestCasing(verb: HttpVerb, rawUrl: string, originalPath: string, prefixPath: string,
                                isHttps: bool, host: string, longestPrefix: LongestPrefixOracle)
    requires !IsOptionsStar(verb, rawUrl)
    requires |WithoutTrailingSlash(prefixPath)| <= |originalPath|
    ensures var r := SplitPath(verb, rawUrl, originalPath, Some(prefixPath), isHttps, host, longestPrefix);
      r.Ok? && r.value.pathBase == originalPath[..|WithoutTrailingSlash(prefixPath)|]
  {
  }

  /** Prefix /base/ on /base/path gives /base and /path; on /base, /base and "". */
  lemma SplitExamplesBase()
    ensures SplitPath(Get, "/base/path", "/base/path", Some("/base/"), false, "h", NoMatch)
            == Ok(PathPair("/base", "/path"))
    ensures SplitPath(Get, "/base", "/base", Some("/base/"), false, "h", NoMatch)
            == Ok(PathPair("/base", ""))
  {
    assert WithoutTrailingSlash("/base/") == "/base";
    assert "/base/path"[..5] == "/base" && "/base/path"[5..] == "/path";
  }

  /** Prefix / on / gives "" and /; OPTIONS * gives two empty strings whatever the prefix. */
  lemma SplitExamplesRoot()
    ensures SplitPath(Get, "/", "/", Some("/"), false, "h", NoMatch) == Ok(PathPair("", "/"))
    ensures SplitPath(Options, "*", "*", Some("/base/"), true, "h", NoMatch) == Ok(PathPair("", ""))
  {
    assert WithoutTrailingSlash("/") == "";
    assert "/"[..0] == "" && "/"[0..] == "/";
  }

  /** Without a prefix for the context and without a longest match, the defaults stand. */
  lemma SplitExampleNoPrefix()
    ensures SplitPath(Get, "/a/b", "/a/b", None, false, "h", NoMatch) == Ok(PathPair("", "/a/b"))
  {
  }
}
