/** The parts of Python's `urllib.parse.urlparse` the spider reads:
    the scheme (seed defaulting and link classification), the path
    (sitemap placement) and the basename of the path (asset file
    names).  The rules are those of `urlsplit` in CPython 3.12: a
    scheme is recognised only when the text before the first ':'
    starts with an ASCII letter and consists of scheme characters; it
    is lower-cased.  Earlier versions differ: before 3.9
    "localhost:8000" had no scheme, before 3.11.1 the first character
    needed no letter check, and before 3.11.4 leading C0 controls and
    spaces were kept.  The stripping of those characters is not part
    of this model: the text is read as given.  A network
    location follows a leading "//" and runs to the first '/', '?' or
    '#'; the fragment and the query are cut off the path; for schemes
    that use parameters, a ';' in the last path segment starts them. */
module Urls {
  import opened Text

  predicate IsAsciiAlpha(c: char) {
    ('a' <= c <= 'z') || ('A' <= c <= 'Z')
  }

  /** `urllib.parse.scheme_chars`. */
  predicate IsSchemeChar(c: char) {
    IsAsciiAlpha(c) || ('0' <= c <= '9') || c == '+' || c == '-' || c == '.'
  }

  /** A text that `urlsplit` accepts as a scheme when a ':' follows it. */
  predicate IsSchemeToken(t: string) {
    0 < |t| && IsAsciiAlpha(t[0]) && forall j :: 0 <= j < |t| ==> IsSchemeChar(t[j])
  }

  /** `uses_params`: the schemes whose paths may carry ";params". */
  const UsesParams: set<string> := {
    "", "ftp", "hdl", "prospero", "http", "imap", "https", "shttp", "rtsp",
    "rtsps", "rtspu", "sip", "sips", "mms", "sftp", "tel"
  }

  /** Splits `url` into its lower-cased scheme and the text after the
      scheme's ':'; the scheme is empty when none is recognised. */
  function SplitScheme(url: string): (r: (string, string))
    ensures r.0 == "" ==> r.1 == url
    ensures r.0 != "" ==>
              exists i :: 0 < i < |url| && url[i] == ':' && IsSchemeToken(url[..i])
                          && r.0 == Lower(url[..i]) && r.1 == url[i + 1..]
  {
    var i := Find(url, ':');
    if i > 0 && IsSchemeToken(url[..i]) then (Lower(url[..i]), url[i + 1..])
    else ("", url)
  }

  /** `urlparse(url).scheme`. */
  function Scheme(url: string): string {
    SplitScheme(url).0
  }

  /** The index of the first '/', '?' or '#' at or after `start`, or
      `|s|`: where `_splitnetloc` ends the network location. */
  function NetlocEnd(s: string, start: nat): (r: nat)
    requires start <= |s|
    ensures start <= r <= |s|
    ensures forall j :: start <= j < r ==> s[j] !in "/?#"
    ensures r < |s| ==> s[r] in "/?#"
    decreases |s| - start
  {
    if start == |s| then start
    else if s[start] in "/?#" then start
    else NetlocEnd(s, start + 1)
  }

  /** `s` up to (not including) the first `c`, or all of `s`. */
  function CutAt(s: string, c: char): (r: string)
    ensures c !in r
    ensures StartsWith(s, r)
    ensures c !in s ==> r == s
  {
    var i := Find(s, c);
    if i < 0 then s else s[..i]
  }

  /** `_splitparams(url)[0]`: when a ';' follows the last '/', or there is
      no '/' at all and some ';' exists, the path stops at that ';'. */
  function StripParams(u: string): (r: string)
    ensures StartsWith(u, r)
  {
    if '/' in u then
      var i := FindFrom(u, ';', RFind(u, '/'));
      if i < 0 then u else u[..i]
    else
      var i := Find(u, ';');
      if i < 0 then u else u[..i]
  }

  /** The path part of what follows the scheme's ':' in a URL whose
      (lower-cased) scheme is `scheme`. */
  function PathAfterScheme(scheme: string, rest: string): (path: string)
    ensures '?' !in path && '#' !in path
  {
    var afterNetloc := if StartsWith(rest, "//") then rest[NetlocEnd(rest, 2)..] else rest;
    var noQuery := CutAt(CutAt(afterNetloc, '#'), '?');
    if scheme in UsesParams && ';' in noQuery then
      var p := StripParams(noQuery);
      assert p == noQuery[..|p|];
      assert forall k :: 0 <= k < |p| ==> p[k] == noQuery[k];
      p
    else noQuery
  }

  /** `urlparse(url).path`. */
  function PathOf(url: string): (path: string)
    ensures '?' !in path && '#' !in path
  {
    var (scheme, rest) := SplitScheme(url);
    PathAfterScheme(scheme, rest)
  }

  /** `os.path.basename(path)`: the text after the last '/'. */
  function Basename(path: string): (name: string)
    ensures '/' !in name
    ensures EndsWith(path, name)
    ensures '/' !in path ==> name == path
    ensures |name| < |path| ==> path[|path| - |name| - 1] == '/'
  {
    path[RFind(path, '/') + 1..]
  }

  lemma FindAtSchemeColon(token: string, rest: string)
    requires IsSchemeToken(token)
    ensures Find(token + ":" + rest, ':') == |token|
  {
    var url := token + ":" + rest;
    assert url[|token|] == ':';
    assert forall j :: 0 <= j < |token| ==> url[j] == token[j];
  }

  /** A recognisable scheme token followed by ':' is the URL's scheme,
      lower-cased, and the remainder is everything after that ':'. */
  lemma SchemeOfPrefixed(token: string, rest: string)
    requires IsSchemeToken(token)
    ensures SplitScheme(token + ":" + rest) == (Lower(token), rest)
  {
    var url := token + ":" + rest;
    FindAtSchemeColon(token, rest);
    assert url[..|token|] == token;
    assert url[|token| + 1..] == rest;
  }

  lemma WebSchemesAreTokens()
    ensures IsSchemeToken("http") && Lower("http") == "http"
    ensures IsSchemeToken("https") && Lower("https") == "https"
  {
    assert forall j :: 0 <= j < |"https"| ==> "https"[j] in "https";
  }

  lemma WebSchemeSplit(scheme: string, rest: string)
    requires scheme == "http" || scheme == "https"
    ensures SplitScheme(scheme + ":" + rest) == (scheme, rest)
  {
    WebSchemesAreTokens();
    SchemeOfPrefixed(scheme, rest);
  }

  lemma NetlocOfPlainHost(host: string, path: string)
    requires forall j :: 0 <= j < |host| ==> host[j] !in "/?#"
    requires path == [] || path[0] == '/'
    ensures var rest := "//" + host + path;
            StartsWith(rest, "//") && rest[NetlocEnd(rest, 2)..] == path
  {
    var rest := "//" + host + path;
    assert forall j :: 2 <= j < 2 + |host| ==> rest[j] == host[j - 2];
    assert rest[2 + |host|..] == path;
  }

  lemma PathAfterPlainHost(scheme: string, host: string, path: string)
    requires forall j :: 0 <= j < |host| ==> host[j] !in "/?#"
    requires path == [] || path[0] == '/'
    requires '?' !in path && '#' !in path && ';' !in path
    ensures PathAfterScheme(scheme, "//" + host + path) == path
  {
    var rest := "//" + host + path;
    NetlocOfPlainHost(host, path);
    assert CutAt(path, '#') == path;
    assert CutAt(CutAt(path, '#'), '?') == path;
  }

  /** For an http(s) URL with a plain host and a path free of '?', '#'
      and ';', `urlparse` returns exactly that path. */
  lemma PathOfWebUrl(scheme: string, host: string, path: string)
    requires scheme == "http" || scheme == "https"
    requires forall j :: 0 <= j < |host| ==> host[j] !in "/?#"
    requires path == [] || path[0] == '/'
    requires '?' !in path && '#' !in path && ';' !in path
    ensures PathOf(scheme + "://" + host + path) == path
  {
    var rest := "//" + host + path;
    assert scheme + "://" + host + path == scheme + ":" + rest;
    WebSchemeSplit(scheme, rest);
    PathAfterPlainHost(scheme, host, path);
  }
}
