/** The two functions of Python's urllib.parse that the dashboard applies to a link before
    reading an id from it: `urlparse` (through `urlsplit`) and `unquote`, on text. */
module Url {
  import opened Text

  /** The six parts `urlparse` returns. */
  datatype ParseResult = ParseResult(scheme: string, netloc: string, path: string, params: string,
                                     query: string, fragment: string)

  /** `s.find(c, start)`: the first index at or after `start` holding `c`, or `|s|` when there is
      none. */
  function FindFrom(s: string, c: char, start: nat): (i: nat)
    requires start <= |s|
    ensures start <= i <= |s|
    ensures i < |s| ==> s[i] == c
    ensures forall j :: start <= j < i ==> s[j] != c
    decreases |s| - start
  {
    if start == |s| then |s| else if s[start] == c then start else FindFrom(s, c, start + 1)
  }

  /** An index holding `c` with no `c` between `start` and it is what `find` returns. */
  lemma {:induction false} FindFromAt(s: string, c: char, start: nat, i: nat)
    requires start <= i <= |s| && (i < |s| ==> s[i] == c)
    requires forall j :: start <= j < i ==> s[j] != c
    ensures FindFrom(s, c, start) == i
    decreases |s| - start
  {
    if start < i {
      FindFromAt(s, c, start + 1, i);
    }
  }

  /** `s.rfind(c)`: the last index holding `c`, or -1. */
  function FindLast(s: string, c: char): (i: int)
    ensures -1 <= i < |s|
    ensures i >= 0 ==> s[i] == c
    ensures forall j :: i < j < |s| ==> s[j] != c
  {
    if |s| == 0 then -1
    else if s[|s| - 1] == c then |s| - 1
    else FindLast(s[..|s| - 1], c)
  }

  /** `s.split(c, 1)` when `c in s`, and `(s, "")` otherwise. */
  function SplitFirst(s: string, c: char): (r: (string, string))
    ensures c !in r.0
    ensures c in s ==> s == r.0 + [c] + r.1
    ensures c !in s ==> r == (s, "")
  {
    var i := FindFrom(s, c, 0);
    if i < |s| then (s[..i], s[i + 1..]) else (s, "")
  }

  /** The characters `urlsplit` strips from the front of a URL: the C0 controls and space. */
  predicate IsC0OrSpace(c: char)
  {
    c <= ' '
  }

  function LStripC0(s: string): (r: string)
    ensures |r| <= |s| && r == s[|s| - |r|..]
    ensures |r| > 0 ==> !IsC0OrSpace(r[0])
  {
    if |s| > 0 && IsC0OrSpace(s[0]) then LStripC0(s[1..]) else s
  }

  /** `_UNSAFE_URL_BYTES_TO_REMOVE`: tab, carriage return and line feed. */
  predicate IsUnsafe(c: char)
  {
    c == '\t' || c == '\r' || c == '\n'
  }

  /** The three `replace(b, "")` calls together: every unsafe character goes, the rest keep
      their order. */
  function RemoveUnsafe(s: string): (r: string)
    ensures |r| <= |s|
    ensures forall i :: 0 <= i < |r| ==> !IsUnsafe(r[i])
  {
    if |s| == 0 then ""
    else (if IsUnsafe(s[0]) then "" else [s[0]]) + RemoveUnsafe(s[1..])
  }

  /** Text without unsafe characters is left as it is. */
  lemma {:induction false} RemoveUnsafeClean(s: string)
    requires forall i :: 0 <= i < |s| ==> !IsUnsafe(s[i])
    ensures RemoveUnsafe(s) == s
  {
    if |s| > 0 {
      RemoveUnsafeClean(s[1..]);
    }
  }

  /** The first step of `urlsplit`: leading C0 controls and spaces go, then every tab, carriage
      return and line feed. */
  function Sanitize(url: string): (u: string)
    ensures forall i :: 0 <= i < |u| ==> !IsUnsafe(u[i])
  {
    RemoveUnsafe(LStripC0(url))
  }

  predicate IsAsciiLetter(c: char)
  {
    'a' <= c <= 'z' || 'A' <= c <= 'Z'
  }

  /** `scheme_chars`: ASCII letters and digits, `+`, `-` and `.`. */
  predicate IsSchemeChar(c: char)
  {
    IsAsciiLetter(c) || IsDigit(c) || c == '+' || c == '-' || c == '.'
  }

  /** The text before the first colon of `u`, at `colon`, is a scheme: it is non-empty, starts
      with an ASCII letter and holds only scheme characters. */
  predicate IsScheme(u: string, colon: nat)
  {
    0 < colon < |u| && IsAsciiLetter(u[0]) && forall j :: 0 <= j < colon ==> IsSchemeChar(u[j])
  }

  /** The scheme, lower-cased, and the rest after its colon; or no scheme and all of `u`. */
  function SplitScheme(u: string): (r: (string, string))
    ensures r.0 == "" ==> r.1 == u
  {
    var colon := FindFrom(u, ':', 0);
    if IsScheme(u, colon) then (Lower(u[..colon]), u[colon + 1..]) else ("", u)
  }

  /** `_splitnetloc(s, 2)`: the authority after `//` runs to the first `/`, `?` or `#`. */
  function SplitNetloc(s: string): (r: (string, string))
    requires |s| >= 2
    ensures '/' !in r.0 && '?' !in r.0 && '#' !in r.0
    ensures s == s[..2] + r.0 + r.1
  {
    var slash, mark, hash := FindFrom(s, '/', 2), FindFrom(s, '?', 2), FindFrom(s, '#', 2);
    var stop := if slash <= mark && slash <= hash then slash else if mark <= hash then mark else hash;
    assert s == s[..2] + s[2..stop] + s[stop..];
    (s[2..stop], s[stop..])
  }

  /** `urlsplit(url)`: scheme, netloc, path, query and fragment; the params part is empty. */
  function UrlSplit(url: string): (r: ParseResult)
    ensures r.params == ""
    ensures '#' !in r.path && '?' !in r.path
  {
    var u := Sanitize(url);
    var (scheme, afterScheme) := SplitScheme(u);
    var (netloc, rest) := if StartsWith(afterScheme, "//") then SplitNetloc(afterScheme) else ("", afterScheme);
    var (beforeHash, fragment) := SplitFirst(rest, '#');
    var (path, query) := SplitFirst(beforeHash, '?');
    assert '#' !in path by {
      if '?' in beforeHash {
        assert beforeHash == path + ['?'] + query;
        assert forall j :: 0 <= j < |path| ==> path[j] == beforeHash[j];
      }
    }
    ParseResult(scheme, netloc, path, "", query, fragment)
  }

  /** `uses_params`: the schemes whose paths may carry `;params`. */
  predicate UsesParams(scheme: string)
  {
    scheme in ["", "ftp", "hdl", "prospero", "http", "imap", "https", "shttp", "rtsp", "rtsps", "rtspu",
               "sip", "sips", "mms", "sftp", "tel"]
  }

  /** `_splitparams(path)`: the params start at the first `;` after the last `/`, or at the first
      `;` when there is no `/`. */
  function SplitParams(path: string): (r: (string, string))
    ensures StartsWith(path, r.0)
    ensures ';' !in path ==> r == (path, "")
  {
    var from := FindLast(path, '/');
    var semi := FindFrom(path, ';', if from < 0 then 0 else from);
    if semi < |path| then (path[..semi], path[semi + 1..])
    else
      assert ';' !in path ==> path[..|path|] == path;
      (path, "")
  }

  /** `urlparse(url)`: `urlsplit`, then the params split off the path for the schemes that have
      them. */
  function UrlParse(url: string): (r: ParseResult)
    ensures var s := UrlSplit(url);
      && r.scheme == s.scheme && r.netloc == s.netloc && r.query == s.query && r.fragment == s.fragment
      && StartsWith(s.path, r.path)
      && (';' !in s.path ==> r.path == s.path && r.params == "")
  {
    var s := UrlSplit(url);
    var (path, params) := if UsesParams(s.scheme) && ';' in s.path then SplitParams(s.path) else (s.path, "");
    ParseResult(s.scheme, s.netloc, path, params, s.query, s.fragment)
  }

  /** A plain absolute path, without query, fragment, params or control characters and not
      starting with `//`, parses as itself. */
  lemma UrlParseOfPath(p: string)
    requires |p| > 0 && p[0] == '/' && !StartsWith(p, "//")
    requires '#' !in p && '?' !in p && ';' !in p && forall i :: 0 <= i < |p| ==> !IsUnsafe(p[i])
    ensures UrlParse(p) == ParseResult("", "", p, "", "", "")
  {
    SchemelessPath(p);
    SplitFirstAbsent(p, '#');
    SplitFirstAbsent(p, '?');
    UrlSplitNoNetloc(p, p, p);
    UrlParseNoParams(p);
  }

  /** A path starting with `/` and free of control characters has no scheme. */
  lemma SchemelessPath(p: string)
    requires |p| > 0 && p[0] == '/' && forall i :: 0 <= i < |p| ==> !IsUnsafe(p[i])
    ensures SplitScheme(Sanitize(p)) == ("", p)
  {
    SanitizeClean(p);
    assert !IsScheme(p, FindFrom(p, ':', 0));
  }

  /** A path without `;` has no params to split off. */
  lemma UrlParseNoParams(url: string)
    requires ';' !in UrlSplit(url).path
    ensures UrlParse(url) == UrlSplit(url)
  {
  }

  /** `urlsplit` of a URL without scheme, netloc, query or fragment, from its steps. */
  lemma UrlSplitNoNetloc(url: string, after: string, path: string)
    requires SplitScheme(Sanitize(url)) == ("", after) && !StartsWith(after, "//")
    requires SplitFirst(after, '#') == (after, "") && SplitFirst(after, '?') == (path, "")
    ensures UrlSplit(url) == ParseResult("", "", path, "", "", "")
  {
  }

  /** A string without tabs, carriage returns and line feeds whose first character is not
      stripped passes the sanitising step unchanged. */
  lemma SanitizeClean(u: string)
    requires |u| > 0 ==> !IsC0OrSpace(u[0])
    requires forall i :: 0 <= i < |u| ==> !IsUnsafe(u[i])
    ensures Sanitize(u) == u
  {
    RemoveUnsafeClean(u);
  }

  lemma SplitFirstAbsent(s: string, c: char)
    requires c !in s
    ensures SplitFirst(s, c) == (s, "")
  {
  }

  /** A host without `/`, `?`, `#`, `:` or control characters. */
  predicate IsPlainHost(host: string)
  {
    forall i :: 0 <= i < |host| ==> host[i] !in "/?#:" && !IsUnsafe(host[i])
  }

  /** An absolute path without `#`, `?`, `;`, `:` or control characters. */
  predicate IsPlainPath(p: string)
  {
    |p| > 0 && p[0] == '/' && forall i :: 0 <= i < |p| ==> p[i] !in "#?;:" && !IsUnsafe(p[i])
  }

  /** A query without `#` or control characters. */
  predicate IsPlainQuery(query: string)
  {
    forall i :: 0 <= i < |query| ==> query[i] != '#' && !IsUnsafe(query[i])
  }

  /** A link `https://host/path?query` to a plain host and a plain path: the parts are the host,
      the path and the query. */
  lemma UrlParseOfHttps(url: string, host: string, p: string, query: string)
    requires IsPlainHost(host) && IsPlainPath(p) && IsPlainQuery(query)
    requires url == "https://" + host + p + "?" + query
    ensures UrlParse(url) == ParseResult("https", host, p, "", query, "")
  {
    var rest := p + "?" + query;
    var after := "//" + host + rest;
    assert url == "https:" + after;
    assert SplitScheme(Sanitize(url)) == ("https", after) by {
      HttpsClean(host, p, query);
      HttpsScheme(after);
    }
    assert StartsWith(after, "//") && SplitNetloc(after) == (host, rest) by {
      PathAndQuery(p, query);
      HttpsNetloc(host, rest);
    }
    assert SplitFirst(rest, '#') == (rest, "") && SplitFirst(rest, '?') == (p, query) && ';' !in p by {
      PathAndQuery(p, query);
    }
    UrlParseSteps(url, "https", after, host, rest, p, query);
  }

  /** `urlsplit` of a URL with a netloc and no fragment, from the results of its steps. */
  lemma UrlSplitSteps(url: string, scheme: string, after: string, netloc: string, rest: string,
                      path: string, query: string)
    requires SplitScheme(Sanitize(url)) == (scheme, after)
    requires StartsWith(after, "//") && SplitNetloc(after) == (netloc, rest)
    requires SplitFirst(rest, '#') == (rest, "") && SplitFirst(rest, '?') == (path, query)
    ensures UrlSplit(url) == ParseResult(scheme, netloc, path, "", query, "")
  {
  }

  /** `urlparse` of such a URL whose path holds no `;`. */
  lemma UrlParseSteps(url: string, scheme: string, after: string, netloc: string, rest: string,
                      path: string, query: string)
    requires SplitScheme(Sanitize(url)) == (scheme, after)
    requires StartsWith(after, "//") && SplitNetloc(after) == (netloc, rest)
    requires SplitFirst(rest, '#') == (rest, "") && SplitFirst(rest, '?') == (path, query)
    requires ';' !in path
    ensures UrlParse(url) == ParseResult(scheme, netloc, path, "", query, "")
  {
    UrlSplitSteps(url, scheme, after, netloc, rest, path, query);
    UrlParseNoParams(url);
  }

  /** Such a link has nothing for the sanitising step to remove. */
  lemma HttpsClean(host: string, p: string, query: string)
    requires IsPlainHost(host) && IsPlainPath(p) && IsPlainQuery(query)
    ensures var url := "https:" + ("//" + host + (p + "?" + query));
      Sanitize(url) == url
  {
    var url := "https:" + ("//" + host + (p + "?" + query));
    forall i | 0 <= i < |url| ensures !IsUnsafe(url[i]) {
      if i >= 8 + |host| + |p| + 1 {
        assert url[i] == query[i - (8 + |host| + |p| + 1)];
      } else if i >= 8 + |host| + |p| {
      } else if i >= 8 + |host| {
        assert url[i] == p[i - (8 + |host|)];
      } else if i >= 8 {
        assert url[i] == host[i - 8];
      }
    }
    SanitizeClean(url);
  }

  lemma HttpsScheme(after: string)
    ensures SplitScheme("https:" + after) == ("https", after)
  {
    var u := "https:" + after;
    FindFromAt(u, ':', 0, 5);
    assert IsScheme(u, 5);
    assert Lower("https") == "https";
    assert u[..5] == "https" && u[6..] == after;
  }

  lemma HttpsNetloc(host: string, rest: string)
    requires IsPlainHost(host)
    requires |rest| > 0 && rest[0] == '/'
    ensures StartsWith("//" + host + rest, "//")
    ensures SplitNetloc("//" + host + rest) == (host, rest)
  {
    var s := "//" + host + rest;
    var k := 2 + |host|;
    assert forall j :: 2 <= j < k ==> s[j] == host[j - 2];
    FindFromAt(s, '/', 2, k);
    assert FindFrom(s, '?', 2) >= k;
    assert FindFrom(s, '#', 2) >= k;
    assert s[2..k] == host && s[k..] == rest;
  }

  /** The fragment and query splits of `path?query`, and the path has no `;`. */
  lemma PathAndQuery(p: string, query: string)
    requires IsPlainPath(p) && IsPlainQuery(query)
    ensures |p + "?" + query| > 0 && (p + "?" + query)[0] == '/'
    ensures SplitFirst(p + "?" + query, '#') == (p + "?" + query, "")
    ensures SplitFirst(p + "?" + query, '?') == (p, query)
    ensures ';' !in p
  {
    var rest := p + "?" + query;
    forall i | 0 <= i < |rest| ensures rest[i] != '#' {
      if i > |p| {
        assert rest[i] == query[i - |p| - 1];
      } else if i < |p| {
        assert rest[i] == p[i];
      }
    }
    SplitFirstAbsent(rest, '#');
    FindFromAt(rest, '?', 0, |p|);
    assert rest[..|p|] == p && rest[|p| + 1..] == query;
    forall i | 0 <= i < |p| ensures p[i] != ';' {
      assert p[i] !in "#?;:";
    }
  }

  predicate IsHexDigit(c: char)
  {
    IsDigit(c) || 'a' <= c <= 'f' || 'A' <= c <= 'F'
  }

  function HexValue(c: char): (v: nat)
    requires IsHexDigit(c)
    ensures v < 16
  {
    if IsDigit(c) then c as int - '0' as int
    else if 'a' <= c <= 'f' then c as int - 'a' as int + 10
    else c as int - 'A' as int + 10
  }

  /** The upper-case hex digit `quote` writes for `v`. */
  function HexDigit(v: nat): (c: char)
    requires v < 16
    ensures IsHexDigit(c) && HexValue(c) == v
  {
    "0123456789ABCDEF"[v]
  }

  /** The text a decoded byte contributes: an ASCII byte is its character; a byte of 0x80 or
      more becomes U+FFFD. */
  function ByteChar(b: nat): char
    requires b < 256
  {
    if b < 0x80 then b as char else '�'
  }

  /** `unquote(s)`: each `%` followed by two hex digits is the byte they spell; every other
      character, `%` included, stays as it is. */
  function Unquote(s: string): (r: string)
    ensures |r| <= |s|
  {
    if |s| == 0 then ""
    else if s[0] == '%' && |s| >= 3 && IsHexDigit(s[1]) && IsHexDigit(s[2]) then
      [ByteChar(16 * HexValue(s[1]) + HexValue(s[2]))] + Unquote(s[3..])
    else [s[0]] + Unquote(s[1..])
  }

  /** Text without `%` is left as it is. */
  lemma {:induction false} UnquoteAbsent(s: string)
    requires '%' !in s
    ensures Unquote(s) == s
  {
    if |s| > 0 {
      UnquoteAbsent(s[1..]);
    }
  }

  /** `quote(s, safe='')` on ASCII text: every character as `%` and two upper-case hex digits. */
  function PercentEncode(s: string): (r: string)
    requires forall i :: 0 <= i < |s| ==> s[i] as int < 0x80
    ensures |r| == 3 * |s|
  {
    if |s| == 0 then ""
    else
      var b := s[0] as int;
      ['%', HexDigit(b / 16), HexDigit(b % 16)] + PercentEncode(s[1..])
  }

  /** Unquoting undoes percent-encoding. */
  lemma {:induction false} UnquotePercentEncode(s: string)
    requires forall i :: 0 <= i < |s| ==> s[i] as int < 0x80
    ensures Unquote(PercentEncode(s)) == s
  {
    if |s| > 0 {
      var b := s[0] as int;
      var e := PercentEncode(s);
      assert e[..3] == ['%', HexDigit(b / 16), HexDigit(b % 16)] && e[3..] == PercentEncode(s[1..]);
      assert 16 * (b / 16) + b % 16 == b;
      UnquotePercentEncode(s[1..]);
    }
  }
}
