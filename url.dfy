/**
 * `urllib.parse.urlparse` as far as the scraper uses it: the scheme, the
 * network location and the path of a URL.
 */
module Url {
  import opened Wrappers
  import opened Text

  datatype Parts = Parts(scheme: string, netloc: string, path: string, params: string, query: string, fragment: string)

  /** Leading characters `urlsplit` strips: C0 controls and the space. */
  predicate IsC0OrSpace(c: char) {
    c <= ' '
  }

  predicate IsAsciiLetter(c: char) {
    ('a' <= c <= 'z') || ('A' <= c <= 'Z')
  }

  /** Characters allowed in a scheme. */
  predicate IsSchemeChar(c: char) {
    IsAsciiLetter(c) || IsDigit(c) || c == '+' || c == '-' || c == '.'
  }

  function LStripC0(s: string): (r: string)
    ensures |r| <= |s| && r == s[|s| - |r|..]
    ensures r != [] ==> !IsC0OrSpace(r[0])
    decreases |s|
  {
    if s != [] && IsC0OrSpace(s[0]) then LStripC0(s[1..]) else s
  }

  /** Removes the tab, carriage return and line feed characters. */
  function RemoveUnsafe(s: string): (r: string)
    ensures forall i :: 0 <= i < |r| ==> r[i] !in {'\t', '\r', '\n'}
    decreases |s|
  {
    if s == [] then []
    else (if s[0] in {'\t', '\r', '\n'} then [] else [s[0]]) + RemoveUnsafe(s[1..])
  }

  /** Lowercased scheme and the rest, when the text before the first `:` is a scheme. */
  function SplitScheme(url: string): (r: (string, string))
    ensures r.0 == [] ==> r.1 == url
  {
    var i := Find(url, {':'});
    if 0 < i < |url| && IsAsciiLetter(url[0]) && (forall k :: 0 <= k < i ==> IsSchemeChar(url[k]))
    then (Lower(url[..i]), url[i + 1..])
    else ([], url)
  }

  /** `urlsplit` followed by the `;params` split of `urlparse`. */
  function UrlParse(url: string): (p: Parts)
    ensures '/' !in p.netloc && '?' !in p.netloc && '#' !in p.netloc
    ensures '?' !in p.path && '#' !in p.path
  {
    var (scheme, u1) := SplitScheme(RemoveUnsafe(LStripC0(url)));
    var (netloc, u2) := SplitNetloc(u1);
    var (u3, fragment) := SplitAt(u2, '#');
    var (u4, query) := SplitAt(u3, '?');
    var (path, params) := if scheme in UsesParams && ';' in u4 then SplitParams(u4) else (u4, []);
    Parts(scheme, netloc, path, params, query, fragment)
  }

  /** After `//`, the network location runs up to the first `/`, `?` or `#`. */
  function SplitNetloc(u: string): (r: (string, string))
    ensures '/' !in r.0 && '?' !in r.0 && '#' !in r.0
    ensures |r.1| <= |u|
  {
    if |u| >= 2 && u[..2] == "//" then
      var d := 2 + Find(u[2..], {'/', '?', '#'});
      assert forall i :: 0 <= i < d - 2 ==> u[2..][i] !in {'/', '?', '#'};
      (u[2..d], u[d..])
    else ([], u)
  }

  /** `u.split(c, 1)` when `c` occurs, else `u` and the empty string. */
  function SplitAt(u: string, c: char): (r: (string, string))
    ensures c !in r.0
    ensures |r.0| <= |u| && r.0 == u[..|r.0|]
  {
    var k := Find(u, {c});
    if k < |u| then (u[..k], u[k + 1..]) else (u, [])
  }

  /** Schemes whose last path segment may carry `;params`. */
  const UsesParams: set<string> := {
    "", "ftp", "hdl", "prospero", "http", "imap", "https", "shttp", "rtsp",
    "rtsps", "rtspu", "sip", "sips", "mms", "sftp", "tel"}

  /** `_splitparams`: the parameters start at the first `;` of the last segment. */
  function SplitParams(url: string): (r: (string, string))
    ensures |r.0| <= |url| && r.0 == url[..|r.0|]
  {
    var lastSlash := LastIndex(url, '/');
    var i :=
      if lastSlash.Some? then lastSlash.value + Find(url[lastSlash.value..], {';'})
      else Find(url, {';'});
    if i < |url| then (url[..i], url[i + 1..]) else (url, [])
  }

  function LastIndex(s: string, c: char): (r: Option<nat>)
    ensures r.Some? ==> r.value < |s| && s[r.value] == c
    ensures r.Some? ==> forall k :: r.value < k < |s| ==> s[k] != c
    ensures r.None? ==> c !in s
    decreases |s|
  {
    if s == [] then None
    else if s[|s| - 1] == c then Some(|s| - 1)
    else LastIndex(s[..|s| - 1], c)
  }

  /** The check at the start of `scrape_product`: an http(s) scheme and a host. */
  predicate UrlOk(url: string) {
    var p := UrlParse(url);
    (p.scheme == "http" || p.scheme == "https") && p.netloc != []
  }

  lemma {:induction false} RemoveUnsafeKeeps(s: string)
    requires Safe(s)
    ensures RemoveUnsafe(s) == s
    decreases |s|
  {
    if s != [] {
      RemoveUnsafeKeeps(s[1..]);
    }
  }

  /** Text with no `:` has no scheme, so it is refused. */
  lemma NoSchemeRefused(url: string)
    requires ':' !in url
    ensures !UrlOk(url)
  {
    var u := RemoveUnsafe(LStripC0(url));
    NoColonKept(LStripC0(url));
    assert Find(u, {':'}) == |u|;
  }

  lemma {:induction false} NoColonKept(s: string)
    requires ':' !in s
    ensures ':' !in RemoveUnsafe(s)
    decreases |s|
  {
    if s != [] {
      assert ':' !in s[1..];
      NoColonKept(s[1..]);
    }
  }

  lemma HttpScheme(scheme: string, tail: string)
    requires scheme == "http" || scheme == "https"
    ensures SplitScheme(scheme + ":" + tail) == (scheme, tail)
  {
    var url := scheme + ":" + tail;
    assert Find(url, {':'}) == |scheme| by {
      assert url[|scheme|] == ':';
      assert forall k :: 0 <= k < |scheme| ==> url[k] == scheme[k] && url[k] != ':';
    }
    assert url[..|scheme|] == scheme;
    assert Lower(scheme) == scheme;
    assert url[|scheme| + 1..] == tail;
  }

  lemma HostNetloc(host: string, rest: string)
    requires forall i :: 0 <= i < |host| ==> host[i] !in {'/', '?', '#'}
    requires rest == [] || rest[0] in {'/', '?', '#'}
    ensures SplitNetloc("//" + host + rest).0 == host
  {
    var u := "//" + host + rest;
    var hr := host + rest;
    assert u[..2] == "//" && u[2..] == hr;
    assert Find(hr, {'/', '?', '#'}) == |host| by {
      assert forall k :: 0 <= k < |host| ==> hr[k] == host[k];
      if rest != [] {
        assert hr[|host|] == rest[0];
      }
    }
    assert u[2..2 + |host|] == host;
  }

  /**
   * `http://host...` and `https://host...` pass the check whenever the host
   * is not empty and is followed by nothing or by `/`, `?` or `#`.
   */
  lemma HttpUrlOk(scheme: string, host: string, rest: string)
    requires scheme == "http" || scheme == "https"
    requires host != [] && forall i :: 0 <= i < |host| ==> host[i] !in {'/', '?', '#', '\t', '\r', '\n'}
    requires rest == [] || rest[0] in {'/', '?', '#'}
    requires forall i :: 0 <= i < |rest| ==> rest[i] !in {'\t', '\r', '\n'}
    ensures UrlOk(scheme + "://" + host + rest)
    ensures UrlParse(scheme + "://" + host + rest).netloc == host
  {
    var url := scheme + "://" + host + rest;
    var tail := "//" + host + rest;
    HttpClean(scheme, host, rest);
    HttpScheme(scheme, tail);
    HostNetloc(host, rest);
    ParseHead(url);
  }

  /** The scheme and the network location `urlparse` reports. */
  lemma ParseHead(url: string)
    ensures var (scheme, u1) := SplitScheme(RemoveUnsafe(LStripC0(url)));
      UrlParse(url).scheme == scheme && UrlParse(url).netloc == SplitNetloc(u1).0
  {
  }

  /** Nothing `urlsplit` removes. */
  predicate Safe(s: string) {
    forall i :: 0 <= i < |s| ==> s[i] !in {'\t', '\r', '\n'}
  }

  lemma SafeAppend(a: string, b: string)
    requires Safe(a) && Safe(b)
    ensures Safe(a + b)
  {
    forall i | 0 <= i < |a + b| ensures (a + b)[i] !in {'\t', '\r', '\n'} {
      if i >= |a| {
        assert (a + b)[i] == b[i - |a|];
      }
    }
  }

  lemma SchemeSplits(scheme: string, host: string, rest: string)
    ensures scheme + "://" + host + rest == scheme + ":" + ("//" + host + rest)
  {
    assert "://" == ":" + "//";
  }

  /** Such a URL has no leading blank and nothing `urlsplit` removes. */
  lemma HttpClean(scheme: string, host: string, rest: string)
    requires scheme == "http" || scheme == "https"
    requires Safe(host) && Safe(rest)
    ensures RemoveUnsafe(LStripC0(scheme + "://" + host + rest)) == scheme + ":" + ("//" + host + rest)
  {
    var head := scheme + "://";
    assert Safe(head);
    SafeAppend(head, host);
    SafeAppend(head + host, rest);
    var url := head + host + rest;
    assert url[0] == 'h';
    assert LStripC0(url) == url;
    RemoveUnsafeKeeps(url);
    SchemeSplits(scheme, host, rest);
  }
}
