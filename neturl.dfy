/** The piece of Go's `net/url.Parse` that the client relies on: the path
    component of an absolute URL, with the fragment, the query and the
    authority taken off.  Percent-decoding of the path and the validation of
    the host and port are not part of this model. */
module NetUrl {
  import opened Wrappers
  import opened GoPath

  /** An ASCII control character, which net/url refuses anywhere before the fragment. */
  predicate IsCtl(c: char) {
    c as int < 0x20 || c as int == 0x7f
  }

  predicate NoCtl(s: string) {
    forall i :: 0 <= i < |s| ==> !IsCtl(s[i])
  }

  /** The `Path` field that url.Parse fills for `raw`, whose scheme is the
      text before its first ':'.  That reading agrees with url.Parse for text
      starting "http:" or "https:", the only sources OutputPath hands over;
      text with no ':', or with something other than a scheme before it, is
      read differently by url.Parse.  A URL whose remainder does not start
      with '/' is opaque and has an empty path. */
  function UrlPath(raw: string): (r: Result<string, Error>)
    ensures r.Failure? <==> !NoCtl(Before(raw, '#'))
    ensures r.Success? ==> r.value == [] || r.value[0] == Separator
    ensures r.Success? ==> '?' !in r.value && '#' !in r.value
  {
    var u := Before(raw, '#');
    if !NoCtl(u) then Failure(InvalidUrl("net/url: invalid control character in URL"))
    else
      var rest := Before(After(u, ':'), '?');
      assert '?' !in rest;
      if !HasPrefix(rest, "/") then Success("")
      else if HasPrefix(rest, "//") then
        var authorityAndPath := rest[2..];
        var authority := Before(authorityAndPath, Separator);
        Success(authorityAndPath[|authority|..])
      else Success(rest)
  }

  lemma NoCtlAppend(a: string, b: string)
    requires NoCtl(a) && NoCtl(b)
    ensures NoCtl(a + b)
  {
    forall i | 0 <= i < |a + b|
      ensures !IsCtl((a + b)[i])
    {
      if i < |a| {
        assert (a + b)[i] == a[i];
      } else {
        assert (a + b)[i] == b[i - |a|];
      }
    }
  }

  lemma SchemeSpelled(scheme: string)
    requires scheme == "http" || scheme == "https"
    ensures NoCtl(scheme + ":") && '#' !in scheme + ":" && ':' !in scheme
  {
  }

  /** How url.Parse reads a URL whose remainder starts with "//". */
  lemma UrlPathWithAuthority(raw: string, u: string, rest: string)
    requires Before(raw, '#') == u && NoCtl(u)
    requires Before(After(u, ':'), '?') == rest && HasPrefix(rest, "//")
    ensures UrlPath(raw) == Success(rest[2..][|Before(rest[2..], Separator)|..])
  {
  }

  /** The path that follows the authority `host` in `//host/path`. */
  lemma PathAfterAuthority(host: string, path: string)
    requires NoSlash(host) && path != [] && path[0] == Separator
    ensures ("//" + host + path)[2..][|Before(("//" + host + path)[2..], Separator)|..] == path
  {
    assert ("//" + host + path)[2..] == host + path;
    BeforeConcat(host, path, Separator);
    assert Before(path, Separator) == [];
  }

  /** An optional URL part with its leading separator: "?query" or
      "#fragment" when present, nothing when absent. */
  function Part(sep: char, part: Option<string>): string {
    if part.Some? then [sep] + part.value else []
  }

  /** `scheme://host/path`, followed by "?query" and "#fragment" when present. */
  function HttpUrl(scheme: string, host: string, path: string, query: Option<string>, fragment: Option<string>): string {
    scheme + ":" + "//" + host + path + Part('?', query) + Part('#', fragment)
  }

  /** Cutting at `c` stops where an optional part introduced by `c` starts. */
  lemma BeforePart(s: string, c: char, part: Option<string>)
    requires c !in s
    ensures Before(s + Part(c, part), c) == s
  {
    if part.Some? {
      assert s + Part(c, part) == s + [c] + part.value;
      CutAtFirst(s, part.value, c);
    } else {
      assert s + Part(c, part) == s + [];
      BeforeConcat(s, [], c);
    }
  }

  /** The text before the fragment: the URL up to and including its query. */
  lemma FragmentCut(scheme: string, host: string, path: string, query: Option<string>, fragment: Option<string>)
    requires scheme == "http" || scheme == "https"
    requires '#' !in host && '#' !in path && (query.Some? ==> '#' !in query.value)
    ensures Before(HttpUrl(scheme, host, path, query, fragment), '#')
         == scheme + ":" + "//" + host + path + Part('?', query)
  {
    SchemeSpelled(scheme);
    var u := scheme + ":" + "//" + host + path + Part('?', query);
    assert '#' !in u;
    BeforePart(u, '#', fragment);
  }

  /** The hierarchical remainder: what lies between the scheme's ':' and
      the query's '?', or the end when there is no query. */
  lemma RemainderCut(scheme: string, host: string, path: string, query: Option<string>)
    requires scheme == "http" || scheme == "https"
    requires '?' !in host && '?' !in path
    ensures Before(After(scheme + ":" + "//" + host + path + Part('?', query), ':'), '?') == "//" + host + path
  {
    var s1 := scheme + ":";
    var hostPath := "//" + host + path;
    var tail := hostPath + Part('?', query);
    AppendAssociates(s1, "//", host);
    AppendAssociates(s1, "//" + host, path);
    AppendAssociates(s1, hostPath, Part('?', query));
    assert s1 + "//" + host + path + Part('?', query) == scheme + [':'] + tail;
    SchemeSpelled(scheme);
    CutAtFirst(scheme, tail, ':');
    BeforePart(hostPath, '?', query);
  }

  lemma NoCtlBeforeFragment(scheme: string, host: string, path: string, query: Option<string>)
    requires scheme == "http" || scheme == "https"
    requires NoCtl(host) && NoCtl(path) && (query.Some? ==> NoCtl(query.value))
    ensures NoCtl(scheme + ":" + "//" + host + path + Part('?', query))
  {
    SchemeSpelled(scheme);
    var s1 := scheme + ":";
    NoCtlAppend(s1, "//");
    NoCtlAppend(s1 + "//", host);
    NoCtlAppend(s1 + "//" + host, path);
    if query.Some? {
      NoCtlAppend("?", query.value);
    }
    NoCtlAppend(s1 + "//" + host + path, Part('?', query));
  }

  /** For `scheme://host/path`, with or without "?query" and "#fragment",
      the path is exactly `/path`: host, query and fragment never reach the
      file name. */
  lemma UrlPathOfHierarchical(scheme: string, host: string, path: string, query: Option<string>, fragment: Option<string>)
    requires scheme == "http" || scheme == "https"
    requires NoSlash(host) && '?' !in host && '#' !in host && NoCtl(host)
    requires path != [] && path[0] == Separator && '?' !in path && '#' !in path && NoCtl(path)
    requires query.Some? ==> '#' !in query.value && NoCtl(query.value)
    ensures UrlPath(HttpUrl(scheme, host, path, query, fragment)) == Success(path)
  {
    var raw := HttpUrl(scheme, host, path, query, fragment);
    var u := scheme + ":" + "//" + host + path + Part('?', query);
    var rest := "//" + host + path;
    FragmentCut(scheme, host, path, query, fragment);
    RemainderCut(scheme, host, path, query);
    NoCtlBeforeFragment(scheme, host, path, query);
    assert HasPrefix(rest, "//") by {
      assert rest[..2] == "//";
    }
    UrlPathWithAuthority(raw, u, rest);
    PathAfterAuthority(host, path);
  }

  /** The plainest source, `https://host/path`, has path `/path`. */
  lemma UrlPathOfPlainHttps(host: string, path: string)
    requires NoSlash(host) && '?' !in host && '#' !in host && NoCtl(host)
    requires path != [] && path[0] == Separator && '?' !in path && '#' !in path && NoCtl(path)
    ensures UrlPath("https://" + host + path) == Success(path)
  {
    UrlPathOfHierarchical("https", host, path, None, None);
    assert "https" + ":" + "//" == "https://";
    assert HttpUrl("https", host, path, None, None) == "https" + ":" + "//" + host + path;
  }
}
