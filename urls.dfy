/** URLs as the crawler sees them: a parsed reference, its string form
    (Go's URL.String), the host read back from a string (RFC 3986,
    appendix B) and reference resolution (Go's URL.ResolveReference,
    section 5.2 of RFC 3986). */
module Urls {

  datatype Option<T> = None | Some(value: T)

  const SCHEME_DELIMS: set<char> := {':', '/', '?', '#'}
  const AUTHORITY_DELIMS: set<char> := {'/', '?', '#'}

  /** Index of the first character of `s` that is in `delims`, or |s|. */
  function Scan(s: string, delims: set<char>): (i: nat)
    ensures i <= |s|
    ensures forall k :: 0 <= k < i ==> s[k] !in delims
    ensures i < |s| ==> s[i] in delims
  {
    if s == [] then 0
    else if s[0] in delims then 0
    else 1 + Scan(s[1..], delims)
  }

  /** The first delimiter position is the only position with Scan's properties. */
  lemma {:induction false} ScanUnique(s: string, delims: set<char>, j: nat)
    requires j <= |s|
    requires forall k :: 0 <= k < j ==> s[k] !in delims
    requires j < |s| ==> s[j] in delims
    ensures Scan(s, delims) == j
  {
    if j > 0 {
      ScanUnique(s[1..], delims, j - 1);
    }
  }

  /** Looking for more delimiters stops no later. */
  lemma {:induction false} ScanWider(s: string, narrow: set<char>, wide: set<char>)
    requires narrow <= wide
    ensures Scan(s, wide) <= Scan(s, narrow)
  {
    if s != [] && s[0] !in wide {
      ScanWider(s[1..], narrow, wide);
    }
  }

  predicate NoneOf(s: string, delims: set<char>) {
    forall k :: 0 <= k < |s| ==> s[k] !in delims
  }

  predicate StartsWithTwoSlashes(p: string) {
    |p| >= 2 && p[0] == '/' && p[1] == '/'
  }

  /** A parsed reference; an empty component is an absent one, as in net/url.
      path, rawQuery and fragment hold the escaped forms (Go's EscapedPath(),
      RawQuery and EscapedFragment()), which URL.String and ResolveReference
      work on: the link "/a b" has the path "/a%20b". Format equals URL.String
      only under this reading. */
  datatype Url = Url(scheme: string, host: string, path: string, rawQuery: string, fragment: string)

  /** The parses the model admits: the scheme and host hold no delimiters,
      a path without a host does not start with "//", and a scheme-less,
      host-less path has no colon in its first segment (url.Parse rejects
      such input). url.Parse itself can return an empty host with a "//"
      path (for "///x" or "http:////x"); Format would read such a path back
      as a host, so those parses are outside the model. */
  predicate WellFormed(u: Url) {
    && NoneOf(u.scheme, SCHEME_DELIMS)
    && NoneOf(u.host, AUTHORITY_DELIMS)
    && (u.host == "" ==> !StartsWithTwoSlashes(u.path))
    && (u.scheme == "" && u.host == "" ==> ':' !in u.path[..Scan(u.path, {'/'})])
  }

  type ParsedUrl = u: Url | WellFormed(u) witness Url("", "", "", "", "")

  /** URL.IsAbs: the reference has a scheme. */
  predicate IsAbs(u: Url) {
    u.scheme != ""
  }

  /** Everything after the authority: the path (given a leading '/' when a
      host precedes it), then '?' query and '#' fragment when present. */
  function Tail(u: Url): string {
    (if u.host != "" && u.path != "" && u.path[0] != '/' then "/" else "")
    + u.path
    + QueryAndFragment(u)
  }

  /** URL.String: scheme ":" then "//" host, then the tail. */
  function Format(u: Url): string {
    (if u.scheme != "" then u.scheme + ":" else "")
    + Authority(u)
    + Tail(u)
  }

  /** The string after "scheme:", or the whole string when it has no scheme. */
  function AfterScheme(s: string): string {
    var i := Scan(s, SCHEME_DELIMS);
    if 0 < i < |s| && s[i] == ':' then s[i + 1..] else s
  }

  /** The authority at the start of what follows the scheme: the text after
      "//" up to the next '/', '?' or '#', or "" when there is no "//". */
  function AuthorityOf(rest: string): (h: string)
    ensures NoneOf(h, AUTHORITY_DELIMS)
  {
    if StartsWithTwoSlashes(rest) then
      var auth := rest[2..];
      auth[..Scan(auth, AUTHORITY_DELIMS)]
    else ""
  }

  /** The authority of a URL string per appendix B of RFC 3986, "" when absent. */
  function HostOf(s: string): (h: string)
    ensures NoneOf(h, AUTHORITY_DELIMS)
  {
    AuthorityOf(AfterScheme(s))
  }

  /** "//" host, then a tail that starts at a delimiter, has that host as its authority. */
  lemma AuthorityOfHost(host: string, tail: string)
    requires host != "" && NoneOf(host, AUTHORITY_DELIMS)
    requires tail == "" || tail[0] in AUTHORITY_DELIMS
    ensures AuthorityOf("//" + host + tail) == host
  {
    var r := "//" + host + tail;
    assert r[2..] == host + tail;
    ScanUnique(host + tail, AUTHORITY_DELIMS, |host|);
    assert (host + tail)[..|host|] == host;
  }

  /** "//" and the host, when there is a host. */
  function Authority(u: Url): string {
    if u.host != "" then "//" + u.host else ""
  }

  /** The query and fragment parts of the string form. */
  function QueryAndFragment(u: Url): (qf: string)
    ensures qf == "" || qf[0] in {'?', '#'}
  {
    (if u.rawQuery != "" then "?" + u.rawQuery else "")
    + (if u.fragment != "" then "#" + u.fragment else "")
  }

  /** The tail of a URL with a host starts at a delimiter that ends the authority. */
  lemma TailAfterHost(u: Url)
    requires u.host != ""
    ensures Tail(u) == "" || Tail(u)[0] in AUTHORITY_DELIMS
  {
  }

  /** Without a host, the tail does not look like an authority. */
  lemma TailNoAuthority(u: ParsedUrl)
    requires u.host == ""
    ensures !StartsWithTwoSlashes(Tail(u))
  {
    var t := Tail(u);
    assert t == u.path + QueryAndFragment(u);
    if |u.path| >= 2 {
      assert t[..2] == u.path[..2];
    } else if |u.path| == 1 && |t| >= 2 {
      assert t[1] == QueryAndFragment(u)[0];
    }
  }

  /** A delimiter inside s is found before anything appended to s. */
  lemma ScanPrefix(s: string, rest: string, delims: set<char>)
    requires Scan(s, delims) < |s|
    ensures Scan(s + rest, delims) == Scan(s, delims)
  {
    var i := Scan(s, delims);
    assert forall k :: 0 <= k <= i ==> (s + rest)[k] == s[k];
    ScanUnique(s + rest, delims, i);
  }

  /** With no delimiter in s, the scan stops where an appended tail that
      starts at a delimiter begins. */
  lemma ScanPastPrefix(s: string, rest: string, delims: set<char>)
    requires Scan(s, delims) == |s|
    requires rest == "" || rest[0] in delims
    ensures Scan(s + rest, delims) == |s|
  {
    assert forall k :: 0 <= k < |s| ==> (s + rest)[k] == s[k];
    ScanUnique(s + rest, delims, |s|);
  }

  /** In a path with no ':' before its first '/', the first scheme delimiter
      is not a ':'. */
  lemma NoColonBeforeSlash(path: string)
    requires ':' !in path[..Scan(path, {'/'})]
    ensures Scan(path, SCHEME_DELIMS) < |path| ==> path[Scan(path, SCHEME_DELIMS)] != ':'
  {
    var p := Scan(path, {'/'});
    var i := Scan(path, SCHEME_DELIMS);
    ScanWider(path, {'/'}, SCHEME_DELIMS);
    if i < p {
      assert path[..p][i] == path[i];
    }
  }

  /** Without scheme or host, the string form reveals no scheme. */
  lemma TailNoScheme(u: ParsedUrl)
    requires u.host == "" && u.scheme == ""
    ensures AfterScheme(Tail(u)) == Tail(u)
  {
    var t := Tail(u);
    var qf := QueryAndFragment(u);
    assert t == u.path + qf;
    var i := Scan(u.path, SCHEME_DELIMS);
    NoColonBeforeSlash(u.path);
    if i < |u.path| {
      ScanPrefix(u.path, qf, SCHEME_DELIMS);
      assert t[i] == u.path[i];
    } else {
      ScanPastPrefix(u.path, qf, SCHEME_DELIMS);
    }
  }

  /** Stripping the scheme from the string form leaves authority and tail. */
  lemma AfterSchemeFormat(u: ParsedUrl)
    ensures AfterScheme(Format(u)) == Authority(u) + Tail(u)
  {
    var s := Format(u);
    var r := Authority(u) + Tail(u);
    if u.scheme != "" {
      assert s == u.scheme + ":" + r;
      ScanUnique(s, SCHEME_DELIMS, |u.scheme|);
      assert s[|u.scheme| + 1..] == r;
    } else if u.host != "" {
      assert s == r && s[0] == '/';
      ScanUnique(s, SCHEME_DELIMS, 0);
    } else {
      assert s == Tail(u);
      TailNoScheme(u);
    }
  }

  /** Reading the host back from a URL's string form gives its host. */
  lemma HostOfFormat(u: ParsedUrl)
    ensures HostOf(Format(u)) == u.host
  {
    AfterSchemeFormat(u);
    if u.host != "" {
      TailAfterHost(u);
      AuthorityOfHost(u.host, Tail(u));
    } else {
      TailNoAuthority(u);
    }
  }

  /** strings.LastIndex(s, "/"), -1 when s holds no '/'. */
  function LastSlash(s: string): (i: int)
    ensures -1 <= i < |s|
    ensures i >= 0 ==> s[i] == '/'
    ensures forall k :: i < k < |s| ==> s[k] != '/'
  {
    if s == [] then -1
    else if s[|s| - 1] == '/' then |s| - 1
    else LastSlash(s[..|s| - 1])
  }

  /** Go's resolvePath without dot-segment removal: an empty reference keeps
      the base path, a relative one replaces the base's last segment, an
      absolute one replaces the whole path; a non-empty result starts with '/'. */
  function ResolvePath(basePath: string, refPath: string): (p: string)
    ensures p == "" || p[0] == '/'
    ensures refPath != "" ==> p != ""
  {
    var full :=
      if refPath == "" then basePath
      else if refPath[0] != '/' then basePath[..LastSlash(basePath) + 1] + refPath
      else refPath;
    if full == "" then "" else if full[0] == '/' then full else "/" + full
  }

  /** A resolved path looks like an authority only if one of its inputs did. */
  lemma ResolvePathNoAuthority(basePath: string, refPath: string)
    ensures !StartsWithTwoSlashes(basePath) && !StartsWithTwoSlashes(refPath)
            ==> !StartsWithTwoSlashes(ResolvePath(basePath, refPath))
  {
    if !StartsWithTwoSlashes(basePath) && refPath != "" && refPath[0] != '/' {
      var i := LastSlash(basePath);
      var full := basePath[..i + 1] + refPath;
      if i + 1 >= 2 {
        assert full[..2] == basePath[..2];
      } else if i + 1 == 1 {
        assert full[1] == refPath[0];
      }
    }
  }

  /** URL.ResolveReference (section 5.2.2 of RFC 3986): an absolute or
      network-path reference keeps its own host, any other reference takes
      the base's scheme, host and merged path. */
  function ResolveReference(base: ParsedUrl, ref: ParsedUrl): (r: ParsedUrl)
    ensures r.scheme == (if IsAbs(ref) then ref.scheme else base.scheme)
    ensures r.host == (if IsAbs(ref) || ref.host != "" then ref.host else base.host)
  {
    if IsAbs(ref) || ref.host != "" then
      var path := ResolvePath(ref.path, "");
      ResolvePathNoAuthority(ref.path, "");
      var r := ref.(scheme := if IsAbs(ref) then ref.scheme else base.scheme, path := path);
      assert path == "" || Scan(path, {'/'}) == 0;
      r
    else
      var keepQuery := ref.path == "" && ref.rawQuery == "";
      var path := ResolvePath(base.path, ref.path);
      ResolvePathNoAuthority(base.path, ref.path);
      assert path == "" || Scan(path, {'/'}) == 0;
      var r := Url(base.scheme, base.host, path,
                   if keepQuery then base.rawQuery else ref.rawQuery,
                   if keepQuery && ref.fragment == "" then base.fragment else ref.fragment);
      assert base.host == "" ==> !StartsWithTwoSlashes(path);
      r
  }
}
