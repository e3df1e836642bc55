/** The crawler's scope filter (Crawler.normalize): a raw link is parsed,
    resolved against the base URL when it is not absolute, and kept only
    when its host is the base host. */
module Scope {
  import opened Urls

  /** The URL a link stands for, when it is in scope. */
  function NormalizeUrl(parse: string -> Option<ParsedUrl>, base: ParsedUrl, link: string): (r: Option<ParsedUrl>)
    ensures parse(link).None? ==> r.None?
    ensures r.Some? ==> r.value.host == base.host
    ensures r.Some? && IsAbs(base) ==> IsAbs(r.value)
  {
    match parse(link)
    case None => None
    case Some(u) =>
      if IsAbs(u) then
        if u.host == base.host then Some(u) else None
      else
        var resolved := ResolveReference(base, u);
        if resolved.host == base.host then Some(resolved) else None
  }

  /** Crawler.normalize: the in-scope URL in string form, or "" for a link
      that does not parse or leads to another host. */
  function Normalize(parse: string -> Option<ParsedUrl>, base: ParsedUrl, link: string): (r: string)
    ensures parse(link).None? ==> r == ""
    ensures parse(link).Some? && IsAbs(parse(link).value) && parse(link).value.host != base.host ==> r == ""
    ensures parse(link).Some? && parse(link).value.host != "" && parse(link).value.host != base.host ==> r == ""
    ensures r != "" ==> HostOf(r) == base.host
  {
    match NormalizeUrl(parse, base, link)
    case None => ""
    case Some(u) => HostOfFormat(u); Format(u)
  }

  /** An absolute link on the base host is kept in its own string form. */
  lemma NormalizeSameHost(parse: string -> Option<ParsedUrl>, base: ParsedUrl, link: string)
    requires parse(link).Some? && IsAbs(parse(link).value)
    requires parse(link).value.host == base.host
    ensures Normalize(parse, base, link) == Format(parse(link).value)
  {
  }

  /** A path reference (neither scheme nor host) is always kept when the base
      has a host, and lands on the base's scheme and host. */
  lemma NormalizePathReference(parse: string -> Option<ParsedUrl>, base: ParsedUrl, link: string)
    requires parse(link).Some? && !IsAbs(parse(link).value) && parse(link).value.host == ""
    requires base.host != ""
    ensures NormalizeUrl(parse, base, link).Some?
    ensures NormalizeUrl(parse, base, link).value.scheme == base.scheme
    ensures Normalize(parse, base, link) != ""
    ensures HostOf(Normalize(parse, base, link)) == base.host
  {
    var u := NormalizeUrl(parse, base, link).value;
    assert Format(u)[0] == '/' || Format(u)[..|u.scheme| + 1] == u.scheme + ":";
  }

  /** With an absolute base, normalizing a kept link again changes nothing,
      provided parsing its string form gives back the URL it was printed from. */
  lemma NormalizeIdempotent(parse: string -> Option<ParsedUrl>, base: ParsedUrl, link: string)
    requires IsAbs(base)
    requires NormalizeUrl(parse, base, link).Some? ==>
               parse(Format(NormalizeUrl(parse, base, link).value)) == NormalizeUrl(parse, base, link)
    ensures var r := Normalize(parse, base, link);
            r != "" ==> Normalize(parse, base, r) == r
  {
    var r := Normalize(parse, base, link);
    if r != "" {
      var u := NormalizeUrl(parse, base, link).value;
      assert r == Format(u);
      NormalizeSameHost(parse, base, r);
    }
  }

  /** Crawler.normalize bound to the crawler's parser and base URL: it only
      ever yields "" or a URL on the base host. */
  function Normalizer(parse: string -> Option<ParsedUrl>, base: ParsedUrl): (norm: string -> string)
    ensures ScopedTo(norm, base.host)
  {
    l => Normalize(parse, base, l)
  }

  /** Every non-empty answer of `norm` is on `host`. */
  ghost predicate ScopedTo(norm: string -> string, host: string) {
    forall l :: norm(l) != "" ==> HostOf(norm(l)) == host
  }

  /** The normalized forms of a sequence of raw links, in order, with the
      links `norm` rejects (those it maps to "") dropped. */
  function KeepAll(norm: string -> string, raws: seq<string>): (links: seq<string>)
    ensures |links| <= |raws|
    ensures forall l :: l in links ==> l != "" && exists raw :: raw in raws && norm(raw) == l
    decreases |raws|
  {
    if raws == [] then []
    else
      var n := norm(raws[|raws| - 1]);
      KeepAll(norm, raws[..|raws| - 1]) + (if n != "" then [n] else [])
  }

  /** Every raw link `norm` accepts is kept, in its normalized form. */
  lemma {:induction false} KeepAllComplete(norm: string -> string, raws: seq<string>, raw: string)
    requires raw in raws && norm(raw) != ""
    ensures norm(raw) in KeepAll(norm, raws)
    decreases |raws|
  {
    var init := raws[..|raws| - 1];
    if raw != raws[|raws| - 1] {
      assert raws == init + [raws[|raws| - 1]];
      KeepAllComplete(norm, init, raw);
    }
  }

  lemma {:induction false} KeepAllAppend(norm: string -> string, a: seq<string>, b: seq<string>)
    ensures KeepAll(norm, a + b) == KeepAll(norm, a) + KeepAll(norm, b)
    decreases |b|
  {
    if b != [] {
      var b' := b[..|b| - 1];
      assert (a + b)[..|a + b| - 1] == a + b';
      KeepAllAppend(norm, a, b');
    } else {
      assert a + b == a;
    }
  }
}
