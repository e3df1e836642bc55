/** Link extraction from the token stream of an HTML tokenizer, as the
    token loop of fetchAndParse does it: only start-tag tokens are looked
    at, only their href, src and action attributes yield links, and the
    stream ends at the first error token (end of input or bad markup). */
module Tokens {

  /** The token kinds of golang.org/x/net/html. */
  datatype TokenType =
    | ErrorToken
    | TextToken
    | StartTagToken
    | EndTagToken
    | SelfClosingTagToken
    | CommentToken
    | DoctypeToken

  datatype Attribute = Attribute(key: string, val: string)

  datatype Token = Token(kind: TokenType, attrs: seq<Attribute>)

  predicate IsLinkKey(key: string) {
    key == "href" || key == "src" || key == "action"
  }

  /** The values of the link attributes, in order. */
  function LinkValues(attrs: seq<Attribute>): (vals: seq<string>)
    ensures |vals| <= |attrs|
    ensures forall v :: v in vals ==> exists a :: a in attrs && IsLinkKey(a.key) && a.val == v
    decreases |attrs|
  {
    if attrs == [] then []
    else
      var last := attrs[|attrs| - 1];
      LinkValues(attrs[..|attrs| - 1]) + (if IsLinkKey(last.key) then [last.val] else [])
  }

  lemma {:induction false} LinkValuesAppend(a: seq<Attribute>, b: seq<Attribute>)
    ensures LinkValues(a + b) == LinkValues(a) + LinkValues(b)
    decreases |b|
  {
    if b == [] {
      assert a + b == a;
    } else {
      var b' := b[..|b| - 1];
      assert (a + b)[..|a + b| - 1] == a + b';
      LinkValuesAppend(a, b');
    }
  }

  /** Every href, src or action value is collected. */
  lemma {:induction false} LinkValuesComplete(attrs: seq<Attribute>, a: Attribute)
    requires a in attrs && IsLinkKey(a.key)
    ensures a.val in LinkValues(attrs)
    decreases |attrs|
  {
    var init := attrs[..|attrs| - 1];
    if a != attrs[|attrs| - 1] {
      assert attrs == init + [attrs[|attrs| - 1]];
      LinkValuesComplete(init, a);
    }
  }

  /** The links one token contributes. */
  function TokenLinks(t: Token): seq<string> {
    if t.kind == StartTagToken then LinkValues(t.attrs) else []
  }

  /** The links of a run of tokens, token by token. */
  function TagLinks(ts: seq<Token>): seq<string>
    decreases |ts|
  {
    if ts == [] then [] else TagLinks(ts[..|ts| - 1]) + TokenLinks(ts[|ts| - 1])
  }

  /** Index of the first error token, or |ts|. */
  function FirstError(ts: seq<Token>): (i: nat)
    ensures i <= |ts|
    ensures forall k :: 0 <= k < i ==> ts[k].kind != ErrorToken
    ensures i < |ts| ==> ts[i].kind == ErrorToken
  {
    if ts == [] then 0
    else if ts[0].kind == ErrorToken then 0
    else 1 + FirstError(ts[1..])
  }

  lemma {:induction false} FirstErrorUnique(ts: seq<Token>, j: nat)
    requires j <= |ts|
    requires forall k :: 0 <= k < j ==> ts[k].kind != ErrorToken
    requires j < |ts| ==> ts[j].kind == ErrorToken
    ensures FirstError(ts) == j
  {
    if j > 0 {
      FirstErrorUnique(ts[1..], j - 1);
    }
  }

  /** The candidate links of a response body. */
  function ExtractLinks(ts: seq<Token>): seq<string> {
    TagLinks(ts[..FirstError(ts)])
  }

  lemma {:induction false} TagLinksAppend(a: seq<Token>, b: seq<Token>)
    ensures TagLinks(a + b) == TagLinks(a) + TagLinks(b)
    decreases |b|
  {
    if b == [] {
      assert a + b == a;
    } else {
      var b' := b[..|b| - 1];
      var t := b[|b| - 1];
      assert (a + b)[..|a + b| - 1] == a + b';
      assert TagLinks(a + b) == TagLinks(a + b') + TokenLinks(t);
      TagLinksAppend(a, b');
      assert TagLinks(b) == TagLinks(b') + TokenLinks(t);
    }
  }

  /** Every extracted link is the value of an href, src or action attribute
      of a start tag that comes before the first error token. */
  lemma {:induction false} ExtractLinksSound(ts: seq<Token>, v: string)
    requires v in ExtractLinks(ts)
    ensures exists i, a :: 0 <= i < FirstError(ts) && ts[i].kind == StartTagToken &&
                           a in ts[i].attrs && IsLinkKey(a.key) && a.val == v
  {
    TagLinksSound(ts[..FirstError(ts)], v);
  }

  lemma {:induction false} TagLinksSound(ts: seq<Token>, v: string)
    requires v in TagLinks(ts)
    ensures exists i, a :: 0 <= i < |ts| && ts[i].kind == StartTagToken &&
                           a in ts[i].attrs && IsLinkKey(a.key) && a.val == v
    decreases |ts|
  {
    var init := ts[..|ts| - 1];
    var last := ts[|ts| - 1];
    if v in TagLinks(init) {
      TagLinksSound(init, v);
      var i, a :| 0 <= i < |init| && init[i].kind == StartTagToken &&
                  a in init[i].attrs && IsLinkKey(a.key) && a.val == v;
      assert ts[i] == init[i];
    } else {
      assert v in TokenLinks(last);
      assert ts[|ts| - 1] == last;
    }
  }

  /** Every link attribute of a start tag in a run of tokens yields a link. */
  lemma {:induction false} TagLinksComplete(ts: seq<Token>, i: int, a: Attribute)
    requires 0 <= i < |ts| && ts[i].kind == StartTagToken
    requires a in ts[i].attrs && IsLinkKey(a.key)
    ensures a.val in TagLinks(ts)
    decreases |ts|
  {
    var init := ts[..|ts| - 1];
    if i == |ts| - 1 {
      LinkValuesComplete(ts[i].attrs, a);
    } else {
      assert init[i] == ts[i];
      TagLinksComplete(init, i, a);
    }
  }

  /** Every href, src or action value of a start tag before the first error
      token is extracted. */
  lemma ExtractLinksComplete(ts: seq<Token>, i: int, a: Attribute)
    requires 0 <= i < FirstError(ts) && ts[i].kind == StartTagToken
    requires a in ts[i].attrs && IsLinkKey(a.key)
    ensures a.val in ExtractLinks(ts)
  {
    var run := ts[..FirstError(ts)];
    assert run[i] == ts[i];
    TagLinksComplete(run, i, a);
  }

  /** Extraction stops at the first error token: nothing after it counts. */
  lemma ExtractStopsAtError(a: seq<Token>, t: Token, b: seq<Token>)
    requires t.kind == ErrorToken
    requires forall k :: 0 <= k < |a| ==> a[k].kind != ErrorToken
    ensures ExtractLinks(a + [t] + b) == TagLinks(a) == ExtractLinks(a)
  {
    FirstErrorUnique(a + [t] + b, |a|);
    assert (a + [t] + b)[..|a|] == a;
    FirstErrorUnique(a, |a|);
    assert a[..|a|] == a;
  }

  /** A token that is neither a start tag nor an error contributes nothing. */
  lemma IgnoresOtherTokens(a: seq<Token>, t: Token, b: seq<Token>)
    requires t.kind != StartTagToken && t.kind != ErrorToken
    ensures ExtractLinks(a + [t] + b) == ExtractLinks(a + b)
  {
    if FirstError(a) < |a| {
      ErrorInPrefix(a, [t] + b);
      ErrorInPrefix(a, b);
      assert a + [t] + b == a + ([t] + b);
    } else {
      SkipsOtherToken(a, t, b);
    }
  }

  /** IgnoresOtherTokens when a holds no error token. */
  lemma SkipsOtherToken(a: seq<Token>, t: Token, b: seq<Token>)
    requires t.kind != StartTagToken && t.kind != ErrorToken
    requires FirstError(a) == |a|
    ensures ExtractLinks(a + [t] + b) == ExtractLinks(a + b)
  {
    var at := a + [t];
    FirstErrorUnique(at, |at|);
    NoErrorInPrefix(at, b);
    NoErrorInPrefix(a, b);
    var bs := b[..FirstError(b)];
    TagLinksAppend(at, bs);
    TagLinksAppend(a, bs);
    assert at[..|at| - 1] == a;
    assert TagLinks(at) == TagLinks(a);
  }

  /** An error token inside a decides the extraction of a + b. */
  lemma ErrorInPrefix(a: seq<Token>, b: seq<Token>)
    requires FirstError(a) < |a|
    ensures ExtractLinks(a + b) == ExtractLinks(a)
  {
    var e := FirstError(a);
    FirstErrorUnique(a + b, e);
    assert (a + b)[..e] == a[..e];
  }

  /** With no error token in a, extraction runs through a into b. */
  lemma NoErrorInPrefix(a: seq<Token>, b: seq<Token>)
    requires FirstError(a) == |a|
    ensures ExtractLinks(a + b) == TagLinks(a + b[..FirstError(b)])
  {
    var e := FirstError(b);
    FirstErrorUnique(a + b, |a| + e);
    assert (a + b)[..|a| + e] == a + b[..e];
  }

  /** An attribute other than href, src or action contributes nothing. */
  lemma {:induction false} IgnoresOtherAttributes(a: seq<Attribute>, x: Attribute, b: seq<Attribute>)
    requires !IsLinkKey(x.key)
    ensures LinkValues(a + [x] + b) == LinkValues(a + b)
    decreases |b|
  {
    if b == [] {
      assert (a + [x] + b)[..|a|] == a;
      assert a + b == a;
    } else {
      var b' := b[..|b| - 1];
      assert (a + [x] + b)[..|a + [x] + b| - 1] == a + [x] + b';
      assert (a + b)[..|a + b| - 1] == a + b';
      IgnoresOtherAttributes(a, x, b');
    }
  }
}
