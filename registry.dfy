/** The visited registry: the Visited map and the Results list of the
    crawler, updated together in one critical section. A link is recorded
    and appended only the first time it is seen. */
module VisitedRegistry {

  predicate NoDuplicates(s: seq<string>) {
    forall i, j :: 0 <= i < j < |s| ==> s[i] != s[j]
  }

  function Elements(s: seq<string>): set<string> {
    set x | x in s
  }

  /** Visited (the keys whose value is true) and Results. */
  datatype Registry = Registry(visited: set<string>, results: seq<string>)

  /** Results lists every visited URL exactly once. */
  predicate Consistent(r: Registry) {
    NoDuplicates(r.results) && Elements(r.results) == r.visited
  }

  const EMPTY: Registry := Registry({}, [])

  /** The critical section of fetchAndParse: mark the link visited and, when
      it was not visited before, append it to the results. */
  function Visit(r: Registry, link: string): (r': Registry)
    ensures r'.visited == r.visited + {link}
    ensures link !in r.visited ==> r'.results == r.results + [link]
    ensures link in r.visited ==> r' == r
    ensures Consistent(r) ==> Consistent(r')
  {
    if link in r.visited then r else Registry(r.visited + {link}, r.results + [link])
  }

  /** Visit every link in order. */
  function VisitAll(r: Registry, links: seq<string>): (r': Registry)
    ensures r'.visited == r.visited + Elements(links)
    ensures r.results <= r'.results
    ensures forall i :: |r.results| <= i < |r'.results| ==> r'.results[i] in links
    ensures Consistent(r) ==> Consistent(r')
    decreases |links|
  {
    if links == [] then r
    else Visit(VisitAll(r, links[..|links| - 1]), links[|links| - 1])
  }

  lemma {:induction false} VisitAllAppend(r: Registry, a: seq<string>, b: seq<string>)
    ensures VisitAll(r, a + b) == VisitAll(VisitAll(r, a), b)
    decreases |b|
  {
    if b == [] {
      assert a + b == a;
    } else {
      var b' := b[..|b| - 1];
      assert (a + b)[..|a + b| - 1] == a + b';
      VisitAllAppend(r, a, b');
    }
  }

  /** Links that are all visited already change nothing. */
  lemma {:induction false} VisitAllKnown(r: Registry, links: seq<string>)
    requires Elements(links) <= r.visited
    ensures VisitAll(r, links) == r
    decreases |links|
  {
    if links != [] {
      var init := links[..|links| - 1];
      assert Elements(init) <= Elements(links);
      VisitAllKnown(r, init);
      assert links[|links| - 1] in Elements(links);
    }
  }

  /** A new result is one that was not visited before. */
  lemma VisitAllFresh(r: Registry, links: seq<string>, i: int)
    requires Consistent(r)
    requires |r.results| <= i < |VisitAll(r, links).results|
    ensures VisitAll(r, links).results[i] !in r.visited
  {
    var r' := VisitAll(r, links);
    var x := r'.results[i];
    forall j | 0 <= j < |r.results|
      ensures r.results[j] != x
    {
      assert r'.results[j] == r.results[j];
    }
    assert x !in Elements(r.results);
  }

  /** A consistent registry has as many results as visited URLs. */
  lemma {:induction false} ConsistentSize(r: Registry)
    requires Consistent(r)
    ensures |r.results| == |r.visited|
    decreases |r.results|
  {
    if r.results != [] {
      var init := r.results[..|r.results| - 1];
      var last := r.results[|r.results| - 1];
      assert r.results == init + [last];
      var r0 := Registry(Elements(init), init);
      assert Elements(r.results) == Elements(init) + {last};
      assert last !in Elements(init);
      ConsistentSize(r0);
    }
  }
}
