/** The crawl engine of blackscout.go, run sequentially: the goroutine per
    discovered URL becomes a worklist entry, each mutex-guarded region one
    atomic step, and the HTTP round trip an oracle `fetch`. */
module Crawl {
  import opened Urls
  import opened Scope
  import opened Tokens
  import opened VisitedRegistry

  /** What one GET yields: a network error, or a status code and the body's tokens. */
  datatype Response = NetworkError | HttpResponse(statusCode: int, body: seq<Token>)

  /** The raw links fetchAndParse reads from a response: none for a network
      error or a status of 300 or more, else those of the body. */
  function PageLinks(response: Response): (raws: seq<string>)
    ensures response.NetworkError? || response.statusCode >= 300 ==> raws == []
  {
    if response.NetworkError? || response.statusCode >= 300 then []
    else ExtractLinks(response.body)
  }

  /** The in-scope links a response offers to the registry, in order. */
  function Found(normalize: string -> string, response: Response): seq<string> {
    KeepAll(normalize, PageLinks(response))
  }

  /** The link graph the crawl explores: each URL's in-scope page links. */
  function Graph(normalize: string -> string, fetch: string -> Response): string -> seq<string> {
    u => Found(normalize, fetch(u))
  }

  /** A page that loads with a status below 300 offers every href, src or
      action value of a start tag before the first error token that the
      normalizer keeps. */
  lemma FoundComplete(normalize: string -> string, response: Response, i: int, a: Attribute)
    requires response.HttpResponse? && response.statusCode < 300
    requires 0 <= i < FirstError(response.body) && response.body[i].kind == StartTagToken
    requires a in response.body[i].attrs && IsLinkKey(a.key)
    requires normalize(a.val) != ""
    ensures normalize(a.val) in Found(normalize, response)
  {
    ExtractLinksComplete(response.body, i, a);
    KeepAllComplete(normalize, PageLinks(response), a.val);
  }

  /** With a normalizer that keeps to a host, every node of the link graph
      lies on that host. */
  lemma GraphInScope(normalize: string -> string, host: string, fetch: string -> Response)
    requires ScopedTo(normalize, host)
    ensures forall u, l :: l in Graph(normalize, fetch)(u) ==> HostOf(l) == host
  {
    forall u, l | l in Graph(normalize, fetch)(u)
      ensures HostOf(l) == host
    {
      assert Graph(normalize, fetch)(u) == KeepAll(normalize, PageLinks(fetch(u)));
    }
  }

  /** A set of URLs that holds every link of each of its members: a finite
      part of the link graph closed under following links. */
  ghost predicate Closed(graph: string -> seq<string>, universe: set<string>) {
    forall u, l :: u in universe && l in graph(u) ==> l in universe
  }

  lemma {:induction false} SubsetSize(a: set<string>, b: set<string>)
    requires a <= b
    ensures |a| <= |b|
    decreases |a|
  {
    if a != {} {
      var x :| x in a;
      SubsetSize(a - {x}, b - {x});
    }
  }

  /** Visiting links that a host-bound normalizer kept leaves every visited
      URL on that host. */
  lemma FetchInScope(r: Registry, normalize: string -> string, host: string, links: seq<string>)
    requires ScopedTo(normalize, host)
    requires forall u :: u in r.visited ==> HostOf(u) == host
    requires forall l :: l in links ==> l != "" && exists raw :: normalize(raw) == l
    ensures forall u :: u in VisitAll(r, links).visited ==> HostOf(u) == host
  {
    forall u | u in VisitAll(r, links).visited
      ensures HostOf(u) == host
    {
      if u !in r.visited {
        assert u in links;
        var raw :| normalize(raw) == u;
      }
    }
  }

  /** The registry right after Start has recorded the seed. */
  function Seeded(seed: string): (r: Registry)
    ensures Consistent(r) && r.results == [seed]
  {
    Registry({seed}, [seed])
  }

  /** A result is still to be fetched, so the universe is not exhausted. */
  lemma Progress(universe: set<string>, reg: Registry, k: nat)
    requires Consistent(reg) && reg.visited <= universe && k < |reg.results|
    ensures k < |universe| && reg.results[k] in universe
  {
    ConsistentSize(reg);
    SubsetSize(reg.visited, universe);
    assert reg.results[k] in Elements(reg.results);
  }

  /** One step of the crawl keeps the registry inside the universe. */
  lemma StepInUniverse(graph: string -> seq<string>, universe: set<string>, reg: Registry, k: nat)
    requires Closed(graph, universe)
    requires Consistent(reg) && reg.visited <= universe && k < |reg.results|
    ensures VisitAll(reg, graph(reg.results[k])).visited <= universe
  {
    Progress(universe, reg, k);
    var u := reg.results[k];
    forall l | l in Elements(graph(u))
      ensures l in universe
    {
    }
  }

  /** The sequential crawl: results[..k] have been fetched; fetch results[k],
      visit what its page links to, and go on until every result is fetched. */
  ghost function CrawlFrom(graph: string -> seq<string>, universe: set<string>, reg: Registry, k: nat): (final: Registry)
    requires Closed(graph, universe)
    requires Consistent(reg) && reg.visited <= universe && k <= |reg.results|
    ensures Consistent(final) && final.visited <= universe
    ensures reg.results <= final.results
    decreases |universe| - k
  {
    if k == |reg.results| then reg
    else
      Progress(universe, reg, k);
      StepInUniverse(graph, universe, reg, k);
      CrawlFrom(graph, universe, VisitAll(reg, graph(reg.results[k])), k + 1)
  }

  /** One step of the crawl: fetching the next unfetched result visits its
      links, stays inside the universe and brings the universe closer to
      exhaustion. */
  lemma CrawlStep(graph: string -> seq<string>, universe: set<string>, reg: Registry, k: nat)
    requires Closed(graph, universe)
    requires Consistent(reg) && reg.visited <= universe && k < |reg.results|
    ensures k < |universe|
    ensures VisitAll(reg, graph(reg.results[k])).visited <= universe
    ensures CrawlFrom(graph, universe, reg, k)
            == CrawlFrom(graph, universe, VisitAll(reg, graph(reg.results[k])), k + 1)
  {
    Progress(universe, reg, k);
    StepInUniverse(graph, universe, reg, k);
  }

  /** The outcome of a crawl from the seed. */
  ghost function Crawl(graph: string -> seq<string>, seed: string, universe: set<string>): Registry
    requires Closed(graph, universe) && seed in universe
  {
    CrawlFrom(graph, universe, Seeded(seed), 0)
  }

  /** The links of the first k results are all visited. */
  ghost predicate LinksVisited(graph: string -> seq<string>, reg: Registry, k: nat)
    requires k <= |reg.results|
  {
    forall j, l :: 0 <= j < k && l in graph(reg.results[j]) ==> l in reg.visited
  }

  /** Fetching result k visits its links, so the links of the first k + 1
      results are then all visited. */
  lemma FetchedLinksVisited(graph: string -> seq<string>, reg: Registry, k: nat)
    requires k < |reg.results|
    requires LinksVisited(graph, reg, k)
    ensures LinksVisited(graph, VisitAll(reg, graph(reg.results[k])), k + 1)
  {
    var links := graph(reg.results[k]);
    var next := VisitAll(reg, links);
    forall j, l | 0 <= j < k + 1 && l in graph(next.results[j])
      ensures l in next.visited
    {
      assert next.results[j] == reg.results[j];
      if j == k {
        assert l in Elements(links);
      }
    }
  }

  /** Every link of every fetched page ends up visited. */
  lemma {:induction false} CrawlFromComplete(graph: string -> seq<string>, universe: set<string>, reg: Registry, k: nat)
    requires Closed(graph, universe)
    requires Consistent(reg) && reg.visited <= universe && k <= |reg.results|
    requires LinksVisited(graph, reg, k)
    ensures var f := CrawlFrom(graph, universe, reg, k);
            LinksVisited(graph, f, |f.results|)
    decreases |universe| - k
  {
    if k < |reg.results| {
      CrawlStep(graph, universe, reg, k);
      var next := VisitAll(reg, graph(reg.results[k]));
      FetchedLinksVisited(graph, reg, k);
      CrawlFromComplete(graph, universe, next, k + 1);
      var f := CrawlFrom(graph, universe, next, k + 1);
      assert CrawlFrom(graph, universe, reg, k) == f;
    } else {
      assert CrawlFrom(graph, universe, reg, k) == reg;
    }
  }

  /** Every result but the first was found on the page of an earlier result. */
  ghost predicate DiscoveredInOrder(graph: string -> seq<string>, results: seq<string>) {
    forall i :: 0 < i < |results| ==> exists j :: 0 <= j < i && results[i] in graph(results[j])
  }

  lemma {:induction false} CrawlFromSound(graph: string -> seq<string>, universe: set<string>, reg: Registry, k: nat)
    requires Closed(graph, universe)
    requires Consistent(reg) && reg.visited <= universe && k <= |reg.results|
    requires DiscoveredInOrder(graph, reg.results)
    ensures DiscoveredInOrder(graph, CrawlFrom(graph, universe, reg, k).results)
    decreases |universe| - k
  {
    if k < |reg.results| {
      CrawlStep(graph, universe, reg, k);
      var links := graph(reg.results[k]);
      var next := VisitAll(reg, links);
      forall i | 0 < i < |next.results|
        ensures exists j :: 0 <= j < i && next.results[i] in graph(next.results[j])
      {
        if i < |reg.results| {
          var j :| 0 <= j < i && reg.results[i] in graph(reg.results[j]);
          assert next.results[j] == reg.results[j];
        } else {
          assert next.results[k] == reg.results[k];
          assert next.results[i] in graph(next.results[k]);
        }
      }
      CrawlFromSound(graph, universe, next, k + 1);
      var f := CrawlFrom(graph, universe, next, k + 1);
      assert CrawlFrom(graph, universe, reg, k) == f;
    }
  }

  /** A crawl whose graph only leads to the host, from a registry on the
      host, visits only URLs on the host. */
  lemma {:induction false} CrawlFromOnHost(graph: string -> seq<string>, universe: set<string>, reg: Registry, k: nat,
                                          host: string)
    requires Closed(graph, universe)
    requires Consistent(reg) && reg.visited <= universe && k <= |reg.results|
    requires forall u :: u in reg.visited ==> HostOf(u) == host
    requires forall u, l :: l in graph(u) ==> HostOf(l) == host
    ensures forall u :: u in CrawlFrom(graph, universe, reg, k).visited ==> HostOf(u) == host
    decreases |universe| - k
  {
    if k < |reg.results| {
      Progress(universe, reg, k);
      StepInUniverse(graph, universe, reg, k);
      var next := VisitAll(reg, graph(reg.results[k]));
      assert CrawlFrom(graph, universe, reg, k) == CrawlFrom(graph, universe, next, k + 1);
      CrawlFromOnHost(graph, universe, next, k + 1, host);
    }
  }

  /** Every link of every page the crawl fetched is among its results. */
  lemma CrawlComplete(graph: string -> seq<string>, seed: string, universe: set<string>)
    requires Closed(graph, universe) && seed in universe
    ensures var f := Crawl(graph, seed, universe);
            forall u, l :: u in f.visited && l in graph(u) ==> l in f.visited
  {
    var f := Crawl(graph, seed, universe);
    assert f == CrawlFrom(graph, universe, Seeded(seed), 0);
    CrawlFromComplete(graph, universe, Seeded(seed), 0);
    forall u, l | u in f.visited && l in graph(u)
      ensures l in f.visited
    {
      assert u in Elements(f.results);
      var j :| 0 <= j < |f.results| && f.results[j] == u;
      assert l in graph(f.results[j]);
    }
  }

  /** Every in-scope href, src or action value on a page the crawl fetched
      and loaded is itself visited. */
  lemma CrawlFindsEveryLink(normalize: string -> string, fetch: string -> Response, seed: string,
                            universe: set<string>, u: string, i: int, a: Attribute)
    requires Closed(Graph(normalize, fetch), universe) && seed in universe
    requires u in Crawl(Graph(normalize, fetch), seed, universe).visited
    requires fetch(u).HttpResponse? && fetch(u).statusCode < 300
    requires 0 <= i < FirstError(fetch(u).body) && fetch(u).body[i].kind == StartTagToken
    requires a in fetch(u).body[i].attrs && IsLinkKey(a.key)
    requires normalize(a.val) != ""
    ensures normalize(a.val) in Crawl(Graph(normalize, fetch), seed, universe).visited
  {
    FoundComplete(normalize, fetch(u), i, a);
    assert normalize(a.val) in Graph(normalize, fetch)(u);
    CrawlComplete(Graph(normalize, fetch), seed, universe);
  }

  /** The crawl's results start with the seed and every other result was
      found on the page of an earlier one: nothing unreachable is listed. */
  lemma CrawlSound(graph: string -> seq<string>, seed: string, universe: set<string>)
    requires Closed(graph, universe) && seed in universe
    ensures var f := Crawl(graph, seed, universe);
            |f.results| > 0 && f.results[0] == seed && DiscoveredInOrder(graph, f.results)
  {
    CrawlFromSound(graph, universe, Seeded(seed), 0);
  }

  /** Every URL a crawl visits is on the seed's host when the normalizer
      keeps to that host. */
  lemma CrawlInScope(normalize: string -> string, fetch: string -> Response, seed: string,
                     universe: set<string>)
    requires Closed(Graph(normalize, fetch), universe) && seed in universe
    requires ScopedTo(normalize, HostOf(seed))
    ensures forall u :: u in Crawl(Graph(normalize, fetch), seed, universe).visited ==> HostOf(u) == HostOf(seed)
  {
    GraphInScope(normalize, HostOf(seed), fetch);
    CrawlFromOnHost(Graph(normalize, fetch), universe, Seeded(seed), 0, HostOf(seed));
  }

  /** A seed page whose links all lead back to the seed ends the crawl with
      the seed alone. */
  lemma SelfLinkingSeed(graph: string -> seq<string>, seed: string, universe: set<string>)
    requires Closed(graph, universe) && seed in universe
    requires Elements(graph(seed)) <= {seed}
    ensures Crawl(graph, seed, universe).results == [seed]
  {
    var s := Seeded(seed);
    VisitAllKnown(s, graph(seed));
    assert CrawlFrom(graph, universe, s, 0) == CrawlFrom(graph, universe, s, 1);
  }

  /** The registry after the attribute loop has handled one attribute: a
      link attribute whose value the normalizer keeps is visited. */
  function AbsorbAttribute(r: Registry, normalize: string -> string, attr: Attribute): Registry {
    if IsLinkKey(attr.key) && normalize(attr.val) != "" then Visit(r, normalize(attr.val)) else r
  }

  /** The registry after the attribute loop over a start tag's attributes. */
  function AbsorbAttributes(r: Registry, normalize: string -> string, attrs: seq<Attribute>): Registry
    decreases |attrs|
  {
    if attrs == [] then r
    else AbsorbAttribute(AbsorbAttributes(r, normalize, attrs[..|attrs| - 1]), normalize, attrs[|attrs| - 1])
  }

  /** The registry after the token loop over a run of tokens. */
  function AbsorbTokens(r: Registry, normalize: string -> string, ts: seq<Token>): Registry
    decreases |ts|
  {
    if ts == [] then r
    else
      var prev := AbsorbTokens(r, normalize, ts[..|ts| - 1]);
      var t := ts[|ts| - 1];
      if t.kind == StartTagToken then AbsorbAttributes(prev, normalize, t.attrs) else prev
  }

  /** The attribute loop visits, in order, the kept values of the link
      attributes. */
  lemma {:induction false} AbsorbAttributesVisits(r: Registry, normalize: string -> string, attrs: seq<Attribute>)
    ensures AbsorbAttributes(r, normalize, attrs) == VisitAll(r, KeepAll(normalize, LinkValues(attrs)))
    decreases |attrs|
  {
    if attrs != [] {
      var init := attrs[..|attrs| - 1];
      var last := attrs[|attrs| - 1];
      AbsorbAttributesVisits(r, normalize, init);
      assert attrs == init + [last];
      LinkValuesAppend(init, [last]);
      KeepAllAppend(normalize, LinkValues(init), LinkValues([last]));
      VisitAllAppend(r, KeepAll(normalize, LinkValues(init)), KeepAll(normalize, LinkValues([last])));
      var cur := VisitAll(r, KeepAll(normalize, LinkValues(init)));
      assert [last][..0] == [];
      if IsLinkKey(last.key) {
        assert [last.val][..0] == [];
        var n := normalize(last.val);
        if n != "" {
          assert [n][..0] == [];
        }
      }
    }
  }

  /** The token loop visits, in order, the kept link values of the start tags. */
  lemma {:induction false} AbsorbTokensVisits(r: Registry, normalize: string -> string, ts: seq<Token>)
    ensures AbsorbTokens(r, normalize, ts) == VisitAll(r, KeepAll(normalize, TagLinks(ts)))
    decreases |ts|
  {
    if ts != [] {
      var init := ts[..|ts| - 1];
      var t := ts[|ts| - 1];
      AbsorbTokensVisits(r, normalize, init);
      var prev := AbsorbTokens(r, normalize, init);
      KeepAllAppend(normalize, TagLinks(init), TokenLinks(t));
      VisitAllAppend(r, KeepAll(normalize, TagLinks(init)), KeepAll(normalize, TokenLinks(t)));
      if t.kind == StartTagToken {
        AbsorbAttributesVisits(prev, normalize, t.attrs);
      } else {
        assert KeepAll(normalize, TagLinks(init)) + KeepAll(normalize, []) == KeepAll(normalize, TagLinks(init));
      }
    }
  }

  /** Taking the head of the worklist into the log and queueing what its
      fetch added keeps log and worklist together equal to the results. */
  lemma WorklistStep(log: seq<string>, pending: seq<string>, spawned: seq<string>)
    requires pending != []
    ensures (log + [pending[0]]) + (pending[1..] + spawned) == (log + pending) + spawned
  {
    assert pending == [pending[0]] + pending[1..];
  }

  /** The process-wide request tally (totalRequests behind requestsMutex). */
  class RequestCounter {
    var total: int

    constructor ()
      ensures total == 0
    {
      total := 0;
    }

    /** incrementRequests */
    method Increment()
      modifies this
      ensures total == old(total) + 1
    {
      total := total + 1;
    }

    /** getTotalRequests */
    method Get() returns (n: int)
      ensures n == total
    {
      n := total;
    }
  }

  class Crawler {
    const parse: string -> Option<ParsedUrl>
    const baseUrl: ParsedUrl
    /** Crawler.normalize, bound to this crawler's base URL. */
    const normalize: string -> string
    const threads: int
    const delayMs: int
    var visited: set<string>
    var results: seq<string>
    /** The targets fetchAndParse has been run on, in order. */
    ghost var fetchLog: seq<string>

    constructor (parse: string -> Option<ParsedUrl>, baseUrl: ParsedUrl, threads: int, delayMs: int)
      ensures this.parse == parse && this.baseUrl == baseUrl
      ensures normalize == Normalizer(parse, baseUrl)
      ensures this.threads == threads && this.delayMs == delayMs
      ensures visited == {} && results == [] && fetchLog == []
    {
      this.parse := parse;
      this.baseUrl := baseUrl;
      normalize := Normalizer(parse, baseUrl);
      this.threads := threads;
      this.delayMs := delayMs;
      visited := {};
      results := [];
      fetchLog := [];
    }

    function State(): Registry
      reads this
    {
      Registry(visited, results)
    }

    /** Results lists every visited URL exactly once. */
    ghost predicate Valid()
      reads this
    {
      Consistent(State())
    }

    /** The normalizer keeps to the base host, and so does every visited URL. */
    ghost predicate InScope()
      reads this
    {
      ScopedTo(normalize, baseUrl.host) && forall u :: u in visited ==> HostOf(u) == baseUrl.host
    }

    /** The critical section of fetchAndParse: returns whether the link was
        new, in which case it was appended to the results. */
    method TryVisit(link: string) returns (added: bool)
      modifies this`visited, this`results
      ensures added == (link !in old(visited))
      ensures visited == old(visited) + {link}
      ensures results == if added then old(results) + [link] else old(results)
      ensures State() == Visit(old(State()), link)
    {
      added := link !in visited;
      if added {
        visited := visited + {link};
        results := results + [link];
      }
    }

    /** One attribute of a start tag: an href, src or action value that
        normalizes to an in-scope URL is visited; returns that URL when it
        was new, in which case it was appended to the results. */
    method VisitAttribute(attr: Attribute) returns (added: seq<string>)
      modifies this`visited, this`results
      ensures State() == AbsorbAttribute(old(State()), normalize, attr)
      ensures results == old(results) + added
    {
      added := [];
      if attr.key == "href" || attr.key == "src" || attr.key == "action" {
        var link := normalize(attr.val);
        if link != "" {
          var isNew := TryVisit(link);
          if isNew {
            added := [link];
          }
        }
      }
    }

    /** The attribute loop of fetchAndParse for one start tag: visit the
        in-scope value of every href, src and action attribute; return the
        links it appended to the results. */
    method VisitLinks(attrs: seq<Attribute>) returns (added: seq<string>)
      modifies this`visited, this`results
      ensures State() == AbsorbAttributes(old(State()), normalize, attrs)
      ensures results == old(results) + added
    {
      added := [];
      ghost var start := State();
      var j := 0;
      while j < |attrs|
        invariant 0 <= j <= |attrs|
        invariant State() == AbsorbAttributes(start, normalize, attrs[..j])
        invariant results == start.results + added
      {
        assert attrs[..j + 1][..j] == attrs[..j];
        var more := VisitAttribute(attrs[j]);
        assert results == start.results + (added + more);
        added := added + more;
        j := j + 1;
      }
      assert attrs[..j] == attrs;
    }

    /** fetchAndParse: count the request, fetch the target and visit every
        in-scope link of a successful response; return the links whose
        fetch it spawns, which are the ones it appended to the results. */
    method FetchAndParse(target: string, fetch: string -> Response, counter: RequestCounter)
      returns (spawned: seq<string>)
      requires Valid()
      requires delayMs > 0
      modifies this`visited, this`results, this`fetchLog, counter
      ensures Valid()
      ensures counter.total == old(counter.total) + 1
      ensures fetchLog == old(fetchLog) + [target]
      ensures State() == VisitAll(old(State()), Found(normalize, fetch(target)))
      ensures results == old(results) + spawned
      ensures fetch(target).NetworkError? || fetch(target).statusCode >= 300 ==>
                visited == old(visited) && results == old(results)
    {
      fetchLog := fetchLog + [target];
      counter.Increment();
      spawned := [];
      var response := fetch(target);
      if response.NetworkError? {
        return;
      }
      if response.statusCode >= 300 {
        return;
      }
      ghost var start := State();
      spawned := VisitTokens(response.body);
      AbsorbTokensVisits(start, normalize, response.body[..FirstError(response.body)]);
    }

    /** The token loop of fetchAndParse: read tokens up to the first error
        token and run the attribute loop on every start tag. */
    method VisitTokens(tokens: seq<Token>) returns (spawned: seq<string>)
      modifies this`visited, this`results
      ensures State() == AbsorbTokens(old(State()), normalize, tokens[..FirstError(tokens)])
      ensures results == old(results) + spawned
    {
      spawned := [];
      var i := 0;
      while i < |tokens| && tokens[i].kind != ErrorToken
        invariant 0 <= i <= |tokens|
        invariant forall k :: 0 <= k < i ==> tokens[k].kind != ErrorToken
        invariant State() == AbsorbTokens(old(State()), normalize, tokens[..i])
        invariant results == old(results) + spawned
        decreases |tokens| - i
      {
        var token := tokens[i];
        assert tokens[..i + 1][..i] == tokens[..i];
        if token.kind == StartTagToken {
          var added := VisitLinks(token.attrs);
          assert results == old(results) + (spawned + added);
          spawned := spawned + added;
        }
        i := i + 1;
      }
      FirstErrorUnique(tokens, i);
    }

    /** One round of Start's worklist: fetch the head and queue the links
        the fetch added. The rest of the crawl is the same as before. */
    method Advance(pending: seq<string>, fetch: string -> Response, counter: RequestCounter,
                   ghost universe: set<string>) returns (rest: seq<string>)
      requires pending != [] && delayMs > 0
      requires Valid() && visited <= universe && Closed(Graph(normalize, fetch), universe)
      requires fetchLog + pending == results
      modifies this`visited, this`results, this`fetchLog, counter
      ensures Valid() && visited <= universe
      ensures fetchLog == old(fetchLog) + [pending[0]] && |fetchLog| <= |universe|
      ensures fetchLog + rest == results
      ensures old(results) <= results
      ensures counter.total == old(counter.total) + 1
      ensures CrawlFrom(Graph(normalize, fetch), universe, State(), |fetchLog|)
              == old(CrawlFrom(Graph(normalize, fetch), universe, State(), |fetchLog|))
    {
      ghost var graph := Graph(normalize, fetch);
      assert pending[0] == results[|fetchLog|];
      CrawlStep(graph, universe, State(), |fetchLog|);
      var target := pending[0];
      assert graph(target) == Found(normalize, fetch(target));
      ghost var log := fetchLog;
      var spawned := FetchAndParse(target, fetch, counter);
      WorklistStep(log, pending, spawned);
      rest := pending[1..] + spawned;
    }

    /** The wait of Start: run fetches, head of the worklist first, until
        none is outstanding. The registry ends where the crawl specification
        from the current state ends, and every result has been fetched. */
    method Drain(pending: seq<string>, fetch: string -> Response, counter: RequestCounter,
                 ghost universe: set<string>)
      requires delayMs > 0
      requires Valid() && visited <= universe && Closed(Graph(normalize, fetch), universe)
      requires fetchLog + pending == results && |fetchLog| <= |universe|
      modifies this`visited, this`results, this`fetchLog, counter
      ensures Valid() && visited <= universe
      ensures fetchLog == results && old(results) <= results
      ensures counter.total == old(counter.total) + |fetchLog| - |old(fetchLog)|
      ensures State() == old(CrawlFrom(Graph(normalize, fetch), universe, State(), |fetchLog|))
    {
      ghost var graph := Graph(normalize, fetch);
      var rest := pending;
      while rest != []
        invariant Valid() && visited <= universe
        invariant fetchLog + rest == results && old(results) <= results
        invariant counter.total == old(counter.total) + |fetchLog| - |old(fetchLog)|
        invariant |fetchLog| <= |universe|
        invariant CrawlFrom(graph, universe, State(), |fetchLog|)
                  == old(CrawlFrom(Graph(normalize, fetch), universe, State(), |fetchLog|))
        decreases |universe| - |fetchLog|
      {
        rest := Advance(rest, fetch, counter, universe);
      }
      assert fetchLog == results;
      assert CrawlFrom(graph, universe, State(), |fetchLog|) == State();
    }

    /** Start on a fresh crawler: record the seed, then fetch every result in
        turn until no fetch adds one. With a finite link graph this ends, and
        each result has been fetched exactly once. */
    method Start(fetch: string -> Response, counter: RequestCounter, ghost universe: set<string>)
      returns (r: seq<string>)
      requires visited == {} && results == [] && fetchLog == []
      requires normalize == Normalizer(parse, baseUrl)
      requires threads > 0 && delayMs > 0
      requires Closed(Graph(normalize, fetch), universe) && Format(baseUrl) in universe
      modifies this`visited, this`results, this`fetchLog, counter
      ensures r == results
      ensures State() == Crawl(Graph(normalize, fetch), Format(baseUrl), universe)
      ensures Valid() && InScope()
      ensures |r| > 0 && r[0] == Format(baseUrl)
      ensures fetchLog == results
      ensures counter.total == old(counter.total) + |results|
    {
      var seed := Format(baseUrl);
      visited := visited + {seed};
      results := results + [seed];
      HostOfFormat(baseUrl);
      assert State() == Seeded(seed);
      Drain([seed], fetch, counter, universe);
      r := results;
      CrawlInScope(normalize, fetch, seed, universe);
    }
  }

  /** NewCrawler: a crawler on the parsed target, or none when it does not
      parse. The thread limit is the capacity of the ThreadLimit channel:
      a negative capacity panics here, and a capacity of 0 lets no fetch
      ever take a slot, so Start asks for a positive limit. */
  method NewCrawler(parse: string -> Option<ParsedUrl>, target: string, threads: int, delay: int)
    returns (c: Option<Crawler>)
    requires threads >= 0
    ensures c.None? <==> parse(target).None?
    ensures c.Some? ==> fresh(c.value) && c.value.parse == parse && c.value.baseUrl == parse(target).value
    ensures c.Some? ==> c.value.normalize == Normalizer(parse, c.value.baseUrl)
    ensures c.Some? ==> c.value.threads == threads && c.value.delayMs == delay
    ensures c.Some? ==> c.value.visited == {} && c.value.results == [] && c.value.fetchLog == []
  {
    match parse(target)
    case None =>
      c := None;
    case Some(base) =>
      var crawler := new Crawler(parse, base, threads, delay);
      c := Some(crawler);
  }
}
