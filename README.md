# BlackScout crawl engine in Dafny

BlackScout is a same-host web crawler. Given a target URL it records the
target, fetches it and reads every start tag of the returned HTML. It looks
at the `href`, `src` and `action` attributes of each tag. Each value is
normalized against the base URL: it is parsed, resolved when relative, and
kept only when it is on the base host. Each link seen for the first time is
recorded in the `Visited` map and appended to `Results`, and a new fetch is
started for it. The crawl ends when no fetch is outstanding. A global
counter tallies the requests. The results table prints each URL with a
1-based number, cutting URLs longer than 68 characters down to 65
characters plus `...`.

This project models that engine with the crawl run sequentially:

- `urls.dfy` (module `Urls`) covers the parts of Go's `net/url` that the
  crawler relies on:
  - a parsed URL and its string form (`URL.String`);
  - the host read back from a string, following appendix B of RFC 3986;
  - reference resolution (`URL.ResolveReference`, section 5.2 of RFC 3986).
- `scope.dfy` (module `Scope`) is `Crawler.normalize`, the scope filter.
- `tokens.dfy` (module `Tokens`) extracts the link attributes from the
  tokenizer's token stream.
- `registry.dfy` (module `VisitedRegistry`) is the `Visited`/`Results` pair.
  It is updated in the mutex-guarded region of `fetchAndParse`.
- `crawler.dfy` (module `Crawl`) holds the `Crawler` and request-counter
  classes. It also holds `NewCrawler`, `fetchAndParse` and `Start`, plus a
  specification of the whole crawl over a finite link graph.
- `display.dfy` (module `Display`) is the truncation loop of
  `displayResults`.

How the source's external parts are represented:

- `url.Parse` is a parameter `parse: string -> Option<ParsedUrl>`, where
  `None` stands for a parse error. `ParsedUrl` holds the parses the model
  admits: scheme and host without delimiters, a host-less path that does
  not start with `//`, and no colon in the first segment of a scheme-less,
  host-less path. Go's `url.Parse` can return more than this (see "Left out").
- The HTTP round trip is a parameter `fetch: string -> Response`. A response
  is a network error, or a status code and the body's token stream.
- The goroutine started for each new link becomes an entry in a worklist.
  `Start` drains that worklist in order.

## Model

| member | source | states |
|---|---|---|
| Urls.HostOfFormat | blackscout.go:113-123 | The host read back from a URL's string form is that URL's host. So the string that `normalize` returns is on the host it was compared against. |
| Urls.ResolveReference | blackscout.go:120-121 | Resolution keeps the reference's host when the reference is absolute or has a host. Otherwise it takes the base's host. The scheme is the reference's if it has one, else the base's. The result is again a well-formed URL. |
| Urls.ResolvePath | blackscout.go:120 | The merged path is empty or starts with `/`, and it is non-empty when the reference path is. |
| Urls.ResolvePathNoAuthority | blackscout.go:120 | A merged path looks like an authority (`//…`) only if the base path or the reference path did. |
| Scope.NormalizeUrl | blackscout.go:107-126 | A link that fails to parse yields nothing. A kept URL has the base host, and it is absolute when the base is. |
| Scope.Normalize | blackscout.go:107-126 | The result is `""` in three cases: the link fails to parse; it is absolute on another host; or it names any host other than the base host. Any non-empty result is on the base host. |
| Scope.NormalizeSameHost | blackscout.go:113-115 | An absolute link on the base host is returned in its own string form. |
| Scope.NormalizePathReference | blackscout.go:120-122 | A link with neither scheme nor host is always kept when the base has a host. It takes the base's scheme and lands on the base host. |
| Scope.NormalizeIdempotent | blackscout.go:107-126 | With an absolute base, normalizing a kept link a second time returns it unchanged. |
| Scope.Normalizer | blackscout.go:107-126 | The normalizer bound to a base URL yields only `""` or URLs on the base host. |
| Scope.KeepAll | blackscout.go:162-163 | Links that normalize to `""` are dropped, and no result is longer than its input. Every kept link is non-empty and is the normalized form of one of the raw links. |
| Scope.KeepAllComplete | blackscout.go:162-163 | Every raw link that `normalize` does not reject is kept, in its normalized form. |
| Scope.KeepAllAppend | blackscout.go:160-174 | Filtering two runs of links is filtering each run in turn. |
| Tokens.LinkValues | blackscout.go:160-161 | Every value collected from a tag comes from one of its `href`, `src` or `action` attributes. |
| Tokens.LinkValuesAppend | blackscout.go:160-161 | The attribute loop handles a tag's attributes one after another. |
| Tokens.FirstError | blackscout.go:152-156 | Tokenizing stops at the first error token: no error token comes before the position found. |
| Tokens.FirstErrorUnique | blackscout.go:152-156 | That first-error position is the only one with this property. |
| Tokens.TagLinksAppend | blackscout.go:152-176 | The token loop handles tokens one after another. |
| Tokens.LinkValuesComplete | blackscout.go:160-161 | Every `href`, `src` or `action` value of a tag is collected. |
| Tokens.TagLinksComplete | blackscout.go:152-176 | Every link attribute of a start tag in a run of tokens yields a link. |
| Tokens.ExtractLinksComplete | blackscout.go:152-176 | Every `href`, `src` or `action` value of a start tag before the first error token is extracted. |
| Tokens.ExtractLinksSound | blackscout.go:152-176 | Every extracted link is the value of an `href`, `src` or `action` attribute of a start tag before the first error token. |
| Tokens.TagLinksSound | blackscout.go:159-161 | Every link of a run of tokens comes from a link attribute of one of its start tags. |
| Tokens.ExtractStopsAtError | blackscout.go:153-155 | Nothing after the first error token contributes a link. |
| Tokens.IgnoresOtherTokens | blackscout.go:159 | A token that is neither a start tag nor an error contributes nothing. |
| Tokens.IgnoresOtherAttributes | blackscout.go:161 | An attribute other than `href`, `src` or `action` contributes nothing. |
| VisitedRegistry.Visit | blackscout.go:164-170 | The link is marked visited. It is appended to `Results` exactly when it was not visited before; otherwise nothing changes. Visiting keeps `Results` duplicate-free and equal, as a set, to the visited keys. |
| VisitedRegistry.VisitAll | blackscout.go:160-174 | After visiting a run of links, the visited set has grown by exactly those links. The old `Results` is a prefix of the new one, every new entry is one of the links, and consistency is kept. |
| VisitedRegistry.VisitAllAppend | blackscout.go:160-174 | Visiting two runs of links is visiting each in turn. |
| VisitedRegistry.VisitAllKnown | blackscout.go:165 | Links that are all visited already change nothing. |
| VisitedRegistry.VisitAllFresh | blackscout.go:165-167 | Every entry appended to `Results` was not visited before. |
| VisitedRegistry.ConsistentSize | blackscout.go:164-170 | In a consistent registry, `Results` has as many entries as there are visited URLs. |
| Crawl.PageLinks | blackscout.go:140-149 | A network error or a status of 300 or more yields no links. |
| Crawl.FoundComplete | blackscout.go:141-176 | On a page that loads with a status below 300, every `href`, `src` or `action` value of a start tag before the first error token that `normalize` keeps is among the page's links. |
| Crawl.GraphInScope | blackscout.go:162-163 | Under a normalizer that keeps to a host, every link a page offers is on that host. |
| Crawl.FetchInScope | blackscout.go:162-167 | Visiting links kept by such a normalizer leaves every visited URL on its host. |
| Crawl.Seeded | blackscout.go:181-184 | After the seed is recorded, `Results` is exactly `[seed]` and the registry is consistent. |
| Crawl.Progress | blackscout.go:165-169 | While a result is still unfetched, fewer URLs have been fetched than the finite universe holds. |
| Crawl.StepInUniverse | blackscout.go:162-169 | Fetching a URL of a closed universe visits only URLs of that universe. |
| Crawl.CrawlFrom | blackscout.go:179-189 | The sequential crawl keeps the registry consistent and inside the universe, and it only appends to `Results`. It terminates because the universe is finite. |
| Crawl.CrawlStep | blackscout.go:168-169 | Fetching the next unfetched result is one step of the crawl, and that step stays inside the universe. |
| Crawl.CrawlFromComplete | blackscout.go:160-170 | Once a page is fetched, every one of its links ends up visited. |
| Crawl.CrawlFromSound | blackscout.go:165-169 | Every result after the first was found on the page of an earlier result. |
| Crawl.CrawlFromOnHost | blackscout.go:162-167 | A crawl whose links all lie on one host only visits URLs on that host. |
| Crawl.CrawlComplete | blackscout.go:179-189 | When the crawl ends, the results are closed under following links: every link of every visited page is visited. |
| Crawl.CrawlFindsEveryLink | blackscout.go:141-189 | Every in-scope `href`, `src` or `action` value on a page the crawl fetched and loaded is itself visited. |
| Crawl.CrawlSound | blackscout.go:181-188 | The results start with the seed, and every other result was found on an earlier result's page. |
| Crawl.CrawlInScope | blackscout.go:179-189 | Every URL a crawl visits is on the seed's host. |
| Crawl.SelfLinkingSeed | blackscout.go:181-188 | A seed whose page links only back to itself leaves the results as the seed alone. |
| Crawl.AbsorbAttributesVisits | blackscout.go:160-174 | The attribute loop visits, in order, the kept values of a tag's link attributes. |
| Crawl.AbsorbTokensVisits | blackscout.go:152-176 | The token loop visits, in order, the kept link values of the start tags. |
| Crawl.RequestCounter.constructor | blackscout.go:33-34 | The request tally starts at zero. |
| Crawl.RequestCounter.Increment | blackscout.go:191-195 | `incrementRequests` raises the tally by one. |
| Crawl.RequestCounter.Get | blackscout.go:197-201 | `getTotalRequests` returns the tally. |
| Crawl.Crawler.constructor | blackscout.go:99-104 | A new crawler has its base URL, a normalizer bound to that base, and its thread limit and delay. `Visited` and `Results` start empty. |
| Crawl.Crawler.TryVisit | blackscout.go:164-170 | The guarded region reports whether the link was new. The link ends up visited, and it is appended to `Results` exactly when it was new. |
| Crawl.Crawler.VisitAttribute | blackscout.go:161-173 | One attribute visits its normalized value when it is a link attribute whose value is in scope. The method returns what it appended. |
| Crawl.Crawler.VisitLinks | blackscout.go:160-174 | The attribute loop of one start tag leaves the registry as the attribute-by-attribute specification says. It returns what it appended. |
| Crawl.Crawler.VisitTokens | blackscout.go:152-176 | The token loop reads tokens up to the first error token and leaves the registry as the token-by-token specification says. It returns what it appended. |
| Crawl.Crawler.FetchAndParse | blackscout.go:128-177 | `fetchAndParse` counts one request and leaves the registry as visiting all in-scope page links would. The links it appends are exactly the new fetches it starts. A network error or a status of 300 or more changes nothing. Consistency is kept. |
| Crawl.Crawler.Advance | blackscout.go:168-169 | One spawned fetch runs: the target is logged as fetched, and what it appended is queued. The crawl still to come is unchanged. |
| Crawl.Crawler.Drain | blackscout.go:185-187 | Waiting for every outstanding fetch ends with each result fetched exactly once. The request count grows by the number of fetches, and the registry is where the crawl specification from the starting state ends. |
| Crawl.Crawler.Start | blackscout.go:179-189 | For a positive thread limit and delay, `Start` returns `Results`, which is the specified crawl from the base URL's string form. The seed comes first. Every result is on the base host and is fetched exactly once, in order, so the request count grows by the number of results. The crawl terminates on a finite link graph. |
| Crawl.NewCrawler | blackscout.go:93-105 | There is no crawler exactly when the target fails to parse. Otherwise it is a fresh crawler on the parsed target, with empty `Visited` and `Results`. |
| Display.Shorten | blackscout.go:241-243 | A URL of at most 68 characters is shown unchanged. A longer one is shown as its first 65 characters followed by `...`, which makes exactly 68. |
| Display.ShortenFits | blackscout.go:241-243 | Every shown URL fits in 68 characters, and a URL is changed exactly when it is longer than 68. |
| Display.ShortenIdempotent | blackscout.go:241-243 | Shortening a shown URL again changes nothing. |
| Display.DisplayResults | blackscout.go:240-245 | There is one row per result, in order. Rows are numbered from 1, and each shows its URL shortened. |

## Left out

- Concurrency is not modelled: the goroutines, the `WaitGroup`, both mutexes and the `ThreadLimit` channel. The crawl runs as one sequential worklist, and each mutex-guarded region is one atomic step. The concurrent program may append `Results` in a different order. Its visited set is still the link-closure of the seed, which `Crawl.CrawlComplete` and `Crawl.CrawlSound` characterise.
- The HTTP request is an oracle `fetch`, so the client timeout and the `User-Agent` header are not modelled. The oracle is deterministic, which is enough because each URL is fetched once. Closing the response body is also omitted.
- The sleep before each request (a random jitter) is not modelled. Crawl.Crawler.FetchAndParse requires `delayMs > 0` because `rand.Intn` panics on 0, even though the configuration prompt accepts a delay of 0.
- The configuration prompts, the banner, the screen clearing, the error message printed on a network error, `showLiveProgress`, `exportResults`, `colorText` and `randomUserAgent` are terminal or file I/O, so they are left out.
- Crawl.Crawler.Start requires a crawler whose `Visited` and `Results` are still empty, as `main` leaves them. It also requires that its normalizer is the one `NewCrawler` builds.
- Crawl.Crawler.Start requires a positive thread limit. With a limit of 0, `make(chan struct{}, 0)` at blackscout.go:102 gives an unbuffered `ThreadLimit` channel. The first send at blackscout.go:130 then has no receiver, so the seed's fetch blocks and `wg.Wait()` at blackscout.go:187 never returns. The model promises nothing for that case. `getConfig` only accepts a limit above 0 (blackscout.go:71).
- Crawl.Crawler.Start takes the finite, link-closed set of reachable URLs as a ghost argument. The source has no such bound and simply runs until no fetch is outstanding.
- `ParsedUrl` excludes some results `url.Parse` does return: an empty host with a path that starts with `//`. Go skips authority parsing for a scheme-less reference that starts with `///`, so `///x` parses to host "" and path `///x`. A scheme followed by an empty authority, as in `http:////x`, parses to host "" and path `//x`. Urls.Format would print such a URL as a string whose first path segment reads back as a host, so Urls.HostOfFormat would not hold for it. So `parse` cannot return these URLs, and links written this way are not modelled. In the program, `///x` on base `https://example.com` becomes `https://example.com///x` and is kept.
- `url.Parse` is a parameter. What the model assumes of a successful parse is limited to the `ParsedUrl` conditions. User info, ports as separate fields, opaque URLs, `ForceQuery` and `RawPath` are not modelled.
- Urls.ResolvePath does not remove dot segments (`.` and `..`), though Go's `resolvePath` does. Dot segments never change the host, so the scope filter keeps and drops the same links. They do change the string `normalize` returns, and that string is the `Visited` key and the `Results` entry. So Scope.Normalize, Crawl.Crawler.FetchAndParse and Crawl.Crawler.Start treat dot-segment variants of one URL as different URLs. Each variant is recorded, appended to `Results` and fetched, while the program collapses them into one. For example, with base `https://example.com/` the link `./` normalizes here to `https://example.com/./`, a second result. In the program it is the seed URL and adds nothing. The properties proved (no duplicate strings, `Results` matching `Visited`, the host scope, one fetch per string, termination) hold for the strings the model produces.
- Scope.NormalizeIdempotent is conditional: it assumes that parsing the printed form of a kept URL gives back that URL. That is a round-trip property of `net/url` (`Parse(u.String())` recovers `u`), which the model does not prove because `parse` is a parameter.
- Urls.Format writes `//host` only when the host is non-empty. Go's `URL.String` also writes `//` after a scheme when the host is empty and the path is not, giving `scheme:///path`. For a link, such a URL never passes the host comparison with a non-empty base host. The seed is different, because `Start` records and fetches the base URL's string form without comparing hosts (blackscout.go:182-186). Take a target with a scheme and an empty authority, such as the typo `https:///example.com`. Go parses it to host "" and path `/example.com` and prints it unchanged. The model prints `https:/example.com`. So for such a target, Crawl.Crawler.Start's promise `r[0] == Format(baseUrl)` names a different string from the program's first result. Every other result of that crawl is spelled without the `//` in the same way. The proved properties hold for the strings the model produces.
- The tokenizer is abstracted to its token stream. Tags written as self-closing (`<img src=… />`) come out as `SelfClosingTagToken`, which the source does not inspect, so their links are ignored here too.
- Crawl.RequestCounter.Increment does not model overflow of Go's `int`, because a crawl cannot make 2^63 requests.
- Display.Shorten counts characters, whereas Go's `len` and slicing count UTF-8 bytes. The two agree on ASCII URLs. The `%-5d %-70s` padding and the table borders are printing only.
