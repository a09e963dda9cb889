# mzcrawler crawl engine, modelled in Dafny

mzcrawler crawls one website from a seed URL. It produces a sitemap that
maps each visited page to the distinct links found on it. This project
models the deterministic part of the engine in `http/webcrawler.go` and
proves properties of it. That part consists of:

- the URL normaliser (`normalizeURL`, `isReletivePath`);
- the registrable-domain rule (`domain`);
- the scope filter (`shouldFollow`);
- the href walk over the parsed HTML tree (inside `crawlURL`);
- the sitemap claim and commit (`newURLFound` and the end of `worker`);
- one sequential run of `worker` over one page;
- the field initialisation of `NewWebCrawler`.

Files and modules:

- `wrappers.dfy` (`Wrappers`): the `Option` type. It stands in for Go's `(value, error)` results.
- `strings.dfy` (`Strings`): the parts of Go's `strings` package the core uses.
  - `HasPrefix`, `HasSuffix` and `TrimSuffix`.
  - `TrimSpace`, with the white-space set of `unicode.IsSpace`.
  - `EqualFold`, as ASCII case folding.
  - `SplitAfter` and the `Join(_, "")` it is paired with (`Concat`).
- `urls.dfy` (`Urls`):
  - `Url` is the record of the fields of `url.URL` that the core reads or writes.
  - `Render` is `URL.String()` restricted to those fields. It includes the rule that a `/` is inserted before a path not starting with `/` when there is a host.
  - `Normalize` is `normalizeURL` and `Domain` is `domain`.
- `scope.dfy` (`Scope`): `ShouldFollow`, which takes the result of `url.Parse` as an `Option<Url>`.
- `html.dfy` (`Html`): the HTML tree and the pre-order href walk, as pure functions.
- `crawler.dfy` (`Crawler`):
  - The `WebCrawler` class. Its `sitemap` is a `map<string, seq<string>>` (the `mzcrawler.Sitemap` type), updated by `NewURLFound`, `Commit`, `Worker` and `Crawl`.
  - The worker's loop over the hrefs (`ScanLinks`) and the list-building loop (`LinkList`). Both are methods with loop invariants. `ScanLinks` is proved against the specification functions `Links` and `Spawns`. `LinkList` is proved against its input set.
  - `Config` holds the two steps a worker applies to each href.
    - In `WebCrawler.Settings()` these are `Normalize` against the crawler's seed, and then `ShouldFollow` on `parse` of the result.
    - So the worker lemmas (`LinksMembership`, `SpawnsMultiplicity`, …) do not depend on the strings involved.

`url.Parse` is a foreign function, so the crawler takes it as a parameter `parse: string -> Option<Url>`. `None` is a parse error.

The HTTP fetch and `html.Parse` are not modelled either:

- `Crawl` receives the seed page's parsed document as an `Option<Node>`. `None` is a fetch or parse error.
- `Worker` receives the page's hrefs as a finite sequence. In the source they arrive on a channel.

Behaviours of the code that a reader might not expect, all modelled as written:

- Relative hrefs are resolved against the crawler's seed URL (`c.url`), not against the page they were found on. `..` is pasted into the path literally: `../blog` becomes `https://monzo.com/../blog`.
- With subdomains enabled, the scope test is a plain, unanchored suffix test. `evilmonzo.com` is in scope for `monzo.com` (`Scope.UnanchoredSuffixFollowed`).
- A child worker is started for every in-scope href occurrence, repeats included. Starting a child is not guarded by the "new link" test (`Crawler.SpawnsMultiplicity`).
- The scope test is case-insensitive without subdomains and case-sensitive with them (`Scope.CaseSensitivityDiffers`).
- A page whose fetch fails gets no sitemap entry. The seed page's failure makes `Crawl` fail. The code has no "empty list on fetch failure" path.

## Model

| member | source | states |
|---|---|---|
| Strings.HasPrefix | http/webcrawler.go:178 | `strings.HasPrefix`, used at lines 178, 227 and 244; characterised by `Strings.HasPrefixIff` |
| Strings.HasSuffix | http/webcrawler.go:212 | `strings.HasSuffix`, used by `TrimSuffix` and the scope test; characterised by `Strings.HasSuffixIff` |
| Strings.HasPrefixIff | http/webcrawler.go:227 | `strings.HasPrefix(s, p)` holds exactly when `s` is `p` followed by something |
| Strings.HasSuffixIff | http/webcrawler.go:212 | `strings.HasSuffix(s, x)` holds exactly when `s` is something followed by `x` |
| Strings.TrimSuffix | http/webcrawler.go:216 | removes one copy of the suffix when present (result + suffix is the input), otherwise returns the input unchanged |
| Strings.TrimSpace | http/webcrawler.go:177 | `strings.TrimSpace` over the `unicode.IsSpace` set; its result is pinned down by `Strings.TrimSpaceSpec` |
| Strings.TrimLeftSpec | http/webcrawler.go:177 | trimming the left keeps a suffix of the input, everything removed is white space, and the result starts with a non-space |
| Strings.TrimRightSpec | http/webcrawler.go:177 | trimming the right keeps a prefix of the input, everything removed is white space, and the result ends with a non-space |
| Strings.TrimSpaceSpec | http/webcrawler.go:177 | `strings.TrimSpace` returns a slice of the input with only white space around it, and the slice neither starts nor ends with white space |
| Strings.EqualFold | http/webcrawler.go:209 | `strings.EqualFold` with ASCII folding; characterised by `Strings.EqualFoldIff` |
| Strings.EqualFoldIff | http/webcrawler.go:209 | `strings.EqualFold` holds exactly when the lengths agree and the characters agree position by position after case folding |
| Strings.CountAppend | http/webcrawler.go:248 | separator counts add up over concatenation |
| Strings.CountZero | http/webcrawler.go:248 | the separator count is zero exactly when the separator does not occur |
| Strings.Concat | http/webcrawler.go:253 | `strings.Join(parts, "")`; it undoes `SplitAfter` (`Strings.SplitAfter`) and distributes over `+` (`Strings.ConcatAppend`) |
| Strings.ConcatAppend | http/webcrawler.go:253 | joining with "" distributes over concatenating lists of pieces |
| Strings.SplitAfter | http/webcrawler.go:248 | `strings.SplitAfter` returns one more piece than there are separators, and joining the pieces with "" gives back the input |
| Strings.SplitAfterPieces | http/webcrawler.go:248 | every piece but the last ends with the separator and has no other; the last piece has none |
| Strings.SplitAfterWhole | http/webcrawler.go:248 | a string without the separator splits into itself alone |
| Strings.SplitAfterFirst | http/webcrawler.go:248 | splitting `w.rest`, where `w` has no separator, gives `w.` followed by the split of `rest` |
| Urls.Render | http/webcrawler.go:224 | `URL.String()` on the fields kept in `Url`, as called at lines 224 and 237; its absolute-URL form is stated by `Urls.RenderAbsolute` |
| Urls.RenderAbsolute | http/webcrawler.go:219-224 | a URL with scheme and host and no query or fragment renders as `scheme://host` plus the path, with a `/` inserted before a path that lacks one |
| Urls.IsRelativePath | http/webcrawler.go:243-245 | `isReletivePath`: a `/` or `..` prefix; used by `Normalize` and stated in `Urls.NormalizeRules` |
| Urls.Normalize | http/webcrawler.go:215-241 | `normalizeURL` against the seed; its rules, seed independence and fixed points are stated by `Urls.NormalizeRules`, `Urls.NormalizeUsesSchemeAndHost`, `Urls.NormalizeStable` and `Urls.NormalizeKeepsAbsolute` |
| Urls.NormalizeRules | http/webcrawler.go:215-245 | after removing one trailing `/`: empty gives `scheme://host`; `//x` gives `scheme:` + `//x`; `/p` gives `scheme://host/p`; `..p` gives `scheme://host/..p`; anything else comes back as trimmed; query and fragment of the seed never appear |
| Urls.NormalizeUsesSchemeAndHost | http/webcrawler.go:219-237 | the result depends on the seed only through its scheme and host, never its path, query or fragment |
| Urls.NormalizeStable | http/webcrawler.go:215-241 | normalising a normalised link that does not end in `/` changes nothing |
| Urls.NormalizeKeepsAbsolute | http/webcrawler.go:240 | a non-empty href that has no trailing `/` and is not a relative path is returned unchanged |
| Urls.NormalizeNotIdempotent | http/webcrawler.go:216 | only one trailing `/` is removed per call, so normalising `…blog//` twice differs from normalising it once |
| Urls.NormalizeExamples | http/webcrawler_test.go:53-60 | the five normalisation cases of the unit test, with seed `https://monzo.com/path?query=param#fragment` |
| Urls.NormalizeRootExample | http/webcrawler_test.go:53 | `/` normalises to `https://monzo.com` |
| Urls.NormalizePathExample | http/webcrawler_test.go:54 | `/blog` normalises to `https://monzo.com/blog` |
| Urls.NormalizeParentExample | http/webcrawler_test.go:55 | `../blog` normalises to `https://monzo.com/../blog` |
| Urls.NormalizeSchemeRelativeExample | http/webcrawler_test.go:56 | `//secure.monzo.com/blog` normalises to `https://secure.monzo.com/blog` |
| Urls.Domain | http/webcrawler.go:247-254 | `domain`: the last two pieces of `SplitAfter(host, ".")`, or the host when there are at most two; characterised by `Urls.DomainShape` |
| Urls.DomainShape | http/webcrawler.go:247-254 | a host with at most one dot is its own domain; otherwise the domain has exactly one dot and is what follows a dot-terminated front of the host; the domain is always a suffix of the host |
| Urls.DomainOfThreeLabels | http/webcrawler.go:247-254 | the domain of `a.b.c` (dot-free labels) is `b.c` |
| Urls.SplitThree | http/webcrawler.go:248 | `a.b.c` splits after dots into `a.`, `b.`, `c` |
| Urls.DomainDropsLeadingLabel | http/webcrawler.go:247-254 | removing a leading label from a host with at least three labels does not change the domain |
| Urls.DomainExamples | http/webcrawler_test.go:36-39 | the four domain cases of the unit test: `localhost`, `monzo.com`, `blog.monzo.com`, `secure.blog.monzo.com` |
| Urls.DomainOfTwoLabels | http/webcrawler_test.go:37 | the domain of `monzo.com` is itself |
| Urls.DomainOfThreeLabelsExample | http/webcrawler_test.go:38 | the domain of `blog.monzo.com` is `monzo.com` |
| Urls.DomainOfFourLabelsExample | http/webcrawler_test.go:39 | the domain of `secure.blog.monzo.com` is `monzo.com` |
| Scope.ShouldFollow | http/webcrawler.go:200-213 | `shouldFollow` on the result of `url.Parse`; characterised by `Scope.ShouldFollowIff` |
| Scope.ShouldFollowIff | http/webcrawler.go:200-213 | false when the link does not parse; without subdomains, true exactly when the host equals the domain up to case; with subdomains, true exactly when the host ends with the domain |
| Scope.ExactDomainFollowed | http/webcrawler.go:208-212 | a host equal to the domain is followed under both settings |
| Scope.SeedHostFollowed | http/webcrawler.go:200-213 | with subdomains on, a link on the seed's own host is always in scope |
| Scope.ShouldFollowExamples | http/webcrawler_test.go:76-81 | the six scope cases of the unit test for domain `monzo.com` |
| Scope.UnanchoredSuffixFollowed | http/webcrawler.go:212 | with subdomains on, `evilmonzo.com` is in scope for `monzo.com` |
| Scope.CaseSensitivityDiffers | http/webcrawler.go:208-212 | `MONZO.COM` is in scope for `monzo.com` without subdomains and out of scope with them |
| Html.FirstHref | http/webcrawler.go:175-185 | an anchor sends at most one value; it sends nothing exactly when no attribute is an `href` whose trimmed value is non-empty and not a `#` link; otherwise it sends the trimmed value of the first such attribute |
| Html.AcceptedShift | http/webcrawler.go:175-180 | a skipped attribute at the head leaves the verdict on the rest unchanged |
| Html.Emit | http/webcrawler.go:174-186 | what one node sends: `FirstHref` of its attributes for an `a` element, nothing otherwise |
| Html.HrefsOf | http/webcrawler.go:173-191 | the recursive walk `fn` over siblings: the node, then its children, then the later siblings; stated as a pre-order listing by `Html.WalkIsPreorder` |
| Html.Hrefs | http/webcrawler.go:192 | the walk started at the document root, `fn(doc)`; counted by `Html.HrefsCount` |
| Html.EmitAllAppend | http/webcrawler.go:173-191 | what a list of nodes sends distributes over concatenation |
| Html.WalkIsPreorder | http/webcrawler.go:173-191 | the walk sends, in order, what each node of the tree sends on its own, the nodes taken in pre-order with the children of every node visited |
| Html.EmitAllLength | http/webcrawler.go:174-185 | a list of nodes sends exactly as many values as it has anchors with an accepted href |
| Html.HrefsCount | http/webcrawler.go:173-192 | the number of hrefs of a document is the number of its pre-order nodes that are anchors with an accepted href |
| Html.HrefsAreClean | http/webcrawler.go:177-182 | every value sent is already trimmed, non-empty and does not start with `#` |
| Html.EmitIsClean | http/webcrawler.go:177-182 | the same for what one node sends |
| Html.NoAnchorsNoHrefs | http/webcrawler.go:173-191 | a tree with no `a` element sends nothing |
| Html.EmitAllEmpty | http/webcrawler.go:174 | a list of non-anchor nodes sends nothing |
| Crawler.Links | http/webcrawler.go:112-117 | the dedup set `urls` after the loop; characterised by `Crawler.LinksMembership` and computed by `Crawler.ScanLinks` |
| Crawler.Spawns | http/webcrawler.go:119-131 | the links a child is started for, in page order; characterised by `Crawler.SpawnsMultiplicity` and `Crawler.SpawnsRecorded` |
| Crawler.LinksMembership | http/webcrawler.go:112-117 | a link is in the page's link set exactly when some href of the page normalises to it |
| Crawler.SpawnsMultiplicity | http/webcrawler.go:115-131 | an in-scope link is spawned once per href occurrence that normalises to it, repeats included; an out-of-scope link is never spawned |
| Crawler.SpawnsRecorded | http/webcrawler.go:112-131 | every spawned link is in scope and is in the page's link set |
| Crawler.ScanLinks | http/webcrawler.go:112-132 | the loop over the hrefs ends with the set of normalised links and the in-scope occurrences, in page order |
| Crawler.LinkList | http/webcrawler.go:135-140 | the list built from the set holds each link of the set exactly once and nothing else |
| Crawler.LinksOfFour | http/webcrawler_test.go:123-158 | four hrefs with known normal forms give exactly those four links |
| Crawler.FixtureLinks | http/webcrawler_test.go:123-158 | the fixture page's hrefs `/`, `/about`, `<base>/contact`, `https://fb.com/company` give exactly the links `<base>`, `<base>/about`, `<base>/contact`, `https://fb.com/company` for any seed `<base>` |
| Crawler.FixtureRoot | http/webcrawler_test.go:123-147 | `/` normalises to the seed's `scheme://host` |
| Crawler.FixtureAbout | http/webcrawler_test.go:123-148 | `/about` normalises to the seed's `scheme://host/about` |
| Crawler.FixtureAbsolute | http/webcrawler_test.go:123-150 | `https://fb.com/company` normalises to itself |
| Crawler.WebCrawler.constructor | http/webcrawler.go:40-50 | the seed string and URL are stored, the domain is derived from the seed, the sitemap is empty and subdomains are followed |
| Crawler.WebCrawler.Settings | http/webcrawler.go:113-119 | the two per-href steps of this crawler: `normalizeURL` against `c.url` and `shouldFollow` with `c.domain`, `c.FollowSubDomains` and `url.Parse` |
| Crawler.WebCrawler.NewURLFound | http/webcrawler.go:93-103 | succeeds exactly when the link is not yet a key; on success it adds the link with an empty list and changes nothing else; on failure it changes nothing |
| Crawler.WebCrawler.Commit | http/webcrawler.go:142-144 | overwrites the page's entry with its link list and changes no other key |
| Crawler.WebCrawler.Worker | http/webcrawler.go:105-147 | a lost claim spawns nothing and changes nothing; a won claim adds the page, leaves every earlier key as it was, records each distinct normalised link exactly once (in scope or not), and spawns one child per in-scope occurrence |
| Crawler.WebCrawler.Crawl | http/webcrawler.go:77-89 | a failed seed fetch fails the crawl and changes nothing; otherwise the returned sitemap is the new one, a seed already claimed changes nothing and spawns nothing, and a new seed is added with each distinct normalised link of its document exactly once, every other key unchanged, and one child per in-scope occurrence |
| Crawler.NewWebCrawler | http/webcrawler.go:34-51 | fails exactly when the seed does not parse; otherwise returns a new crawler with the derived domain, an empty sitemap and subdomains followed |
| Crawler.ClaimTwice | http/webcrawler.go:93-103 | a second claim of the same link always fails, and the link is then a key |

## Left out

- HTTP fetching, `ClientTimeout` and closing the response body (http/webcrawler.go:18,151-162): network I/O. `Crawl` receives the parsed seed document, or `None` for a failure.
- `html.Parse` (http/webcrawler.go:164): a foreign library. `Html.Node` stands for its output.
- `url.Parse`: a foreign function, passed in as `parse`.
- Urls.Render: keeps only scheme, host, path, query and fragment. The following parts of `URL.String()` are not modelled:
  - user info and opaque URLs;
  - the `./` colon rule;
  - `ForceQuery`, which the copy `*newurl = *c.url` at http/webcrawler.go:220,233 keeps. A seed ending in a bare `?` makes Go render `/` as `https://monzo.com?`, while the model gives `https://monzo.com`;
  - `OmitHost`;
  - escaping of the path. Go escapes `?`, `#` and `%` in a root-relative href: `/search?q=1` becomes `…/search%3Fq=1` and `/a%20b` becomes `…/a%2520b`. The model keeps such hrefs as written.
- Strings: Go strings are bytes, while Dafny strings are sequences of Unicode scalar values.
  - With the ASCII separators used here (`/`, `.`, `#`) the two agree on valid UTF-8.
  - An href holding invalid UTF-8, which Go's `TrimSpace` decodes as U+FFFD, cannot be represented.
- Goroutines, the `urlCh` channel, `sync.WaitGroup` and `sitemapMu`: concurrency.
  - The channel is a finite sequence.
  - Starting a child is appending to the returned `spawned` list.
  - The mutex is nothing, since every model step is sequential.
- The recursive crawl across pages is not modelled, and neither is waiting for children.
  - A child at http/webcrawler.go:127 fetches `c.url` again rather than its own link, and `worker` returns `nil` at line 146 although it has no result.
  - Only the single-page step is verified. There is no whole-site traversal and no termination argument.
- Crawl: its contract covers the seed page only. The children it starts are returned in `spawned` and are not run, so the final sitemap after they finish is not stated.
- The `log` function (http/webcrawler.go:55-75): wall-clock time and standard output.
- `Logger`, `HTTPClient` and `Verbose` fields: only used by the parts above.
- Strings.EqualFoldIff: folds ASCII letters only. Go's Unicode simple folding (for example the Kelvin sign and the long s) is not modelled.
- Crawler.LinkList: produces some order of the set, as Go's randomised map iteration does. Go's nil slice for a page without links is the empty sequence.
- TestCrawlURL_ExtractAllHref (http/webcrawler_test.go:96-116): its HTML fixture `testdata/github.html` is not part of this model.
- TestCrawler's whole-site run (http/webcrawler_test.go:118-139): only its per-page link sets are stated (`Crawler.FixtureLinks`), since the recursive crawl is left out.
- cmd/mzcrawler/main.go: flag parsing, JSON output and the exit code.
- mzcrawler.go: an interface and the `Sitemap` map type, which is `Crawler.Sitemap` here.
