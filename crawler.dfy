/**
 * The crawl engine around one page: claiming a URL in the shared sitemap,
 * normalising and de-duplicating the hrefs found on the page, choosing the
 * links a child worker is started for, and committing the page's links.
 */
module Crawler {
  import opened Wrappers
  import opened Strings
  import opened Urls
  import opened Scope
  import opened Html

  /** mzcrawler.Sitemap: each claimed page to the links found on it. */
  type Sitemap = map<string, seq<string>>

  /**
   * The two steps a worker applies to every href, fixed by the crawler:
   * normalisation against the seed and the scope test on the result.
   */
  datatype Config = Config(normalize: string -> string, follows: string -> bool)

  /** The set of distinct normalised links of a page. */
  function Links(cfg: Config, hrefs: seq<string>): set<string> {
    if hrefs == [] then {}
    else Links(cfg, hrefs[..|hrefs| - 1]) + {cfg.normalize(hrefs[|hrefs| - 1])}
  }

  /** A link is recorded exactly when some href on the page normalises to it. */
  lemma {:induction false} LinksMembership(cfg: Config, hrefs: seq<string>, x: string)
    ensures x in Links(cfg, hrefs) <==> exists i :: 0 <= i < |hrefs| && cfg.normalize(hrefs[i]) == x
  {
    if hrefs != [] {
      var n := |hrefs| - 1;
      var init := hrefs[..n];
      LinksMembership(cfg, init, x);
      if x in Links(cfg, hrefs) {
        if x in Links(cfg, init) {
          var i :| 0 <= i < |init| && cfg.normalize(init[i]) == x;
          assert hrefs[i] == init[i];
        } else {
          assert cfg.normalize(hrefs[n]) == x;
        }
      } else {
        forall i | 0 <= i < |hrefs| ensures cfg.normalize(hrefs[i]) != x {
          if i < n {
            assert hrefs[i] == init[i];
          }
        }
      }
    }
  }

  /** The links a child worker is started for, one per in-scope href occurrence, in page order. */
  function Spawns(cfg: Config, hrefs: seq<string>): seq<string> {
    if hrefs == [] then []
    else
      var link := cfg.normalize(hrefs[|hrefs| - 1]);
      Spawns(cfg, hrefs[..|hrefs| - 1]) + (if cfg.follows(link) then [link] else [])
  }

  /** How many hrefs of the page normalise to `x`. */
  function Occurrences(cfg: Config, hrefs: seq<string>, x: string): nat {
    if hrefs == [] then 0
    else Occurrences(cfg, hrefs[..|hrefs| - 1], x) + (if cfg.normalize(hrefs[|hrefs| - 1]) == x then 1 else 0)
  }

  /**
   * A link is spawned once for every href occurrence that normalises to it
   * when it is in scope, repeats included, and never when it is out of scope.
   */
  lemma {:induction false} SpawnsMultiplicity(cfg: Config, hrefs: seq<string>, x: string)
    ensures multiset(Spawns(cfg, hrefs))[x] == if cfg.follows(x) then Occurrences(cfg, hrefs, x) else 0
  {
    if hrefs != [] {
      SpawnsMultiplicity(cfg, hrefs[..|hrefs| - 1], x);
    }
  }

  /** Every spawned link is in scope and is among the page's recorded links. */
  lemma {:induction false} SpawnsRecorded(cfg: Config, hrefs: seq<string>)
    ensures forall x :: x in Spawns(cfg, hrefs) ==> cfg.follows(x) && x in Links(cfg, hrefs)
  {
    if hrefs != [] {
      SpawnsRecorded(cfg, hrefs[..|hrefs| - 1]);
    }
  }

  predicate NoDuplicates(s: seq<string>) {
    forall i, j :: 0 <= i < j < |s| ==> s[i] != s[j]
  }

  /**
   * The loop over the page's hrefs: each href is normalised and added to
   * the set of links; a child is spawned for it when it is in scope,
   * whether or not it was new.
   */
  method ScanLinks(cfg: Config, hrefs: seq<string>) returns (urls: set<string>, spawned: seq<string>)
    ensures urls == Links(cfg, hrefs)
    ensures spawned == Spawns(cfg, hrefs)
  {
    urls, spawned := {}, [];
    var i := 0;
    while i < |hrefs|
      invariant 0 <= i <= |hrefs|
      invariant urls == Links(cfg, hrefs[..i])
      invariant spawned == Spawns(cfg, hrefs[..i])
    {
      var u := cfg.normalize(hrefs[i]);
      if u !in urls {
        urls := urls + {u};
      }
      assert hrefs[..i + 1][..i] == hrefs[..i];
      if cfg.follows(u) {
        spawned := spawned + [u];
      }
      i := i + 1;
    }
    assert hrefs[..|hrefs|] == hrefs;
  }

  /** The set of links turned into a list, in whatever order the set is walked. */
  method LinkList(urls: set<string>) returns (res: seq<string>)
    ensures NoDuplicates(res)
    ensures forall x :: x in res <==> x in urls
    ensures |res| == |urls|
  {
    res := [];
    var rest := urls;
    while rest != {}
      invariant rest <= urls
      invariant forall x :: x in res <==> x in urls && x !in rest
      invariant NoDuplicates(res)
      invariant |res| + |rest| == |urls|
      decreases rest
    {
      var u :| u in rest;
      res := res + [u];
      rest := rest - {u};
    }
  }

  /** Four hrefs with known normal forms record exactly those four links. */
  lemma LinksOfFour(cfg: Config, h0: string, h1: string, h2: string, h3: string,
                    n0: string, n1: string, n2: string, n3: string)
    requires cfg.normalize(h0) == n0 && cfg.normalize(h1) == n1
    requires cfg.normalize(h2) == n2 && cfg.normalize(h3) == n3
    ensures Links(cfg, [h0, h1, h2, h3]) == {n0, n1, n2, n3}
  {
    assert [h0][..0] == [];
    assert Links(cfg, [h0]) == {n0};
    assert [h0, h1][..1] == [h0];
    assert Links(cfg, [h0, h1]) == {n0, n1};
    assert [h0, h1, h2][..2] == [h0, h1];
    assert Links(cfg, [h0, h1, h2]) == {n0, n1, n2};
    assert [h0, h1, h2, h3][..3] == [h0, h1, h2];
  }

  /**
   * The page of the crawler fixture, served at any test-server address
   * `base`: its four hrefs give the four distinct links every fixture page
   * must record.
   */
  lemma FixtureLinks(cfg: Config, seed: Url, base: string, root: string, about: string, contact: string, fb: string)
    requires forall h :: cfg.normalize(h) == Normalize(seed, h)
    requires Absolute(seed) && base == seed.scheme + "://" + seed.host
    requires root == "/" && about == "/about" && contact == base + "/contact" && fb == "https://fb.com/company"
    ensures Links(cfg, [root, about, contact, fb]) == {base, base + about, contact, fb}
  {
    FixtureRoot(seed, root);
    FixtureAbout(seed, about);
    assert contact[|contact| - 1] == 't' && contact[0] == seed.scheme[0];
    NormalizeKeepsAbsolute(seed, contact);
    FixtureAbsolute(seed, fb);
    LinksOfFour(cfg, root, about, contact, fb, base, base + about, contact, fb);
  }

  lemma FixtureRoot(seed: Url, root: string)
    requires Absolute(seed) && root == "/"
    ensures Normalize(seed, root) == seed.scheme + "://" + seed.host
  {
    NormalizeRules(seed, root);
    assert TrimSuffix(root, "/") == "";
  }

  lemma FixtureAbout(seed: Url, about: string)
    requires Absolute(seed) && about == "/about"
    ensures Normalize(seed, about) == seed.scheme + "://" + seed.host + about
  {
    NormalizeRules(seed, about);
    assert TrimSuffix(about, "/") == about;
    assert HasPrefix(about, "/") && !HasPrefix(about, "//") by { assert about[1] == 'a'; }
  }

  lemma FixtureAbsolute(seed: Url, link: string)
    requires link == "https://fb.com/company"
    ensures Normalize(seed, link) == link
  {
    assert link[0] == 'h' && link[|link| - 1] == 'y';
    NormalizeKeepsAbsolute(seed, link);
  }

  class WebCrawler {
    const urlstr: string
    const url: Url
    const domain: string
    /** url.Parse, a foreign step: None stands for a parse error. */
    const parse: string -> Option<Url>
    var followSubDomains: bool
    var sitemap: Sitemap

    /** The field initialisation of NewWebCrawler once the seed has parsed. */
    constructor (baseurl: string, u: Url, parse: string -> Option<Url>)
      ensures urlstr == baseurl && url == u && domain == Domain(u) && this.parse == parse
      ensures sitemap == map[] && followSubDomains
    {
      urlstr := baseurl;
      url := u;
      domain := Domain(u);
      this.parse := parse;
      sitemap := map[];
      followSubDomains := true;
    }

    /** The steps this crawler's workers apply: normalizeURL against the seed, then shouldFollow. */
    function Settings(): Config
      reads this
    {
      var seed, dom, subdomains, parseUrl := url, domain, followSubDomains, parse;
      Config(href => Normalize(seed, href), link => ShouldFollow(dom, subdomains, parseUrl(link)))
    }

    /** newURLFound: claims `link`, inserting it with an empty list, unless some worker already did. */
    method NewURLFound(link: string) returns (won: bool)
      modifies this`sitemap
      ensures won <==> link !in old(sitemap)
      ensures sitemap == if won then old(sitemap)[link := []] else old(sitemap)
    {
      if link in sitemap {
        return false;
      }
      sitemap := sitemap[link := []];
      return true;
    }

    /** The commit at the end of worker: the page's entry is overwritten with its links. */
    method Commit(link: string, links: seq<string>)
      modifies this`sitemap
      ensures sitemap == old(sitemap)[link := links]
    {
      sitemap := sitemap[link := links];
    }

    /**
     * worker for one page whose hrefs are `hrefs`: a lost claim leaves
     * everything as it was; a won claim records every distinct normalised
     * link once, in scope or not, touches no other page, and returns the
     * links a child worker is started for.
     */
    method Worker(page: string, hrefs: seq<string>) returns (spawned: seq<string>)
      modifies this`sitemap
      ensures page in old(sitemap) ==> spawned == [] && sitemap == old(sitemap)
      ensures page !in old(sitemap) ==>
                && spawned == Spawns(Settings(), hrefs)
                && sitemap.Keys == old(sitemap).Keys + {page}
                && (forall k :: k in old(sitemap) ==> sitemap[k] == old(sitemap)[k])
                && NoDuplicates(sitemap[page])
                && (forall x :: x in sitemap[page] <==> x in Links(Settings(), hrefs))
    {
      var won := NewURLFound(page);
      if !won {
        return [];
      }
      var urls;
      urls, spawned := ScanLinks(Settings(), hrefs);
      var links := LinkList(urls);
      Commit(page, links);
    }

    /**
     * Crawl, up to the point where it waits for the children: the seed
     * page's document (None when fetching or parsing it failed) is walked
     * and handed to a worker for the seed URL.
     */
    method Crawl(doc: Option<Node>) returns (result: Option<Sitemap>, spawned: seq<string>)
      modifies this`sitemap
      ensures doc.None? ==> result.None? && spawned == [] && sitemap == old(sitemap)
      ensures doc.Some? ==> result == Some(sitemap)
      ensures doc.Some? && urlstr in old(sitemap) ==> spawned == [] && sitemap == old(sitemap)
      ensures doc.Some? && urlstr !in old(sitemap) ==>
                && spawned == Spawns(Settings(), Hrefs(doc.value))
                && sitemap.Keys == old(sitemap).Keys + {urlstr}
                && (forall k :: k in old(sitemap) ==> sitemap[k] == old(sitemap)[k])
                && NoDuplicates(sitemap[urlstr])
                && (forall x :: x in sitemap[urlstr] <==> x in Links(Settings(), Hrefs(doc.value)))
    {
      if doc.None? {
        return None, [];
      }
      spawned := Worker(urlstr, Hrefs(doc.value));
      result := Some(sitemap);
    }
  }

  /** NewWebCrawler: fails when the seed does not parse, otherwise a crawler with an empty sitemap that follows subdomains. */
  method NewWebCrawler(baseurl: string, parse: string -> Option<Url>) returns (c: WebCrawler?)
    ensures c == null <==> parse(baseurl).None?
    ensures c != null ==>
              && fresh(c) && c.urlstr == baseurl && c.url == parse(baseurl).value
              && c.domain == Domain(c.url) && c.parse == parse
              && c.sitemap == map[] && c.followSubDomains
  {
    var u := parse(baseurl);
    if u.None? {
      return null;
    }
    c := new WebCrawler(baseurl, u.value, parse);
  }

  /** A second claim of the same URL always loses. */
  method ClaimTwice(c: WebCrawler, link: string) returns (first: bool, second: bool)
    modifies c`sitemap
    ensures first <==> link !in old(c.sitemap)
    ensures !second
    ensures link in c.sitemap
  {
    first := c.NewURLFound(link);
    second := c.NewURLFound(link);
  }
}
