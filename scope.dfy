/**
 * The scope filter (shouldFollow): whether a normalised link is crawled
 * itself or only recorded.
 */
module Scope {
  import opened Wrappers
  import opened Strings
  import opened Urls

  /**
   * `parsed` is what url.Parse gave for the link (None for a parse error).
   * Without subdomain following the host must equal the domain up to ASCII
   * case; with it, the host must end with the domain, compared exactly and
   * not anchored at a dot.
   */
  predicate ShouldFollow(domain: string, followSubDomains: bool, parsed: Option<Url>) {
    match parsed
    case None => false
    case Some(u) => if !followSubDomains then EqualFold(u.host, domain) else HasSuffix(u.host, domain)
  }

  /** What the filter accepts, stated without the string helpers. */
  lemma ShouldFollowIff(domain: string, followSubDomains: bool, parsed: Option<Url>)
    ensures ShouldFollow(domain, followSubDomains, parsed) <==>
              && parsed.Some?
              && (followSubDomains ==> exists front :: parsed.value.host == front + domain)
              && (!followSubDomains ==>
                    && |parsed.value.host| == |domain|
                    && forall i :: 0 <= i < |domain| ==> Lower(parsed.value.host[i]) == Lower(domain[i]))
  {
    if parsed.Some? {
      HasSuffixIff(parsed.value.host, domain);
      EqualFoldIff(parsed.value.host, domain);
    }
  }

  /** A host that is exactly the domain is followed under both settings. */
  lemma ExactDomainFollowed(domain: string, u: Url)
    requires u.host == domain
    ensures ShouldFollow(domain, false, Some(u))
    ensures ShouldFollow(domain, true, Some(u))
  {
    EqualFoldIff(u.host, domain);
    assert u.host[|u.host| - |domain|..] == domain;
  }

  /** With subdomain following, the seed's own host is always in scope. */
  lemma SeedHostFollowed(seed: Url, u: Url)
    requires u.host == seed.host
    ensures ShouldFollow(Domain(seed), true, Some(u))
  {
    DomainShape(seed);
  }

  /**
   * The scope unit-test table, domain `monzo.com`; the strings are passed
   * in so that the verifier does not unfold them character by character.
   */
  lemma ShouldFollowExamples(domain: string, local: string, root: string, blog: string)
    requires domain == "monzo.com" && local == "localhost" && root == "monzo.com" && blog == "blog.monzo.com"
    ensures !ShouldFollow(domain, false, Some(Url("https", local, "", "", "")))
    ensures !ShouldFollow(domain, true, Some(Url("https", local, "", "", "")))
    ensures ShouldFollow(domain, false, Some(Url("https", root, "/blog", "", "")))
    ensures ShouldFollow(domain, true, Some(Url("https", root, "/blog", "", "")))
    ensures !ShouldFollow(domain, false, Some(Url("https", blog, "/article", "", "")))
    ensures ShouldFollow(domain, true, Some(Url("https", blog, "/article", "", "")))
  {
    ExactDomainFollowed(domain, Url("https", root, "/blog", "", ""));
    EqualFoldIff(local, domain);
    assert Lower(local[0]) != Lower(domain[0]);
    EqualFoldIff(blog, domain);
    assert blog[5..] == domain;
    assert local[0] != domain[0];
  }

  /** The suffix test is not anchored at a label boundary: an unrelated host ending in the domain passes. */
  lemma UnanchoredSuffixFollowed()
    ensures ShouldFollow("monzo.com", true, Some(Url("https", "evilmonzo.com", "", "", "")))
  {
    assert "evilmonzo.com"[4..] == "monzo.com";
  }

  /**
   * Case is ignored only without subdomain following: an upper-case host is
   * followed when subdomains are off and dropped when they are on. The
   * strings are passed in so that the verifier does not unfold them
   * character by character.
   */
  lemma CaseSensitivityDiffers(host: string, domain: string)
    requires host == "MONZO.COM" && domain == "monzo.com"
    ensures ShouldFollow(domain, false, Some(Url("https", host, "", "", "")))
    ensures !ShouldFollow(domain, true, Some(Url("https", host, "", "", "")))
  {
    forall i | 0 <= i < |domain| ensures Lower(host[i]) == Lower(domain[i]) {
      if i == 5 {
        assert host[i] == domain[i] == '.';
      } else {
        assert 'A' <= host[i] <= 'Z' && host[i] as int + 32 == domain[i] as int;
      }
    }
    EqualFoldIff(host, domain);
    assert host[0] != domain[0];
  }
}
