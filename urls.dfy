/**
 * URLs as the crawler sees them: the parsed seed, its rendering back to a
 * string, the href normaliser and the registrable-domain derivation.
 */
module Urls {
  import opened Strings

  /** The fields of a parsed `net/url` URL that the crawler reads or clears. */
  datatype Url = Url(scheme: string, host: string, path: string, rawQuery: string, fragment: string)

  /**
   * URL.String() for the fields kept in `Url`: `scheme:`, then `//host`, then
   * the path (with a `/` put in front of a path that lacks one when there is
   * a host), then `?query` and `#fragment`.
   */
  function Render(u: Url): string {
    (if u.scheme != "" then u.scheme + ":" else "")
    + (if u.scheme != "" || u.host != "" then (if u.host != "" || u.path != "" then "//" else "") + u.host else "")
    + (if u.path != "" && u.path[0] != '/' && u.host != "" then "/" else "")
    + u.path
    + (if u.rawQuery != "" then "?" + u.rawQuery else "")
    + (if u.fragment != "" then "#" + u.fragment else "")
  }

  /** A URL with a scheme and a host, as url.Parse gives for an absolute seed (a scheme starts with a letter). */
  predicate Absolute(u: Url) {
    u.scheme != "" && u.host != "" && ('a' <= u.scheme[0] <= 'z' || 'A' <= u.scheme[0] <= 'Z')
  }

  /** For an absolute URL without query and fragment, the string is `scheme://host` followed by the path. */
  lemma RenderAbsolute(u: Url)
    requires u.scheme != "" && u.host != "" && u.rawQuery == "" && u.fragment == ""
    ensures Render(u) == u.scheme + "://" + u.host + (if u.path != "" && u.path[0] != '/' then "/" else "") + u.path
  {
  }

  /** isReletivePath: a root-relative (`/x`) or parent-relative (`..x`) path. */
  predicate IsRelativePath(path: string) {
    HasPrefix(path, "/") || HasPrefix(path, "..")
  }

  /**
   * normalizeURL: one trailing `/` is dropped; then the empty string becomes
   * the seed's `scheme://host`, a `//x` href gets the seed's scheme, a
   * relative path replaces the seed's path (query and fragment cleared), and
   * anything else is kept as it is.
   */
  function Normalize(seed: Url, href: string): string {
    var u := TrimSuffix(href, "/");
    if u == "" then
      Render(seed.(path := "", rawQuery := "", fragment := ""))
    else if HasPrefix(u, "//") then
      seed.scheme + ":" + u
    else if IsRelativePath(u) then
      Render(seed.(path := u, rawQuery := "", fragment := ""))
    else
      u
  }

  /** The normalisation rules, in order, written out as plain concatenations. */
  lemma NormalizeRules(seed: Url, href: string)
    requires Absolute(seed)
    ensures var u := TrimSuffix(href, "/");
            && (u == "" ==> Normalize(seed, href) == seed.scheme + "://" + seed.host)
            && (HasPrefix(u, "//") ==> Normalize(seed, href) == seed.scheme + ":" + u)
            && (HasPrefix(u, "/") && !HasPrefix(u, "//") ==>
                  Normalize(seed, href) == seed.scheme + "://" + seed.host + u)
            && (HasPrefix(u, "..") ==> Normalize(seed, href) == seed.scheme + "://" + seed.host + "/" + u)
            && (u != "" && !IsRelativePath(u) ==> Normalize(seed, href) == u)
  {
    var u := TrimSuffix(href, "/");
    if u == "" {
      RenderAbsolute(seed.(path := "", rawQuery := "", fragment := ""));
    } else if !HasPrefix(u, "//") && IsRelativePath(u) {
      RenderAbsolute(seed.(path := u, rawQuery := "", fragment := ""));
    }
  }

  /** Relative hrefs are resolved against the seed's scheme and host only: its path, query and fragment never matter. */
  lemma NormalizeUsesSchemeAndHost(seed1: Url, seed2: Url, href: string)
    requires seed1.scheme == seed2.scheme && seed1.host == seed2.host
    ensures Normalize(seed1, href) == Normalize(seed2, href)
  {
  }

  /** A normalised URL that does not end with `/` is left alone by a second normalisation. */
  lemma NormalizeStable(seed: Url, href: string)
    requires Absolute(seed)
    requires !HasSuffix(Normalize(seed, href), "/")
    ensures Normalize(seed, Normalize(seed, href)) == Normalize(seed, href)
  {
    var r := Normalize(seed, href);
    var u := TrimSuffix(href, "/");
    NormalizeRules(seed, href);
    if u == "" {
      assert r == seed.scheme + "://" + seed.host;
      assert r[0] == seed.scheme[0];
    } else if HasPrefix(u, "//") {
      assert r == seed.scheme + ":" + u;
      assert r[0] == seed.scheme[0];
    } else if IsRelativePath(u) {
      assert r == Render(seed.(path := u, rawQuery := "", fragment := ""));
      RenderAbsolute(seed.(path := u, rawQuery := "", fragment := ""));
      assert r[0] == seed.scheme[0];
    } else {
      assert r == u;
    }
    assert !HasPrefix(r, "/") && !HasPrefix(r, "..");
    NormalizeKeepsAbsolute(seed, r);
  }

  /** An href that is not empty, has no trailing `/` and is not relative is returned exactly. */
  lemma NormalizeKeepsAbsolute(seed: Url, href: string)
    requires href != "" && !HasSuffix(href, "/") && !IsRelativePath(href)
    ensures Normalize(seed, href) == href
  {
    assert TrimSuffix(href, "/") == href;
  }

  /** A trailing `//` shows that normalisation is not idempotent in general. */
  lemma NormalizeNotIdempotent()
    ensures var seed := Url("https", "monzo.com", "", "", "");
            && Normalize(seed, "http://monzo.com/blog//") == "http://monzo.com/blog/"
            && Normalize(seed, Normalize(seed, "http://monzo.com/blog//")) == "http://monzo.com/blog"
  {
    var seed := Url("https", "monzo.com", "", "", "");
    var a, b, c := "http://monzo.com/blog//", "http://monzo.com/blog/", "http://monzo.com/blog";
    assert HasSuffix(a, "/") && a[..|a| - 1] == b;
    assert HasSuffix(b, "/") && b[..|b| - 1] == c;
    assert b[0] == 'h' && c[0] == 'h';
    assert !IsRelativePath(b) && !IsRelativePath(c);
  }

  /** The seed of the normaliser's unit tests: `https://monzo.com/path?query=param#fragment`. */
  const MonzoSeed := Url("https", "monzo.com", "/path", "query=param", "fragment")

  /** The normaliser's unit-test table, against `MonzoSeed`. */
  lemma NormalizeExamples()
    ensures Normalize(MonzoSeed, "/") == "https://monzo.com"
    ensures Normalize(MonzoSeed, "/blog") == "https://monzo.com/blog"
    ensures Normalize(MonzoSeed, "../blog") == "https://monzo.com/../blog"
    ensures Normalize(MonzoSeed, "//secure.monzo.com/blog") == "https://secure.monzo.com/blog"
    ensures Normalize(MonzoSeed, "http://monzo.com/blog") == "http://monzo.com/blog"
  {
    NormalizeRootExample();
    NormalizePathExample();
    NormalizeParentExample();
    NormalizeSchemeRelativeExample();
    NormalizeKeepsAbsolute(MonzoSeed, "http://monzo.com/blog");
  }

  lemma NormalizeRootExample()
    ensures Normalize(MonzoSeed, "/") == "https://monzo.com"
  {
    assert TrimSuffix("/", "/") == "";
    RenderAbsolute(MonzoSeed.(path := "", rawQuery := "", fragment := ""));
  }

  lemma NormalizePathExample()
    ensures Normalize(MonzoSeed, "/blog") == "https://monzo.com/blog"
  {
    assert TrimSuffix("/blog", "/") == "/blog";
    assert !HasPrefix("/blog", "//") by { assert "/blog"[1] == 'b'; }
    RenderAbsolute(MonzoSeed.(path := "/blog", rawQuery := "", fragment := ""));
  }

  lemma NormalizeParentExample()
    ensures Normalize(MonzoSeed, "../blog") == "https://monzo.com/../blog"
  {
    assert TrimSuffix("../blog", "/") == "../blog";
    assert HasPrefix("../blog", "..") && !HasPrefix("../blog", "/");
    RenderAbsolute(MonzoSeed.(path := "../blog", rawQuery := "", fragment := ""));
  }

  lemma NormalizeSchemeRelativeExample()
    ensures Normalize(MonzoSeed, "//secure.monzo.com/blog") == "https://secure.monzo.com/blog"
  {
    assert TrimSuffix("//secure.monzo.com/blog", "/") == "//secure.monzo.com/blog";
    assert HasPrefix("//secure.monzo.com/blog", "//");
  }

  /**
   * domain: the host split after every `.`; a host of at most two pieces is
   * its own domain, otherwise the last two pieces are joined.
   */
  function Domain(u: Url): string {
    var parts := SplitAfter(u.host, '.');
    if |parts| <= 2 then u.host else Concat(parts[|parts| - 2..])
  }

  /**
   * The domain is the host itself when the host has at most one dot;
   * otherwise it is the part of the host after its second-to-last dot, so
   * it holds exactly one dot and is preceded in the host by a dot.
   */
  lemma {:induction false} DomainShape(u: Url)
    ensures Count(u.host, '.') <= 1 ==> Domain(u) == u.host
    ensures Count(u.host, '.') >= 2 ==>
              && Count(Domain(u), '.') == 1
              && exists front :: u.host == front + Domain(u) && front != [] && front[|front| - 1] == '.'
    ensures HasSuffix(u.host, Domain(u))
  {
    var parts := SplitAfter(u.host, '.');
    var n := |parts|;
    if n > 2 {
      SplitAfterPieces(u.host, '.');
      var front := Concat(parts[..n - 2]);
      assert parts == parts[..n - 2] + parts[n - 2..];
      ConcatAppend(parts[..n - 2], parts[n - 2..]);
      assert u.host == front + Domain(u);
      assert parts[..n - 2] == parts[..n - 3] + [parts[n - 3]];
      ConcatAppend(parts[..n - 3], [parts[n - 3]]);
      assert Concat([parts[n - 3]]) == parts[n - 3];
      assert Terminated(parts[n - 3], '.');
      assert front[|front| - 1] == '.';
      var p, q := parts[n - 2], parts[n - 1];
      assert Concat(parts[n - 2..]) == p + q by {
        assert parts[n - 2..] == [p] + [q];
        assert Concat([q]) == q;
      }
      assert Terminated(p, '.');
      assert p == p[..|p| - 1] + ['.'];
      CountAppend(p[..|p| - 1], ['.'], '.');
      CountZero(p[..|p| - 1], '.');
      CountZero(q, '.');
      CountAppend(p, q, '.');
      assert u.host[|u.host| - |Domain(u)|..] == Domain(u);
    } else {
      assert u.host[|u.host| - |u.host|..] == u.host;
    }
  }

  /** A host of three dot-free labels has the last two as its domain. */
  lemma DomainOfThreeLabels(u: Url, a: string, b: string, c: string)
    requires '.' !in a && '.' !in b && '.' !in c
    requires u.host == a + "." + b + "." + c
    ensures Domain(u) == b + "." + c
  {
    SplitThree(a, b, c);
    var parts := [a + ".", b + ".", c];
    assert SplitAfter(u.host, '.') == parts;
    assert parts[|parts| - 2..] == [b + ".", c];
    assert Concat([c]) == c;
  }

  /** Three dot-free labels split after their dots into the two dot-terminated labels and the last one. */
  lemma SplitThree(a: string, b: string, c: string)
    requires '.' !in a && '.' !in b && '.' !in c
    ensures SplitAfter(a + "." + b + "." + c, '.') == [a + ".", b + ".", c]
  {
    SplitAfterWhole(c, '.');
    SplitAfterFirst(b, '.', c);
    assert a + "." + b + "." + c == a + ['.'] + (b + ['.'] + c);
    SplitAfterFirst(a, '.', b + ['.'] + c);
  }

  /** A leading dot-free label does not change the domain of a host with at least two dots. */
  lemma DomainDropsLeadingLabel(u: Url, a: string, rest: string)
    requires '.' !in a && Count(rest, '.') >= 2
    requires u.host == a + "." + rest
    ensures Domain(u) == Domain(u.(host := rest))
  {
    assert u.host == a + ['.'] + rest;
    SplitAfterFirst(a, '.', rest);
    var tail := SplitAfter(rest, '.');
    var parts := SplitAfter(u.host, '.');
    assert parts == [a + "."] + tail;
    assert parts[|parts| - 2..] == tail[|tail| - 2..];
  }

  /**
   * The domain unit-test table; the hosts are passed in so that the
   * verifier does not unfold the splitting of the literals character by
   * character.
   */
  lemma DomainExamples(h1: string, h2: string, h3: string, h4: string)
    requires h1 == "localhost" && h2 == "monzo.com" && h3 == "blog.monzo.com" && h4 == "secure.blog.monzo.com"
    ensures Domain(Url("http", h1, "", "", "")) == "localhost"
    ensures Domain(Url("http", h2, "", "", "")) == "monzo.com"
    ensures Domain(Url("https", h3, "", "", "")) == "monzo.com"
    ensures Domain(Url("https", h4, "", "", "")) == "monzo.com"
  {
    SplitAfterWhole(h1, '.');
    DomainOfTwoLabels(h2);
    DomainOfThreeLabelsExample(h3);
    DomainOfFourLabelsExample(h4, h3);
  }

  lemma DomainOfTwoLabels(h: string)
    requires h == "monzo.com"
    ensures Domain(Url("http", h, "", "", "")) == "monzo.com"
  {
    assert h == "monzo" + ['.'] + "com";
    SplitAfterWhole("com", '.');
    SplitAfterFirst("monzo", '.', "com");
  }

  lemma DomainOfThreeLabelsExample(h: string)
    requires h == "blog.monzo.com"
    ensures Domain(Url("https", h, "", "", "")) == "monzo.com"
    ensures Count(h, '.') == 2
  {
    assert "blog" + "." + "monzo" + "." + "com" == h;
    assert "monzo" + "." + "com" == "monzo.com";
    DomainOfThreeLabels(Url("https", h, "", "", ""), "blog", "monzo", "com");
    SplitThree("blog", "monzo", "com");
  }

  lemma DomainOfFourLabelsExample(h: string, tail: string)
    requires h == "secure.blog.monzo.com" && tail == "blog.monzo.com"
    ensures Domain(Url("https", h, "", "", "")) == "monzo.com"
  {
    DomainOfThreeLabelsExample(tail);
    assert "secure" + "." + tail == h;
    DomainDropsLeadingLabel(Url("https", h, "", "", ""), "secure", tail);
  }
}
