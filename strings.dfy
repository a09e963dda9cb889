/**
 * The handful of Go `strings` and `unicode` operations the crawler relies on,
 * on Dafny strings (sequences of Unicode scalar values).
 */
module Strings {

  /** strings.HasPrefix */
  predicate HasPrefix(s: string, prefix: string) {
    |prefix| <= |s| && s[..|prefix|] == prefix
  }

  /** strings.HasSuffix */
  predicate HasSuffix(s: string, suffix: string) {
    |suffix| <= |s| && s[|s| - |suffix|..] == suffix
  }

  lemma HasPrefixIff(s: string, prefix: string)
    ensures HasPrefix(s, prefix) <==> exists rest :: s == prefix + rest
  {
    if HasPrefix(s, prefix) {
      assert s == prefix + s[|prefix|..];
    }
  }

  lemma HasSuffixIff(s: string, suffix: string)
    ensures HasSuffix(s, suffix) <==> exists front :: s == front + suffix
  {
    if HasSuffix(s, suffix) {
      assert s == s[..|s| - |suffix|] + suffix;
    }
  }

  /** strings.TrimSuffix: removes one copy of `suffix`, if present. */
  function TrimSuffix(s: string, suffix: string): (r: string)
    ensures HasSuffix(s, suffix) ==> r + suffix == s
    ensures !HasSuffix(s, suffix) ==> r == s
  {
    if HasSuffix(s, suffix) then s[..|s| - |suffix|] else s
  }

  /** unicode.IsSpace: the Latin-1 spaces and the rest of Unicode's White_Space property. */
  predicate IsSpace(c: char) {
    || c == '\t' || c == '\n' || c == '\U{000B}' || c == '\U{000C}' || c == '\r' || c == ' '
    || c == '\U{0085}' || c == '\U{00A0}' || c == '\U{1680}'
    || ('\U{2000}' <= c <= '\U{200A}')
    || c == '\U{2028}' || c == '\U{2029}' || c == '\U{202F}' || c == '\U{205F}' || c == '\U{3000}'
  }

  function TrimLeft(s: string): string {
    if s != [] && IsSpace(s[0]) then TrimLeft(s[1..]) else s
  }

  function TrimRight(s: string): string {
    if s != [] && IsSpace(s[|s| - 1]) then TrimRight(s[..|s| - 1]) else s
  }

  /** strings.TrimSpace */
  function TrimSpace(s: string): string {
    TrimRight(TrimLeft(s))
  }

  /** Neither the first nor the last character is white space. */
  predicate Trimmed(r: string) {
    r == [] || (!IsSpace(r[0]) && !IsSpace(r[|r| - 1]))
  }

  /** `r` is `s[lo..hi]` and everything outside that slice is white space. */
  predicate SpaceAround(s: string, r: string, lo: int, hi: int) {
    && 0 <= lo <= hi <= |s| && r == s[lo..hi]
    && (forall i :: 0 <= i < lo ==> IsSpace(s[i]))
    && (forall i :: hi <= i < |s| ==> IsSpace(s[i]))
  }

  lemma {:induction false} TrimLeftSpec(s: string)
    ensures var r := TrimLeft(s);
            && SpaceAround(s, r, |s| - |r|, |s|)
            && (r == [] || !IsSpace(r[0]))
  {
    if s != [] && IsSpace(s[0]) {
      TrimLeftSpec(s[1..]);
      var r := TrimLeft(s[1..]);
      assert s[1..][|s| - 1 - |r|..] == s[|s| - |r|..];
      forall i | 0 <= i < |s| - |r| ensures IsSpace(s[i]) {
        if i > 0 { assert s[i] == s[1..][i - 1]; }
      }
    }
  }

  lemma {:induction false} TrimRightSpec(s: string)
    ensures var r := TrimRight(s);
            && SpaceAround(s, r, 0, |r|)
            && (r == [] || !IsSpace(r[|r| - 1]))
  {
    if s != [] && IsSpace(s[|s| - 1]) {
      var t := s[..|s| - 1];
      TrimRightSpec(t);
      var r := TrimRight(t);
      assert t[..|r|] == s[..|r|];
      forall i | |r| <= i < |s| ensures IsSpace(s[i]) {
        if i < |s| - 1 { assert s[i] == t[i]; }
      }
    }
  }

  /**
   * strings.TrimSpace: the result is the slice left after removing every
   * leading and trailing white-space character, and it neither starts nor
   * ends with one.
   */
  lemma TrimSpaceSpec(s: string)
    ensures exists lo, hi :: SpaceAround(s, TrimSpace(s), lo, hi)
    ensures Trimmed(TrimSpace(s))
  {
    var l := TrimLeft(s);
    var r := TrimRight(l);
    TrimLeftSpec(s);
    TrimRightSpec(l);
    var lo := |s| - |l|;
    assert r == s[lo..lo + |r|];
    forall i | lo + |r| <= i < |s| ensures IsSpace(s[i]) {
      assert s[i] == l[i - lo];
    }
    assert TrimSpace(s) == r;
    assert SpaceAround(s, TrimSpace(s), lo, lo + |r|);
  }

  /** ASCII lower-casing: the folding the model uses for strings.EqualFold. */
  function Lower(c: char): char {
    if 'A' <= c <= 'Z' then (c as int + 32) as char else c
  }

  /** strings.EqualFold, restricted to ASCII case folding. */
  predicate EqualFold(a: string, b: string) {
    if a == [] || b == [] then a == b
    else Lower(a[0]) == Lower(b[0]) && EqualFold(a[1..], b[1..])
  }

  lemma {:induction false} EqualFoldIff(a: string, b: string)
    ensures EqualFold(a, b) <==> |a| == |b| && forall i :: 0 <= i < |a| ==> Lower(a[i]) == Lower(b[i])
    decreases |a|
  {
    if a != [] && b != [] {
      EqualFoldIff(a[1..], b[1..]);
      if |a| == |b| && forall i :: 0 <= i < |a| ==> Lower(a[i]) == Lower(b[i]) {
        assert forall i :: 0 <= i < |a| - 1 ==> Lower(a[1..][i]) == Lower(b[1..][i]) by {
          forall i | 0 <= i < |a| - 1 ensures Lower(a[1..][i]) == Lower(b[1..][i]) {
            assert Lower(a[i + 1]) == Lower(b[i + 1]);
          }
        }
      }
    }
  }

  /** Number of occurrences of `c` in `s`: strings.Count for a one-character separator. */
  function Count(s: string, c: char): nat {
    if s == [] then 0 else (if s[0] == c then 1 else 0) + Count(s[1..], c)
  }

  lemma {:induction false} CountAppend(a: string, b: string, c: char)
    ensures Count(a + b, c) == Count(a, c) + Count(b, c)
  {
    if a != [] {
      assert (a + b)[1..] == a[1..] + b;
      CountAppend(a[1..], b, c);
    } else {
      assert a + b == b;
    }
  }

  lemma {:induction false} CountZero(s: string, c: char)
    ensures Count(s, c) == 0 <==> c !in s
  {
    if s != [] {
      CountZero(s[1..], c);
      assert c in s <==> s[0] == c || c in s[1..];
    }
  }

  /** strings.Join(parts, ""). */
  function Concat(parts: seq<string>): string {
    if parts == [] then [] else parts[0] + Concat(parts[1..])
  }

  lemma {:induction false} ConcatAppend(a: seq<string>, b: seq<string>)
    ensures Concat(a + b) == Concat(a) + Concat(b)
  {
    if a != [] {
      assert (a + b)[1..] == a[1..] + b;
      ConcatAppend(a[1..], b);
    } else {
      assert a + b == b;
    }
  }

  /**
   * strings.SplitAfter(s, [sep]): cuts `s` after every `sep`; the pieces,
   * joined again, give back `s`, and there is one more piece than `sep`s.
   */
  function SplitAfter(s: string, sep: char): (parts: seq<string>)
    ensures |parts| == Count(s, sep) + 1
    ensures Concat(parts) == s
  {
    if s == [] then [[]]
    else
      var rest := SplitAfter(s[1..], sep);
      if s[0] == sep then [[s[0]]] + rest
      else [[s[0]] + rest[0]] + rest[1..]
  }

  /** A piece that ends with `sep` and holds no other `sep`. */
  predicate Terminated(piece: string, sep: char) {
    piece != [] && piece[|piece| - 1] == sep && sep !in piece[..|piece| - 1]
  }

  /** Every piece but the last is terminated by `sep`; the last one holds no `sep`. */
  lemma {:induction false} SplitAfterPieces(s: string, sep: char)
    ensures forall i :: 0 <= i < |SplitAfter(s, sep)| - 1 ==> Terminated(SplitAfter(s, sep)[i], sep)
    ensures sep !in SplitAfter(s, sep)[|SplitAfter(s, sep)| - 1]
  {
    if s != [] {
      SplitAfterPieces(s[1..], sep);
      var rest := SplitAfter(s[1..], sep);
      var parts := SplitAfter(s, sep);
      if s[0] == sep {
        assert parts == [[s[0]]] + rest;
        assert forall i :: 1 <= i < |parts| ==> parts[i] == rest[i - 1];
      } else {
        assert parts == [[s[0]] + rest[0]] + rest[1..];
        if |rest| > 1 {
          var p := [s[0]] + rest[0];
          assert p[..|p| - 1] == [s[0]] + rest[0][..|rest[0]| - 1];
        }
        assert forall i :: 1 <= i < |parts| ==> parts[i] == rest[i];
      }
    }
  }

  /** A string without `sep` is a single piece. */
  lemma {:induction false} SplitAfterWhole(w: string, sep: char)
    requires sep !in w
    ensures SplitAfter(w, sep) == [w]
  {
    if w != [] {
      assert w[0] in w && w[1..] <= w[1..];
      assert forall c :: c in w[1..] ==> c in w;
      SplitAfterWhole(w[1..], sep);
      assert [w[0]] + w[1..] == w;
    }
  }

  /** A first piece `w` + `sep`, with no `sep` inside `w`, is cut off from the rest. */
  lemma {:induction false} SplitAfterFirst(w: string, sep: char, rest: string)
    requires sep !in w
    ensures SplitAfter(w + [sep] + rest, sep) == [w + [sep]] + SplitAfter(rest, sep)
  {
    if w == [] {
      assert w + [sep] + rest == [sep] + rest;
      assert ([sep] + rest)[1..] == rest;
    } else {
      SplitAfterFirst(w[1..], sep, rest);
      assert (w + [sep] + rest)[1..] == w[1..] + [sep] + rest;
      assert [w[0]] + (w[1..] + [sep]) == w + [sep];
    }
  }
}
