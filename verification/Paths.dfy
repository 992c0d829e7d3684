/** Path and method scoping, `matchesPath` and `matchesMethod` of `limiter.go`, with ASCII case folding. */
module Paths {
  import opened Prelude
  import opened StorageKeys

  function LowerChar(c: char): char {
    if 'A' <= c <= 'Z' then (c as int + 32) as char else c
  }

  function Lower(s: string): (r: string)
    ensures |r| == |s|
    ensures forall i :: 0 <= i < |s| ==> r[i] == LowerChar(s[i])
  {
    seq(|s|, i requires 0 <= i < |s| => LowerChar(s[i]))
  }

  predicate HasPrefix(s: string, t: string) {
    |t| <= |s| && s[..|t|] == t
  }

  /** Drops one trailing slash, but never the root's. */
  function NormalisePath(p: string): string {
    if |p| > 1 && p[|p| - 1] == '/' then p[..|p| - 1] else p
  }

  /** Does one pattern of the configuration cover a request path? */
  predicate PatternMatches(pattern: string, path: string) {
    var target, p := Lower(NormalisePath(path)), Lower(pattern);
    if HasSuffix(p, "/*") then
      var base := p[..|p| - 2];
      base == "" || target == base || HasPrefix(target, base + "/")
    else
      target == NormalisePath(p)
  }

  predicate PathInScope(patterns: seq<string>, path: string) {
    patterns == [] || exists i :: 0 <= i < |patterns| && PatternMatches(patterns[i], path)
  }

  predicate MethodInScope(methods: seq<string>, m: string) {
    methods == [] || exists i :: 0 <= i < |methods| && Lower(methods[i]) == Lower(m)
  }

  /** The search as the source writes it: fold once, then try each pattern in turn. */
  method MatchesPath(patterns: seq<string>, path: string) returns (found: bool)
    ensures found == PathInScope(patterns, path)
  {
    if |patterns| == 0 {
      return true;
    }
    var target := Lower(NormalisePath(path));
    for i := 0 to |patterns|
      invariant forall j :: 0 <= j < i ==> !PatternMatches(patterns[j], path)
    {
      var p := Lower(patterns[i]);
      if HasSuffix(p, "/*") {
        var base := p[..|p| - 2];
        if base == "" || target == base || HasPrefix(target, base + "/") {
          assert PatternMatches(patterns[i], path);
          return true;
        }
      } else if target == NormalisePath(p) {
        assert PatternMatches(patterns[i], path);
        return true;
      }
      assert !PatternMatches(patterns[i], path);
    }
    return false;
  }

  method MatchesMethod(methods: seq<string>, m: string) returns (found: bool)
    ensures found == MethodInScope(methods, m)
  {
    if |methods| == 0 {
      return true;
    }
    for i := 0 to |methods|
      invariant forall j :: 0 <= j < i ==> Lower(methods[j]) != Lower(m)
    {
      if Lower(methods[i]) == Lower(m) {
        return true;
      }
    }
    return false;
  }

  // ---------------------------------------------------------------- segments

  /** The parts of a path between its slashes. */
  function Segments(s: string): (r: seq<string>)
    ensures |r| > 0
    decreases |s|
  {
    var i := IndexFrom(s, '/', 0);
    if i == |s| then [s] else [s[..i]] + Segments(s[i + 1..])
  }

  predicate Under(base: string, path: string) {
    path == base || HasPrefix(path, base + "/")
  }

  lemma UnderTail(head: string, base: string, path: string)
    ensures Under(head + ['/'] + base, head + ['/'] + path) <==> Under(base, path)
  {
    var h := head + ['/'];
    assert h + base + "/" == h + (base + "/");
    assert path == (h + path)[|h|..] && base == (h + base)[|h|..];
    if HasPrefix(h + path, h + (base + "/")) {
      assert path[..|base| + 1] == (h + path)[..|h| + |base| + 1][|h|..];
      assert base + "/" == (h + (base + "/"))[|h|..];
    }
    if HasPrefix(path, base + "/") {
      assert (h + path)[..|h| + |base| + 1] == h + path[..|base| + 1];
    }
  }

  /** A separator-aware prefix of the string is a prefix of the list of segments. */
  lemma {:induction false} UnderIsSegmentPrefix(base: string, path: string)
    ensures Under(base, path) <==> Segments(base) <= Segments(path)
    decreases |base|
  {
    var i, j := IndexFrom(base, '/', 0), IndexFrom(path, '/', 0);
    var rest, tail := base[if i < |base| then i + 1 else i..], path[if j < |path| then j + 1 else j..];
    if i == |base| {
      FirstSegment(base, path);
      assert Segments(base) == [base];
      assert Segments(base) <= Segments(path) <==> Segments(path)[0] == base;
    } else {
      var head := base[..i];
      assert base == head + ['/'] + rest;
      assert Segments(base) == [head] + Segments(rest);
      if j < |path| && path[..j] == head {
        assert path == head + ['/'] + tail;
        assert Segments(path) == [head] + Segments(tail);
        assert Segments(path)[1..] == Segments(tail) && Segments(base)[1..] == Segments(rest);
        PrefixTail(head, Segments(rest), Segments(tail));
        UnderIsSegmentPrefix(rest, tail);
        UnderTail(head, rest, tail);
      } else {
        SameHead(base, path, i, j);
      }
    }
  }

  lemma PrefixTail(x: string, a: seq<string>, b: seq<string>)
    ensures [x] + a <= [x] + b <==> a <= b
  {
    if [x] + a <= [x] + b {
      assert a == ([x] + a)[1..] && b == ([x] + b)[1..];
      assert forall i :: 0 <= i < |a| ==> a[i] == ([x] + a)[i + 1] == ([x] + b)[i + 1] == b[i];
    }
  }

  lemma FirstSegment(base: string, path: string)
    requires '/' !in base
    ensures Under(base, path) <==> Segments(path)[0] == base
  {
    var j := IndexFrom(path, '/', 0);
    assert Segments(path)[0] == path[..j];
    if Under(base, path) {
      if path != base {
        assert path[|base|] == path[..|base| + 1][|base|] == '/';
        assert path[..|base|] == path[..|base| + 1][..|base|] == base;
        assert forall m :: 0 <= m < |base| ==> path[m] == base[m];
      } else {
        assert forall m :: 0 <= m < |path| ==> path[m] != '/';
      }
      assert j == |base|;
    }
    if path[..j] == base && path != base {
      assert path[..j + 1] == base + "/";
    }
  }

  /** Either reading of "under" fixes the first segment of the path. */
  lemma SameHead(base: string, path: string, i: nat, j: nat)
    requires i == IndexFrom(base, '/', 0) < |base| && j == IndexFrom(path, '/', 0)
    ensures Under(base, path) || Segments(base) <= Segments(path) ==> j < |path| && path[..j] == base[..i]
  {
    if Segments(base) <= Segments(path) {
      assert Segments(base)[0] == base[..i] && Segments(path)[0] == path[..j];
      assert |Segments(base)| > 1;
    } else if Under(base, path) {
      if path != base {
        assert path[..|base|] == path[..|base| + 1][..|base|] == base;
      }
      assert forall m :: 0 <= m <= i ==> path[m] == path[..|base|][m] == base[m];
      assert j == i;
      assert path[..j] == path[..|base|][..j];
    }
  }

  lemma SuffixLower(p: string)
    ensures HasSuffix(Lower(p), "/*") <==> HasSuffix(p, "/*")
  {
    if |p| >= 2 {
      var t, u := p[|p| - 2..], Lower(p)[|p| - 2..];
      assert u[0] == LowerChar(t[0]) && u[1] == LowerChar(t[1]);
      assert t == [t[0], t[1]] && u == [u[0], u[1]];
    }
  }

  lemma NormaliseLower(p: string)
    ensures Lower(NormalisePath(p)) == NormalisePath(Lower(p))
  {
    if |p| > 1 {
      assert Lower(p)[|p| - 1] == '/' <==> p[|p| - 1] == '/';
    }
  }

  // ---------------------------------------------------------------- case

  /** The two cases of one letter. */
  predicate TwoCases(c: char, d: char) {
    'A' <= c <= 'Z' && 'a' <= d <= 'z' && c as int - 'A' as int == d as int - 'a' as int
  }

  predicate SameLetter(c: char, d: char) {
    c == d || TwoCases(c, d) || TwoCases(d, c)
  }

  /** The same string up to the case of its ASCII letters. */
  predicate SameButCase(s: string, t: string) {
    |s| == |t| && forall i :: 0 <= i < |s| ==> SameLetter(s[i], t[i])
  }

  /** Folding identifies exactly those. */
  lemma FoldingIsCase(s: string, t: string)
    ensures Lower(s) == Lower(t) <==> SameButCase(s, t)
  {
    if Lower(s) == Lower(t) {
      forall i | 0 <= i < |s| ensures SameLetter(s[i], t[i]) {
        assert Lower(s)[i] == Lower(t)[i];
      }
    }
  }

  /** Folding leaves slashes and stars where they are. */
  lemma {:induction false} SegmentsLower(s: string)
    ensures |Segments(Lower(s))| == |Segments(s)|
    ensures forall i :: 0 <= i < |Segments(s)| ==> Segments(Lower(s))[i] == Lower(Segments(s)[i])
    decreases |s|
  {
    var i := IndexFrom(s, '/', 0);
    assert IndexFrom(Lower(s), '/', 0) == i;
    if i == |s| {
      assert Segments(s) == [s] && Segments(Lower(s)) == [Lower(s)];
    } else {
      var rest := s[i + 1..];
      assert Lower(s)[..i] == Lower(s[..i]) && Lower(s)[i + 1..] == Lower(rest);
      assert Segments(s) == [s[..i]] + Segments(rest);
      assert Segments(Lower(s)) == [Lower(s[..i])] + Segments(Lower(rest));
      SegmentsLower(rest);
    }
  }

  /** The first list is, segment by segment and up to case, the beginning of the second. */
  predicate Begins(base: seq<string>, path: seq<string>) {
    |base| <= |path| && forall i :: 0 <= i < |base| ==> SameButCase(base[i], path[i])
  }

  /** What a pattern covers, said without folding: a subtree by its segments, any other path by its spelling. */
  predicate Covers(pattern: string, path: string) {
    if HasSuffix(pattern, "/*") then Begins(Segments(pattern[..|pattern| - 2]), Segments(NormalisePath(path)))
    else SameButCase(NormalisePath(pattern), NormalisePath(path))
  }

  lemma LowerBegins(base: string, path: string)
    ensures Segments(Lower(base)) <= Segments(Lower(path)) <==> Begins(Segments(base), Segments(path))
  {
    SegmentsLower(base);
    SegmentsLower(path);
    var a, b := Segments(base), Segments(path);
    var x, y := Segments(Lower(base)), Segments(Lower(path));
    hide Segments, Lower, SameButCase;
    forall i | 0 <= i < |a| && i < |b| ensures x[i] == y[i] <==> SameButCase(a[i], b[i]) {
      FoldingIsCase(a[i], b[i]);
    }
    if x <= y {
      assert forall i :: 0 <= i < |x| ==> x[i] == y[i];
    }
  }

  // What a pattern means, for a rooted path: "/x/*" covers exactly the paths whose segments begin with
  // those of "/x", and any other pattern exactly the path it spells, up to case and a trailing slash.
  lemma PatternMeaning(pattern: string, path: string)
    requires HasPrefix(path, "/")
    ensures PatternMatches(pattern, path) <==> Covers(pattern, path)
  {
    SuffixLower(pattern);
    var target := NormalisePath(path);
    if HasSuffix(pattern, "/*") {
      var base := pattern[..|pattern| - 2];
      assert Lower(pattern)[..|pattern| - 2] == Lower(base);
      RootedTarget(path);
      UnderIsSegmentPrefix(Lower(base), Lower(target));
      LowerBegins(base, target);
    } else {
      NormaliseLower(pattern);
      FoldingIsCase(target, NormalisePath(pattern));
      FoldingIsCase(NormalisePath(pattern), target);
    }
  }

  lemma RootedTarget(path: string)
    requires HasPrefix(path, "/")
    ensures Under("", Lower(NormalisePath(path)))
  {
    var target := Lower(NormalisePath(path));
    assert path[0] == path[..1][0] == '/';
    assert target[0] == '/';
    assert target[..1] == "" + "/";
  }

  /** So the search over a rooted path finds exactly whether some pattern covers it. */
  lemma ScopeMeaning(patterns: seq<string>, path: string)
    requires HasPrefix(path, "/")
    ensures PathInScope(patterns, path) <==> patterns == [] || exists i :: 0 <= i < |patterns| && Covers(patterns[i], path)
  {
    forall i | 0 <= i < |patterns| ensures PatternMatches(patterns[i], path) <==> Covers(patterns[i], path) {
      PatternMeaning(patterns[i], path);
    }
    hide PatternMatches, Covers;
  }

  lemma MethodMeaning(methods: seq<string>, m: string)
    ensures MethodInScope(methods, m) <==> methods == [] || exists i :: 0 <= i < |methods| && SameButCase(methods[i], m)
  {
    forall i | 0 <= i < |methods| ensures Lower(methods[i]) == Lower(m) <==> SameButCase(methods[i], m) {
      FoldingIsCase(methods[i], m);
    }
    hide Lower, SameButCase;
  }

  /** Case never matters, on either side, rooted path or not. */
  lemma CaseInvariant(patterns: seq<string>, others: seq<string>, path: string, other: string)
    requires |patterns| == |others| && forall i :: 0 <= i < |patterns| ==> SameButCase(patterns[i], others[i])
    requires SameButCase(path, other)
    ensures PathInScope(patterns, path) == PathInScope(others, other)
    ensures MethodInScope(patterns, path) == MethodInScope(others, other)
  {
    FoldingIsCase(path, other);
    NormaliseLower(path);
    NormaliseLower(other);
    forall i | 0 <= i < |patterns|
      ensures PatternMatches(patterns[i], path) == PatternMatches(others[i], other) && Lower(patterns[i]) == Lower(others[i])
    {
      FoldingIsCase(patterns[i], others[i]);
    }
    hide PatternMatches, Lower, SameButCase;
  }

  /** One trailing slash never matters, except after another one. */
  lemma SlashInvariant(patterns: seq<string>, path: string)
    requires path != ""
    ensures NormalisePath(path + "/") == NormalisePath(path) <==> |path| == 1 || path[|path| - 1] != '/'
    ensures |path| == 1 || path[|path| - 1] != '/' ==> PathInScope(patterns, path + "/") == PathInScope(patterns, path)
  {
    assert (path + "/")[..|path|] == path;
  }

  /** What `validatePaths` accepts. */
  predicate ValidPattern(p: string) {
    && p != "" && HasPrefix(p, "/")
    && '*' !in (if HasSuffix(p, "/*") then p[..|p| - 2] else p)
  }

  /** An accepted pattern is never dead: some request path falls under it. */
  lemma ValidPatternMatches(p: string) returns (path: string)
    requires ValidPattern(p)
    ensures HasPrefix(path, "/") && PatternMatches(p, path)
  {
    SuffixLower(p);
    if HasSuffix(p, "/*") {
      var base := p[..|p| - 2];
      path := base + "/x";
      assert Lower(p)[..|p| - 2] == Lower(base);
      assert Lower(path)[..|base| + 1] == Lower(base) + "/";
      assert path[0] == '/' by {
        if base != "" { assert p[0] == p[..1][0] == '/'; }
      }
      assert path[..1] == "/";
    } else {
      path := p;
      NormaliseLower(p);
    }
  }
}
