/** How `redisstore.go` turns a Key into Redis keys, and why no two keys collide. */
module StorageKeys {
  import opened Prelude
  import opened Store

  function Base(prefix: string, key: Key): string {
    prefix + key.limiter + ":{" + SanitizeBucket(key.bucket) + "}"
  }

  function CounterKey(prefix: string, key: Key): string {
    Base(prefix, key) + ":c"
  }

  function BlockKey(prefix: string, key: Key): string {
    Base(prefix, key) + ":b"
  }

  function BucketKey(prefix: string, key: Key): string {
    Base(prefix, key) + ":tb"
  }

  /** Two keys that the store cannot tell apart. */
  predicate SameStorage(k: Key, l: Key) {
    k.limiter == l.limiter && SanitizeBucket(k.bucket) == SanitizeBucket(l.bucket)
  }

  predicate HasSuffix(s: string, t: string) {
    |t| <= |s| && s[|s| - |t|..] == t
  }

  lemma SuffixOfConcat(s: string, t: string)
    ensures HasSuffix(s + t, t)
  {
    assert (s + t)[|s + t| - |t|..] == t;
  }

  /** The three suffixes keep the kinds of key apart. */
  lemma KindsDisjoint(s: string)
    ensures !(HasSuffix(s, ":c") && HasSuffix(s, ":b"))
    ensures !(HasSuffix(s, ":c") && HasSuffix(s, ":tb"))
    ensures !(HasSuffix(s, ":b") && HasSuffix(s, ":tb"))
  {
    if HasSuffix(s, ":c") {
      assert s[|s| - 2..][1] == 'c';
    }
    if HasSuffix(s, ":b") {
      assert s[|s| - 2..][1] == 'b' && s[|s| - 2..][0] == ':';
    }
    if HasSuffix(s, ":tb") {
      assert s[|s| - 3..][2] == 'b' && s[|s| - 3..][1] == 't';
    }
  }

  /** A separator that occurs in neither head splits a string one way only. */
  lemma SplitUnique(x: string, u: string, y: string, v: string, sep: char)
    requires sep !in x && sep !in y
    requires x + [sep] + u == y + [sep] + v
    ensures x == y && u == v
  {
    var s := x + [sep] + u;
    assert s[|x|] == sep && s[|y|] == sep;
    assert |x| == |y|;
    assert x == s[..|x|] && y == s[..|y|];
    assert u == s[|x| + 1..] && v == s[|y| + 1..];
  }

  lemma NameHasNo(s: string, c: char)
    requires ValidName(s) && (c == ':' || c == '{' || c == '}')
    ensures c !in s
  {
  }

  lemma StripEnds(prefix: string, x: string, y: string, suffix: string)
    requires prefix + x + suffix == prefix + y + suffix
    ensures x == y
  {
    assert |x| == |y|;
    assert x == (prefix + x + suffix)[|prefix|..|prefix| + |x|];
    assert y == (prefix + y + suffix)[|prefix|..|prefix| + |y|];
  }

  /** The base determines the limiter and the sanitised bucket. */
  lemma BaseInjective(prefix: string, k: Key, l: Key)
    requires ValidName(k.limiter) && ValidName(l.limiter)
    requires Base(prefix, k) == Base(prefix, l)
    ensures SameStorage(k, l)
  {
    NameHasNo(k.limiter, ':');
    NameHasNo(l.limiter, ':');
    var u, v := "{" + SanitizeBucket(k.bucket), "{" + SanitizeBucket(l.bucket);
    var x, y := k.limiter + [':'] + u, l.limiter + [':'] + v;
    assert Base(prefix, k) == prefix + x + "}";
    assert Base(prefix, l) == prefix + y + "}";
    StripEnds(prefix, x, y, "}");
    SplitUnique(k.limiter, u, l.limiter, v, ':');
    assert SanitizeBucket(k.bucket) == u[1..] == v[1..] == SanitizeBucket(l.bucket);
  }

  datatype Kind = Counter | Block | Tokens

  function StorageKey(prefix: string, key: Key, kind: Kind): string {
    match kind
    case Counter => CounterKey(prefix, key)
    case Block => BlockKey(prefix, key)
    case Tokens => BucketKey(prefix, key)
  }

  function Suffix(kind: Kind): string {
    match kind
    case Counter => ":c"
    case Block => ":b"
    case Tokens => ":tb"
  }

  /** One storage key belongs to one limiter, one sanitised bucket and one kind, and conversely. */
  lemma StorageKeyInjective(prefix: string, k: Key, kind: Kind, l: Key, kind': Kind)
    requires ValidName(k.limiter) && ValidName(l.limiter)
    ensures StorageKey(prefix, k, kind) == StorageKey(prefix, l, kind') <==> SameStorage(k, l) && kind == kind'
  {
    var s, t := StorageKey(prefix, k, kind), StorageKey(prefix, l, kind');
    SuffixOfConcat(Base(prefix, k), Suffix(kind));
    SuffixOfConcat(Base(prefix, l), Suffix(kind'));
    if s == t {
      KindsDisjoint(s);
      assert kind == kind';
      assert Base(prefix, k) == s[..|s| - |Suffix(kind)|];
      assert Base(prefix, l) == t[..|t| - |Suffix(kind)|];
      BaseInjective(prefix, k, l);
    }
  }

  /** Log and cache keys do not collide either: here the raw bucket counts. */
  lemma KeyStringInjective(k: Key, l: Key)
    requires ValidName(k.limiter) && ValidName(l.limiter)
    ensures k.String() == l.String() <==> k == l
  {
    NameHasNo(k.limiter, ':');
    NameHasNo(l.limiter, ':');
    if k.String() == l.String() {
      assert k.String() == k.limiter + [':'] + k.bucket;
      assert l.String() == l.limiter + [':'] + l.bucket;
      SplitUnique(k.limiter, k.bucket, l.limiter, l.bucket, ':');
    }
  }

  /** First index of c at or after i, or |s|. */
  function IndexFrom(s: string, c: char, i: nat): (j: nat)
    requires i <= |s|
    ensures i <= j <= |s|
    ensures j < |s| ==> s[j] == c
    ensures forall m :: i <= m < j ==> s[m] != c
    decreases |s| - i
  {
    if i == |s| || s[i] == c then i else IndexFrom(s, c, i + 1)
  }

  /**
   * The part of a key that Redis Cluster hashes ("Hash tags" in the cluster specification): what
   * lies between the first '{' and the first '}' after it, unless that is empty or missing, in
   * which case the whole key.
   */
  function HashTag(s: string): string {
    var i := IndexFrom(s, '{', 0);
    if i == |s| then s
    else
      var j := IndexFrom(s, '}', i + 1);
      if j == |s| || j == i + 1 then s else s[i + 1..j]
  }

  lemma HashTagBetween(head: string, tag: string, rest: string)
    requires '{' !in head && '}' !in tag
    ensures
      var s := head + ['{'] + tag + ['}'] + rest;
      HashTag(s) == if tag == "" then s else tag
  {
    var s := head + ['{'] + tag + ['}'] + rest;
    var open, close := |head|, |head| + 1 + |tag|;
    assert s[open] == '{' && s[close] == '}';
    assert s[open + 1..close] == tag;
    assert forall m :: 0 <= m < open ==> s[m] == head[m];
    assert forall m :: open < m < close ==> s[m] == tag[m - open - 1];
    assert IndexFrom(s, '{', 0) == open;
    assert IndexFrom(s, '}', open + 1) == close;
  }

  lemma HashTagOf(prefix: string, key: Key, suffix: string)
    requires BraceFree(prefix) && ValidName(key.limiter)
    ensures
      var s := Base(prefix, key) + suffix;
      HashTag(s) == if SanitizeBucket(key.bucket) == "" then s else SanitizeBucket(key.bucket)
  {
    NameHasNo(key.limiter, '{');
    var tag := SanitizeBucket(key.bucket);
    var head := prefix + key.limiter + ":";
    assert Base(prefix, key) + suffix == head + ['{'] + tag + ['}'] + suffix;
    HashTagBetween(head, tag, suffix);
  }

  /**
   * The counter and the block marker of a key hash to one cluster slot exactly when the sanitised
   * bucket is not empty. A bucket made only of braces leaves two different whole keys to hash.
   */
  lemma SameSlot(prefix: string, key: Key)
    requires BraceFree(prefix) && ValidName(key.limiter)
    ensures HashTag(CounterKey(prefix, key)) == HashTag(BlockKey(prefix, key)) <==> SanitizeBucket(key.bucket) != ""
  {
    HashTagOf(prefix, key, ":c");
    HashTagOf(prefix, key, ":b");
    StorageKeyInjective(prefix, key, Counter, key, Block);
  }
}
