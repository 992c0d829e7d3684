/** The vocabulary of `internal/store/store.go`: rules, buckets, keys and results. */
module Store {
  import opened Prelude

  datatype Rule = Rule(limit: int, window: int, block: int) {
    predicate Valid() {
      limit > 0 && window > 0 && block > 0
    }
  }

  datatype Bucket = Bucket(rate: int, burst: int) {
    predicate Valid() {
      rate > 0 && burst > 0
    }
  }

  datatype Key = Key(limiter: string, bucket: string) {
    function String(): string {
      limiter + ":" + bucket
    }
  }

  datatype Result = Result(blocked: bool, count: int, retryAfter: int)

  datatype TakeResult = TakeResult(allowed: bool, remaining: int, retryAfter: int)

  predicate IsBrace(c: char) {
    c == '{' || c == '}'
  }

  predicate BraceFree(s: string) {
    forall i :: 0 <= i < |s| ==> !IsBrace(s[i])
  }

  /** Strips both braces. */
  function SanitizeBucket(s: string): (r: string)
    ensures BraceFree(r)
    ensures BraceFree(s) <==> r == s
    ensures |r| <= |s|
  {
    if s == [] then []
    else
      var rest := SanitizeBucket(s[1..]);
      assert BraceFree(s) <==> !IsBrace(s[0]) && BraceFree(s[1..]) by {
        if !IsBrace(s[0]) && BraceFree(s[1..]) {
          forall i | 0 <= i < |s| ensures !IsBrace(s[i]) {
            if i > 0 { assert s[i] == s[1..][i - 1]; }
          }
        }
      }
      if IsBrace(s[0]) then
        assert |rest| < |s|;
        rest
      else
        assert s == [s[0]] + s[1..];
        [s[0]] + rest
  }

  /** Stripping works character by character, so it commutes with concatenation. */
  lemma {:induction false} SanitizeConcat(s: string, t: string)
    ensures SanitizeBucket(s + t) == SanitizeBucket(s) + SanitizeBucket(t)
  {
    if s == [] {
      assert s + t == t;
    } else {
      assert (s + t)[1..] == s[1..] + t;
      SanitizeConcat(s[1..], t);
    }
  }

  /** Braces go and every other character stays; with the law above this fixes the result for every string. */
  lemma SanitizeChar(c: char)
    ensures SanitizeBucket([c]) == if c == '{' || c == '}' then "" else [c]
  {
    assert [c][1..] == [];
  }

  predicate IsNameStart(c: char) {
    'a' <= c <= 'z' || '0' <= c <= '9'
  }

  /** The limiter names configuration accepts: ^[a-z0-9][a-z0-9_-]*$. */
  predicate ValidName(s: string) {
    |s| > 0 && IsNameStart(s[0]) && forall i :: 0 <= i < |s| ==> IsNameStart(s[i]) || s[i] == '_' || s[i] == '-'
  }
}
