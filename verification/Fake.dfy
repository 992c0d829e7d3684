/**
 * The in-memory store of `storetest/fake.go`. It keeps different state from Redis: it forgets blocks
 * lazily and never expires a bucket. FakeWindows and FakeTokens say when it gives the same answers.
 */
module Fake {
  import opened Prelude
  import opened Store
  import opened StorageKeys
  import opened Redis
  import opened StoreRuns

  /** Tokens in billionths, which makes every refill an integer whatever the nanosecond. */
  datatype BucketState = BucketState(tokens: int, ts: int)

  /** What the fake holds under one key. */
  datatype FakeCell = FakeCell(count: Option<int>, expires: Option<int>, blocked: Option<int>)

  function ConsumeCell(f: FakeCell, rule: Rule, now: int): (FakeCell, Result) {
    if f.blocked.Some? && now < f.blocked.value then
      (f, Result(true, -1, f.blocked.value - now))
    else
      var rolled := f.expires.None? || now >= f.expires.value;
      var count := (if rolled || f.count.None? then 0 else f.count.value) + 1;
      var expires := if rolled then now + rule.window else f.expires.value;
      if count > rule.limit then
        (FakeCell(None, None, Some(now + rule.block)), Result(true, count, rule.block))
      else
        (FakeCell(Some(count), Some(expires), None), Result(false, count, 0))
  }

  /** The tokens a take finds; they are capped only when time has passed. */
  function TokensFound(f: Option<BucketState>, b: Bucket, now: int): int {
    if f.None? then b.burst * SECOND
    else if now > f.value.ts then Min(b.burst * SECOND, f.value.tokens + (now - f.value.ts) * b.rate)
    else f.value.tokens
  }

  function TakeState(f: Option<BucketState>, b: Bucket, now: int): BucketState {
    var tokens := TokensFound(f, b, now);
    BucketState(if tokens >= SECOND then tokens - SECOND else tokens, now)
  }

  /** The wait for a missing part of a token, cut to a nanosecond. Dividing by a zero rate gives an
   *  infinity, and `infinite` is whatever the platform converts that to. */
  function Wait(missing: int, rate: int, infinite: int): int
    requires missing > 0
  {
    if rate == 0 then infinite else if rate > 0 then missing / rate else -(missing / -rate)
  }

  /** The wait is the exact quotient cut towards zero, with the sign of the rate. */
  lemma WaitMeaning(missing: int, rate: int, infinite: int)
    requires missing > 0 && rate != 0
    ensures
      var wait, cut := Wait(missing, rate, infinite), missing - Wait(missing, rate, infinite) * rate;
      0 <= cut && (rate > 0 ==> wait >= 0 && cut < rate) && (rate < 0 ==> wait <= 0 && cut < -rate)
  {
    var size := if rate > 0 then rate else -rate;
    var quotient := missing / size;
    assert missing == quotient * size + missing % size;
    if quotient < 0 {
      MulMonotone(quotient, -1, size);
      assert false;
    }
    assert Wait(missing, rate, infinite) * rate == quotient * size;
  }

  function TakeAnswer(f: Option<BucketState>, b: Bucket, now: int, infinite: int): TakeResult {
    var tokens := TokensFound(f, b, now);
    if tokens >= SECOND then TakeResult(true, (tokens - SECOND) / SECOND, 0)
    else TakeResult(false, 0, Wait(SECOND - tokens, b.rate, infinite))
  }

  datatype State = State(counts: map<string, int>, expires: map<string, int>, blocked: map<string, int>,
                         buckets: map<string, BucketState>)
  {
    function Cell(k: string): FakeCell {
      FakeCell(Get(counts, k), Get(expires, k), Get(blocked, k))
    }

    function WithCell(k: string, c: FakeCell): State {
      State(Put(counts, k, c.count), Put(expires, k, c.expires), Put(blocked, k, c.blocked), buckets)
    }
  }

  class FakeStore {
    var counts: map<string, int>
    var expires: map<string, int>
    var blocked: map<string, int>
    var buckets: map<string, BucketState>
    var failing: bool
    var calls: nat

    constructor ()
      ensures Value() == State(map[], map[], map[], map[]) && !failing && calls == 0
    {
      counts, expires, blocked, buckets := map[], map[], map[], map[];
      failing, calls := false, 0;
    }

    ghost function Value(): State
      reads this
    {
      State(counts, expires, blocked, buckets)
    }

    /** Rolls the window over when it has ended, then counts one request. */
    method CountOne(k: string, window: int, now: int) returns (count: int)
      modifies this`counts, this`expires
      ensures
        var rolled := k !in old(expires) || now >= old(expires)[k];
        && count == (if rolled || k !in old(counts) then 0 else old(counts)[k]) + 1
        && counts == old(counts)[k := count]
        && expires == old(expires)[k := if rolled then now + window else old(expires)[k]]
    {
      if k !in expires || now >= expires[k] {
        counts := counts[k := 0];
        expires := expires[k := now + window];
      }
      count := (if k in counts then counts[k] else 0) + 1;
      counts := counts[k := count];
    }

    /** `Consume` once the store is known to work. */
    method ConsumeAt(k: string, rule: Rule, now: int) returns (r: Result)
      modifies this`counts, this`expires, this`blocked
      ensures
        var (c, answer) := ConsumeCell(FakeCell(Get(old(counts), k), Get(old(expires), k), Get(old(blocked), k)), rule, now);
        && r == answer
        && counts == Put(old(counts), k, c.count)
        && expires == Put(old(expires), k, c.expires)
        && blocked == Put(old(blocked), k, c.blocked)
    {
      if k in blocked {
        if now < blocked[k] {
          PutGet(counts, k);
          PutGet(expires, k);
          PutGet(blocked, k);
          return Result(true, -1, blocked[k] - now);
        }
        blocked := blocked - {k};
      }
      assert blocked == old(blocked) - {k};
      var count := CountOne(k, rule.window, now);
      if count > rule.limit {
        blocked := blocked[k := now + rule.block];
        counts := counts - {k};
        expires := expires - {k};
        assert blocked == old(blocked)[k := now + rule.block];
        assert counts == old(counts) - {k} && expires == old(expires) - {k};
        return Result(true, count, rule.block);
      }
      return Result(false, count, 0);
    }

    method Consume(key: Key, rule: Rule, now: int) returns (r: Outcome<Result>)
      modifies this
      ensures calls == old(calls) + 1 && failing == old(failing)
      ensures failing ==> r == Err && Value() == old(Value())
      ensures !failing ==>
                var (c, answer) := ConsumeCell(old(Value()).Cell(key.String()), rule, now);
                r == Ok(answer) && Value() == old(Value()).WithCell(key.String(), c)
    {
      calls := calls + 1;
      if failing {
        return Err;
      }
      var answer := ConsumeAt(key.String(), rule, now);
      return Ok(answer);
    }

    method Take(key: Key, bucket: Bucket, now: int, infinite: int) returns (r: Outcome<TakeResult>)
      modifies this
      ensures calls == old(calls) + 1 && failing == old(failing)
      ensures failing ==> r == Err && Value() == old(Value())
      ensures !failing ==>
                var f := Get(old(buckets), key.String());
                && r == Ok(TakeAnswer(f, bucket, now, infinite))
                && Value() == old(Value()).(buckets := old(buckets)[key.String() := TakeState(f, bucket, now)])
    {
      calls := calls + 1;
      if failing {
        return Err;
      }
      var k := key.String();
      var b := if k in buckets then buckets[k] else BucketState(bucket.burst * SECOND, now);
      var elapsed := now - b.ts;
      if elapsed > 0 {
        b := b.(tokens := b.tokens + elapsed * bucket.rate);
        if b.tokens > bucket.burst * SECOND {
          b := b.(tokens := bucket.burst * SECOND);
        }
      }
      b := b.(ts := now);
      if b.tokens >= SECOND {
        b := b.(tokens := b.tokens - SECOND);
        buckets := buckets[k := b];
        return Ok(TakeResult(true, b.tokens / SECOND, 0));
      }
      buckets := buckets[k := b];
      return Ok(TakeResult(false, 0, Wait(SECOND - b.tokens, bucket.rate, infinite)));
    }
  }

  // ---------------------------------------------------------------- runs

  /** The fake after the first n calls of a run. */
  function FakeAt(r: Run, n: nat): State
    requires n <= |r.events|
  {
    if n == 0 then State(map[], map[], map[], map[])
    else
      var f, e := FakeAt(r, n - 1), r.events[n - 1];
      var k := e.call.key.String();
      match e.call
      case ConsumeCall(_, rule) => f.WithCell(k, ConsumeCell(f.Cell(k), rule, e.now).0)
      case TakeCall(_, bucket) => f.(buckets := f.buckets[k := TakeState(Get(f.buckets, k), bucket, e.now)])
  }

  lemma FakeStep(r: Run, n: nat, key: Key)
    requires r.Valid() && n < |r.events| && ValidName(key.limiter)
    ensures
      var e, k := r.events[n], key.String();
      var f, f' := FakeAt(r, n), FakeAt(r, n + 1);
      && f'.Cell(k) == (if e.call.ConsumeCall? && e.call.key == key then ConsumeCell(f.Cell(k), e.call.rule, e.now).0
                        else f.Cell(k))
      && Get(f'.buckets, k) == (if e.call.TakeCall? && e.call.key == key
                                then Some(TakeState(Get(f.buckets, k), e.call.bucket, e.now))
                                else Get(f.buckets, k))
  {
    hide ConsumeCell, TakeState;
    KeyStringInjective(r.events[n].call.key, key);
  }

  /**
   * Redis strips braces from a bucket and the fake does not, so two keys may share their Redis keys
   * and not their place in the fake. None of the first n calls does that to this key.
   */
  predicate Unaliased(r: Run, key: Key, n: nat)
    requires n <= |r.events|
  {
    forall i :: 0 <= i < n && SameStorage(r.events[i].call.key, key) ==> r.events[i].call.key == key
  }

  lemma BraceFreeIsUnaliased(r: Run, key: Key, n: nat)
    requires n <= |r.events| && BraceFree(key.bucket)
    requires forall i :: 0 <= i < n ==> BraceFree(r.events[i].call.key.bucket)
    ensures Unaliased(r, key, n)
  {
  }
}
