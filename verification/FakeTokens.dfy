/** When the fake's token bucket answers as the script does. */
module FakeTokens {
  import opened Prelude
  import opened Store
  import opened StorageKeys
  import opened Redis
  import opened StoreRuns
  import opened Fake
  import BucketRuns

  // ---------------------------------------------------------------- waits

  /** The script's wait is the fake's wait rounded up to the millisecond. */
  predicate SameAdvice(script: TakeResult, fake: TakeResult) {
    script.retryAfter == CeilDiv(fake.retryAfter, MILLISECOND) * MILLISECOND
  }

  /** Waits for a missing fraction of a token, in thousandths: the fake truncates to a nanosecond. */
  predicate WaitsAgree(missing: int, rate: int)
    requires rate > 0
  {
    CeilDiv(missing, rate) == CeilDiv(missing * MILLISECOND / rate, MILLISECOND)
  }

  /** The truncation shows exactly when less than a nanosecond is cut from a fraction of a millisecond. */
  lemma WaitsAgreeExactly(missing: int, rate: int)
    requires 0 < missing && rate > 0
    ensures WaitsAgree(missing, rate) <==> missing % rate == 0 || (missing % rate) * MILLISECOND >= rate
  {
    var q, rest := missing / rate, missing % rate;
    var cut := rest * MILLISECOND / rate;
    assert missing == q * rate + rest;
    CeilOfSum(q, rest, rate);
    assert missing * MILLISECOND == (q * MILLISECOND) * rate + rest * MILLISECOND;
    DivOfSum(q * MILLISECOND, rest * MILLISECOND, rate);
    CutRange(rest, rate);
    CeilOfSum(q, cut, MILLISECOND);
  }

  lemma CutRange(rest: int, rate: int)
    requires 0 <= rest < rate
    ensures 0 <= rest * MILLISECOND / rate < MILLISECOND
    ensures rest * MILLISECOND / rate > 0 <==> rest * MILLISECOND >= rate
  {
    var n := rest * MILLISECOND;
    var cut := n / rate;
    assert n == rate * cut + n % rate;
    if cut >= MILLISECOND { MulMonotone(MILLISECOND, cut, rate); assert false; }
    if cut < 0 { MulMonotone(cut, -1, rate); assert false; }
    if cut > 0 { MulMonotone(1, cut, rate); }
  }

  lemma CeilOfSum(q: int, rest: int, d: int)
    requires 0 <= rest < d
    ensures CeilDiv(q * d + rest, d) == q + if rest > 0 then 1 else 0
  {
    var up := q + if rest > 0 then 1 else 0;
    assert d * up == q * d + (if rest > 0 then d else 0);
    assert d * (up - 1) == d * up - d;
    CeilDivIs(q * d + rest, d, up);
  }

  lemma DivOfSum(q: int, rest: int, d: int)
    requires d > 0
    ensures (q * d + rest) / d == q + rest / d
  {
    var x, y := (q * d + rest) / d, q + rest / d;
    assert y * d == q * d + rest / d * d;
    if x < y { MulMonotone(x + 1, y, d); assert false; }
    if y < x { MulMonotone(y + 1, x, d); assert false; }
  }

  lemma CeilDivIs(n: int, d: int, q: int)
    requires d > 0 && d * (q - 1) < n <= d * q
    ensures CeilDiv(n, d) == q
  {
    CeilDivLeast(n, d, q);
    if CeilDiv(n, d) < q {
      MulMonotone(CeilDiv(n, d), q - 1, d);
      assert false;
    }
  }

  /** At most a million tokens a second, which configuration enforces, leaves nothing to cut. */
  lemma ConfiguredWaitsAgree(missing: int, rate: int)
    requires 0 < missing && 0 < rate <= MILLISECOND
    ensures WaitsAgree(missing, rate)
  {
    WaitsAgreeExactly(missing, rate);
  }

  // ---------------------------------------------------------------- one take

  /** The same tokens, counted at the same instant, in different units. */
  predicate SameTokens(e: Option<Entry>, f: Option<BucketState>, now: int) {
    && (e.Some? <==> f.Some?)
    && (e.Some? ==>
          && e.value.value.Hash? && e.value.value.milli >= 0
          && f.value.tokens == e.value.value.milli * MILLISECOND && f.value.ts == e.value.value.at * MILLISECOND <= now
          && e.value.expiry.Some? && e.value.expiry.value > f.value.ts)
  }

  /**
   * The bucket may change between two takes, but not so that it shows: the script caps the tokens at
   * every take, the fake only when time has passed; and the script forgets a key that would have
   * refilled the old bucket, the fake refills it at the new rate.
   */
  predicate Steady(e: Option<Entry>, b: Bucket, now: int)
    requires e.Some? ==> e.value.value.Hash?
  {
    e.Some? ==>
      var milli, elapsed := e.value.value.milli, now / MILLISECOND - e.value.value.at;
      if Live(e, now) then elapsed > 0 || milli <= 1000 * b.burst else milli + elapsed * b.rate >= 1000 * b.burst
  }

  /** The two refills, in thousandths and in billionths. */
  lemma RefillInUnits(milli: int, elapsed: int, b: Bucket)
    requires elapsed >= 0 && b.rate > 0
    ensures Min(b.burst * SECOND, milli * MILLISECOND + elapsed * MILLISECOND * b.rate)
            == Min(1000 * b.burst, milli + elapsed * b.rate) * MILLISECOND
  {
    assert elapsed * MILLISECOND * b.rate == (elapsed * b.rate) * MILLISECOND;
  }

  /** Both find the same tokens exactly when the bucket is steady. */
  lemma TokensAreLevel(e: Option<Entry>, f: Option<BucketState>, b: Bucket, now: int)
    requires b.Valid() && now % MILLISECOND == 0 && SameTokens(e, f, now)
    ensures TokensFound(f, b, now) == Level(e, b, now) * MILLISECOND <==> Steady(e, b, now)
    ensures Level(e, b, now) >= 0
  {
    if e.Some? {
      var elapsed := now / MILLISECOND - e.value.value.at;
      assert now - f.value.ts == elapsed * MILLISECOND;
      RefillInUnits(e.value.value.milli, elapsed, b);
      MulMonotone(0, elapsed, b.rate);
    }
  }

  /** One take: both answers and both new states agree if and only if the bucket is steady. */
  lemma TakeAgrees(e: Option<Entry>, f: Option<BucketState>, b: Bucket, now: int, infinite: int)
    requires b.Valid() && now % MILLISECOND == 0 && SameTokens(e, f, now)
    ensures
      var (e', r) := TakeCell(e, b, now);
      var f', r' := TakeState(f, b, now), TakeAnswer(f, b, now, infinite);
      && r.Ok? && e'.Some?
      && (r.value.allowed == r'.allowed && SameTokens(e', Some(f'), now) <==> Steady(e, b, now))
      && (Steady(e, b, now) ==> r.value.remaining == r'.remaining)
      && (Steady(e, b, now) && r.value.allowed ==> r.value.retryAfter == r'.retryAfter)
      && (Steady(e, b, now) && !r.value.allowed ==>
            Level(e, b, now) < 1000 && (SameAdvice(r.value, r') <==> WaitsAgree(1000 - Level(e, b, now), b.rate)))
  {
    TokensAreLevel(e, f, b, now);
    var level, tokens := Level(e, b, now), TokensFound(f, b, now);
    assert IdleSpan(b) > 0;
    hide Level, Steady, Live, IdleSpan, TokensFound;
    if tokens == level * MILLISECOND {
      assert SECOND - tokens == (1000 - level) * MILLISECOND;
    }
  }

  // ---------------------------------------------------------------- whole runs

  /** The takes on the key among the first n calls are valid and made at whole milliseconds. */
  predicate Comparable(r: Run, key: Key, n: nat)
    requires n <= |r.events|
  {
    && BucketRuns.Fresh(r, key) && Unaliased(r, key, n)
    && forall i :: 0 <= i < n && r.TakesAt(i, key) ==> r.events[i].call.bucket.Valid() && r.Time(i) % MILLISECOND == 0
  }

  ghost predicate SteadyAt(r: Run, key: Key, n: nat)
    requires n < |r.events| && r.TakesAt(n, key)
  {
    var e := r.BucketAt(n, key);
    (e.Some? ==> e.value.value.Hash?) && Steady(e, r.events[n].call.bucket, r.Time(n))
  }

  /** Both stores allow or refuse call n alike and hold the same tokens after it. */
  ghost predicate AgreesAt(r: Run, key: Key, n: nat, infinite: int)
    requires n < |r.events| && r.TakesAt(n, key)
  {
    var fake := TakeAnswer(Get(FakeAt(r, n).buckets, key.String()), r.events[n].call.bucket, r.Time(n), infinite);
    && r.Answer(n).Taken? && r.Answer(n).take.Ok? && r.Answer(n).take.value.allowed == fake.allowed
    && SameTokens(r.BucketAt(n + 1, key), Get(FakeAt(r, n + 1).buckets, key.String()), r.Time(n))
  }

  ghost predicate SteadyUpTo(r: Run, key: Key, n: nat)
    requires n <= |r.events|
  {
    forall m :: 0 <= m < n && r.TakesAt(m, key) ==> SteadyAt(r, key, m)
  }

  ghost predicate AgreesUpTo(r: Run, key: Key, n: nat, infinite: int)
    requires n <= |r.events|
  {
    forall m :: 0 <= m < n && r.TakesAt(m, key) ==> AgreesAt(r, key, m, infinite)
  }

  lemma SameTokensLater(e: Option<Entry>, f: Option<BucketState>, last: int, now: int)
    requires SameTokens(e, f, last) && last <= now
    ensures SameTokens(e, f, now)
  {
  }

  lemma {:induction false} TokensSimulate(r: Run, n: nat, key: Key, now: int)
    requires n <= |r.events| && Comparable(r, key, n) && SteadyUpTo(r, key, n)
    requires n > 0 ==> r.Time(n - 1) <= now
    ensures SameTokens(r.BucketAt(n, key), Get(FakeAt(r, n).buckets, key.String()), now)
  {
    if n == 0 {
    } else {
      hide Run.State, Run.Answer, Run.BucketAt, TakeCell, TakeState, FakeAt, SameTokens, Steady;
      var e, past, f := r.events[n - 1], r.Time(n - 1), FakeAt(r, n - 1);
      TokensSimulate(r, n - 1, key, past);
      BucketStep(r, n - 1, key);
      FakeStep(r, n - 1, key);
      if r.TakesAt(n - 1, key) {
        assert SteadyAt(r, key, n - 1);
        TakeAgrees(r.BucketAt(n - 1, key), Get(f.buckets, key.String()), e.call.bucket, past, 0);
      }
      SameTokensLater(r.BucketAt(n, key), Get(FakeAt(r, n).buckets, key.String()), past, now);
    }
  }

  /** The first take that is not steady is the first on which the stores part. */
  lemma TakeAt(r: Run, key: Key, n: nat, infinite: int)
    requires n < |r.events| && Comparable(r, key, n + 1) && SteadyUpTo(r, key, n) && r.TakesAt(n, key)
    ensures AgreesAt(r, key, n, infinite) <==> SteadyAt(r, key, n)
    ensures
      var e, b := r.BucketAt(n, key), r.events[n].call.bucket;
      var fake := TakeAnswer(Get(FakeAt(r, n).buckets, key.String()), b, r.Time(n), infinite);
      && r.Answer(n).Taken? && r.Answer(n).take.Ok?
      && var script := r.Answer(n).take.value;
         && (SteadyAt(r, key, n) ==> script.allowed == fake.allowed && script.remaining == fake.remaining)
         && (SteadyAt(r, key, n) && script.allowed ==> script.retryAfter == fake.retryAfter)
         && (SteadyAt(r, key, n) && !script.allowed ==>
               Level(e, b, r.Time(n)) < 1000 && (SameAdvice(script, fake) <==> WaitsAgree(1000 - Level(e, b, r.Time(n)), b.rate)))
  {
    hide Run.State, Run.Answer, Run.BucketAt, TakeCell, TakeState, TakeAnswer, FakeAt, Steady, Level, Live;
    var e, b, f := r.BucketAt(n, key), r.events[n].call.bucket, Get(FakeAt(r, n).buckets, key.String());
    TokensSimulate(r, n, key, r.Time(n));
    BucketStep(r, n, key);
    FakeStep(r, n, key);
    TakeAgrees(e, f, b, r.Time(n), infinite);
  }

  lemma {:induction false} AgreesIffSteady(r: Run, key: Key, n: nat, infinite: int)
    requires n <= |r.events| && Comparable(r, key, n)
    ensures AgreesUpTo(r, key, n, infinite) <==> SteadyUpTo(r, key, n)
  {
    hide AgreesAt, SteadyAt;
    if n == 0 {
    } else {
      AgreesIffSteady(r, key, n - 1, infinite);
      if SteadyUpTo(r, key, n - 1) && r.TakesAt(n - 1, key) {
        TakeAt(r, key, n - 1, infinite);
      }
    }
  }

  /**
   * `Fake.Take` against the script, over every run and whatever buckets its calls bring: they agree on
   * all takes of a key up to a call, in answer and in tokens held, if and only if each of them found a
   * steady bucket. Then the remaining tokens agree as well, and the wait of a refusal is the script's,
   * rounded up to the millisecond, if and only if the cut of the fake's division does not show.
   */
  lemma FakeTakeRefines(r: Run, n: nat, infinite: int)
    requires n < |r.events| && r.events[n].call.TakeCall? && Comparable(r, r.events[n].call.key, n + 1)
    ensures
      var key, b := r.events[n].call.key, r.events[n].call.bucket;
      var fake := TakeAnswer(Get(FakeAt(r, n).buckets, key.String()), b, r.Time(n), infinite);
      && (AgreesUpTo(r, key, n + 1, infinite) <==> SteadyUpTo(r, key, n + 1))
      && (SteadyUpTo(r, key, n + 1) ==>
            && r.Answer(n).Taken? && r.Answer(n).take.Ok?
            && var script := r.Answer(n).take.value;
               && script.allowed == fake.allowed && script.remaining == fake.remaining
               && (script.allowed ==> script.retryAfter == fake.retryAfter)
               && (!script.allowed ==>
                     && Level(r.BucketAt(n, key), b, r.Time(n)) < 1000
                     && (SameAdvice(script, fake) <==> WaitsAgree(1000 - Level(r.BucketAt(n, key), b, r.Time(n)), b.rate))))
  {
    var key := r.events[n].call.key;
    hide AgreesAt, AgreesUpTo, SteadyAt, Run.State, Run.Answer, Run.BucketAt, Level, TakeAnswer, FakeAt;
    AgreesIffSteady(r, key, n + 1, infinite);
    if SteadyUpTo(r, key, n + 1) {
      assert SteadyAt(r, key, n);
      TakeAt(r, key, n, infinite);
    }
  }

  function TwoTakes(key: Key, first: Bucket, second: Bucket, later: int): Run {
    Run("", map[], [Event(0, TakeCall(key, first)), Event(later, TakeCall(key, second))])
  }

  lemma TwoTakesExactly(key: Key, first: Bucket, second: Bucket, later: int)
    requires ValidName(key.limiter) && first.Valid() && second.Valid() && later >= 0 && later % MILLISECOND == 0
    ensures
      var r, left, ms := TwoTakes(key, first, second, later), 1000 * (first.burst - 1), later / MILLISECOND;
      AgreesUpTo(r, key, 2, 0) <==>
      if ms < IdleSpan(first) then ms > 0 || left <= 1000 * second.burst else left + ms * second.rate >= 1000 * second.burst
  {
    var r := TwoTakes(key, first, second, later);
    BucketStep(r, 0, key);
    AgreesIffSteady(r, key, 2, 0);
    hide AgreesUpTo, AgreesAt;
    assert r.BucketAt(0, key) == None;
    var e := Some(Entry(Hash(1000 * (first.burst - 1), 0), Some(IdleSpan(first) * MILLISECOND)));
    assert r.BucketAt(1, key) == e;
    assert SteadyAt(r, key, 0);
    assert SteadyAt(r, key, 1) <==> Steady(e, second, later);
    assert Live(e, later) <==> later / MILLISECOND < IdleSpan(first);
  }

  /** Buckets that change do show: one that shrinks at once, and one that grows while the key is forgotten. */
  lemma ChangingBucketsShow(key: Key)
    requires ValidName(key.limiter)
    ensures !AgreesUpTo(TwoTakes(key, Bucket(1, 3), Bucket(1, 1), 0), key, 2, 0)
    ensures !AgreesUpTo(TwoTakes(key, Bucket(1, 1), Bucket(1, 100), 11 * SECOND), key, 2, 0)
  {
    hide AgreesUpTo;
    assert CeilDiv(3000, 1) == 3000 && CeilDiv(1000, 1) == 1000;
    TwoTakesExactly(key, Bucket(1, 3), Bucket(1, 1), 0);
    TwoTakesExactly(key, Bucket(1, 1), Bucket(1, 100), 11 * SECOND);
  }

  /** One bucket per key, as configuration has it, is always steady. */
  lemma FixedBucketIsSteady(r: Run, key: Key, b: Bucket, n: nat)
    requires BucketRuns.Fresh(r, key) && BucketRuns.FixedBucket(r, key, b) && n <= |r.events|
    ensures SteadyUpTo(r, key, n)
  {
    forall m | 0 <= m < n && r.TakesAt(m, key) ensures SteadyAt(r, key, m) {
      var now := r.Time(m);
      BucketRuns.ShapeAt(r, key, b, m, now);
      BucketRuns.LevelIgnoresExpiry(r.BucketAt(m, key), b, now, now);
    }
  }

  /** So with a configured bucket the fake gives the script's answer to every take, and its wait up to the millisecond. */
  lemma ConfiguredTakesRefine(r: Run, n: nat, infinite: int)
    requires n < |r.events| && r.events[n].call.TakeCall? && Comparable(r, r.events[n].call.key, n + 1)
    requires BucketRuns.FixedBucket(r, r.events[n].call.key, r.events[n].call.bucket)
    ensures r.Answer(n).Taken? && r.Answer(n).take.Ok?
    ensures
      var key, b, script := r.events[n].call.key, r.events[n].call.bucket, r.Answer(n).take.value;
      var fake := TakeAnswer(Get(FakeAt(r, n).buckets, key.String()), b, r.Time(n), infinite);
      && script.allowed == fake.allowed && script.remaining == fake.remaining
      && (script.allowed ==> script.retryAfter == fake.retryAfter)
      && (b.rate <= MILLISECOND && !script.allowed ==> SameAdvice(script, fake))
  {
    hide Run.BucketAt, Level, TakeAnswer, FakeAt, SteadyUpTo, AgreesUpTo, Run.Answer;
    var key, b := r.events[n].call.key, r.events[n].call.bucket;
    FixedBucketIsSteady(r, key, b, n + 1);
    FakeTakeRefines(r, n, infinite);
    if b.rate <= MILLISECOND && !r.Answer(n).take.value.allowed {
      ConfiguredWaitsAgree(1000 - Level(r.BucketAt(n, key), b, r.Time(n)), b.rate);
    }
  }

  /**
   * Why whole milliseconds: from a bucket of one token a second, a second take after some time is
   * granted by the script when a thousand milliseconds have begun, by the fake when a second has passed.
   */
  lemma FractionsOfMilliseconds(key: Key, first: int, second: int)
    requires ValidName(key.limiter) && 0 <= first <= second
    ensures
      var b := Bucket(1, 1);
      var r := Run("", map[], [Event(first, TakeCall(key, b)), Event(second, TakeCall(key, b))]);
      var script, fake := r.Answer(1), TakeAnswer(Get(FakeAt(r, 1).buckets, key.String()), b, second, 0);
      && script.Taken? && script.take.Ok?
      && (script.take.value.allowed <==> second / MILLISECOND - first / MILLISECOND >= 1000)
      && (fake.allowed <==> second - first >= SECOND)
  {
    var b := Bucket(1, 1);
    var r := Run("", map[], [Event(first, TakeCall(key, b)), Event(second, TakeCall(key, b))]);
    assert r.BucketAt(0, key) == None;
    BucketStep(r, 0, key);
    BucketStep(r, 1, key);
    FakeStep(r, 0, key);
    assert Get(FakeAt(r, 0).buckets, key.String()) == None;
    hide Run.State, Run.Answer, Run.BucketAt, FakeAt;
    BucketRuns.LevelAfterTake(None, b, first, second);
    var e := r.BucketAt(1, key);
    BucketRuns.TakeKeepsShape(None, b, first, first);
    BucketRuns.LevelAfterTake(e, b, second, second);
  }
}
