/** What the token bucket promises over whole runs. */
module BucketRuns {
  import opened Prelude
  import opened Store
  import opened StorageKeys
  import opened Redis
  import opened StoreRuns

  function Cap(b: Bucket): int {
    1000 * b.burst
  }

  function Millis(now: int): int {
    now / MILLISECOND
  }

  /**
   * Every reachable bucket entry: tokens between zero and the cap, counted no later than `last`, and
   * an expiry, where there is one, no earlier than a complete refill.
   */
  predicate BucketShape(e: Option<Entry>, b: Bucket, last: int)
    requires b.Valid()
  {
    e.Some? ==>
      && e.value.value.Hash?
      && 0 <= e.value.value.milli <= Cap(b)
      && e.value.value.at <= Millis(last)
      && (e.value.expiry.Some? ==> e.value.expiry.value >= (e.value.value.at + IdleSpan(b)) * MILLISECOND)
  }

  /** The tokens at `now` if keys never expired. */
  function Refilled(e: Option<Entry>, b: Bucket, now: int): int
    requires e.Some? ==> e.value.value.Hash?
  {
    if e.None? then Cap(b) else Min(Cap(b), e.value.value.milli + (Millis(now) - e.value.value.at) * b.rate)
  }

  /** A bucket key is forgotten ten seconds after the first millisecond at which it would be full again. */
  lemma ForgottenTenSecondsLate(e: Option<Entry>, b: Bucket, now: int, later: int)
    requires b.Valid() && TakeCell(e, b, now).1.Ok?
    ensures
      var full := IdleSpan(b) - 10_000;
      && b.rate * (full - 1) < Cap(b) <= b.rate * full
      && (Live(TakeCell(e, b, now).0, later) <==> later < now + full * MILLISECOND + 10 * SECOND)
  {
  }

  /** Idle expiry is invisible: a key that has gone would have been full again. */
  lemma LevelIgnoresExpiry(e: Option<Entry>, b: Bucket, last: int, now: int)
    requires b.Valid() && BucketShape(e, b, last) && last <= now
    ensures Level(e, b, now) == Refilled(e, b, now)
  {
    DivMonotone(last, now, MILLISECOND);
    if e.Some? && !Live(e, now) {
      var at, elapsed := e.value.value.at, Millis(now) - e.value.value.at;
      DivMonotone((at + IdleSpan(b)) * MILLISECOND, now, MILLISECOND);
      assert elapsed >= IdleSpan(b);
      MulMonotone(CeilDiv(Cap(b), b.rate), elapsed, b.rate);
    }
  }

  lemma LevelRange(e: Option<Entry>, b: Bucket, last: int, now: int)
    requires b.Valid() && BucketShape(e, b, last)
    ensures 0 <= Level(e, b, now) <= Cap(b)
  {
    if e.Some? {
      MulMonotone(0, Max(0, Millis(now) - e.value.value.at), b.rate);
    }
  }

  lemma TakeKeepsShape(e: Option<Entry>, b: Bucket, last: int, now: int)
    requires b.Valid() && BucketShape(e, b, last)
    ensures TakeCell(e, b, now).1.Ok?
    ensures BucketShape(TakeCell(e, b, now).0, b, now)
  {
    LevelRange(e, b, last, now);
  }

  /** Refill composes: waiting once or in two parts gives the same tokens under the cap. */
  lemma RefillComposes(cap: int, m: int, rate: int, first: int, second: int)
    requires 0 <= first && 0 <= second && rate > 0
    ensures Min(cap, Min(cap, m + first * rate) + second * rate) == Min(cap, m + (first + second) * rate)
  {
    assert (first + second) * rate == first * rate + second * rate;
    MulMonotone(0, second, rate);
  }

  predicate Fresh(r: Run, key: Key) {
    r.Valid() && ValidName(key.limiter) && r.BucketAt(0, key) == None
  }

  /** The key is only ever taken from with this bucket. */
  predicate FixedBucket(r: Run, key: Key, b: Bucket) {
    b.Valid() && forall i :: 0 <= i < |r.events| && r.TakesAt(i, key) ==> r.events[i].call.bucket == b
  }

  lemma {:induction false} ShapeAt(r: Run, key: Key, b: Bucket, n: nat, last: int)
    requires Fresh(r, key) && FixedBucket(r, key, b) && n <= |r.events|
    requires n > 0 ==> r.Time(n - 1) <= last
    ensures BucketShape(r.BucketAt(n, key), b, last)
  {
    if n == 0 {
    } else {
      hide Run.State, Run.Answer, Run.BucketAt, TakeCell;
      var now := r.Time(n - 1);
      BucketStep(r, n - 1, key);
      ShapeAt(r, key, b, n - 1, now);
      TakeKeepsShape(r.BucketAt(n - 1, key), b, now, now);
      DivMonotone(now, last, MILLISECOND);
    }
  }

  /** Call n took a token from the key. */
  predicate TakenAt(r: Run, key: Key, n: nat)
    requires n < |r.events|
  {
    r.TakesAt(n, key) && r.Answer(n).Taken? && r.Answer(n).take.Ok? && r.Answer(n).take.value.allowed
  }

  /** How many tokens calls i..n-1 took from the key. */
  function Admitted(r: Run, key: Key, i: nat, n: nat): nat
    requires i <= n <= |r.events|
    decreases n
  {
    if n == i then 0 else Admitted(r, key, i, n - 1) + if TakenAt(r, key, n - 1) then 1 else 0
  }

  /** What a bucket full at call i would hold at `now`, had it no cap: calls i..n-1 paid for. */
  function Budget(r: Run, key: Key, b: Bucket, i: nat, n: nat, now: int): int
    requires i < |r.events| && i <= n <= |r.events|
  {
    Cap(b) + b.rate * (Millis(now) - Millis(r.Time(i))) - 1000 * Admitted(r, key, i, n)
  }

  /** One take moves the stored tokens from one refill to the next. */
  lemma LevelAfterTake(e: Option<Entry>, b: Bucket, past: int, now: int)
    requires b.Valid() && BucketShape(e, b, past) && past <= now
    ensures
      var (e', answer) := TakeCell(e, b, past);
      && answer.Ok?
      && (answer.value.allowed <==> Level(e, b, past) >= 1000)
      && Level(e', b, now) == Min(Cap(b), Level(e, b, past) - (if answer.value.allowed then 1000 else 0)
                                         + b.rate * (Millis(now) - Millis(past)))
  {
    TakeKeepsShape(e, b, past, past);
    LevelIgnoresExpiry(TakeCell(e, b, past).0, b, past, now);
  }

  lemma BudgetStep(r: Run, key: Key, b: Bucket, i: nat, n: nat, now: int)
    requires i < n <= |r.events|
    ensures
      var past := r.Time(n - 1);
      Budget(r, key, b, i, n, now) == Budget(r, key, b, i, n - 1, past)
                                      - (if TakenAt(r, key, n - 1) then 1000 else 0) + b.rate * (Millis(now) - Millis(past))
  {
    hide TakenAt, Millis;
    var t0, t1, t2 := Millis(r.Time(i)), Millis(r.Time(n - 1)), Millis(now);
    assert b.rate * (t2 - t0) == b.rate * (t2 - t1) + b.rate * (t1 - t0);
  }

  lemma {:induction false} LevelAtMostBudget(r: Run, key: Key, b: Bucket, i: nat, n: nat, now: int)
    requires Fresh(r, key) && FixedBucket(r, key, b) && i < n <= |r.events| && r.TakesAt(i, key)
    requires r.Time(n - 1) <= now
    ensures Level(r.BucketAt(n, key), b, now) <= Budget(r, key, b, i, n, now)
    decreases n
  {
    hide Run.State, Run.Answer, Run.BucketAt, TakeCell, Level, BucketShape, Live;
    var past := r.Time(n - 1);
    BucketStep(r, n - 1, key);
    ShapeAt(r, key, b, n - 1, past);
    if r.TakesAt(n - 1, key) {
      LevelAfterTake(r.BucketAt(n - 1, key), b, past, now);
      LevelRange(r.BucketAt(n - 1, key), b, past, past);
      BudgetStep(r, key, b, i, n, now);
      if i < n - 1 {
        LevelAtMostBudget(r, key, b, i, n - 1, past);
      } else {
        assert Admitted(r, key, i, n - 1) == 0;
      }
    } else {
      LevelAtMostBudget(r, key, b, i, n - 1, now);
    }
  }

  lemma BudgetAfterTake(r: Run, key: Key, b: Bucket, n: nat, now: int) returns (i: nat)
    requires Fresh(r, key) && FixedBucket(r, key, b) && 0 < n <= |r.events| && r.TakesAt(n - 1, key)
    requires r.Time(n - 1) <= now
    ensures i <= n
    ensures i < n ==> r.TakesAt(i, key) && Level(r.BucketAt(n, key), b, now) == Budget(r, key, b, i, n, now)
    ensures i == n ==> Level(r.BucketAt(n, key), b, now) == Cap(b)
    decreases n, 0
  {
    var past := r.Time(n - 1);
    assert Budget(r, key, b, n - 1, n - 1, past) == Cap(b);
    hide Run.State, Run.Answer, Run.BucketAt, TakeCell, Level, BucketShape, Live, Budget, Millis;
    BucketStep(r, n - 1, key);
    ShapeAt(r, key, b, n - 1, past);
    LevelAfterTake(r.BucketAt(n - 1, key), b, past, now);
    i := LevelIsSomeBudget(r, key, b, n - 1, past);
    if Level(r.BucketAt(n, key), b, now) == Cap(b) {
      i := n;
    } else {
      BudgetStep(r, key, b, i, n, now);
    }
  }

  /** The level is the cap or some call's budget: nothing else lowers it. */
  lemma {:induction false} LevelIsSomeBudget(r: Run, key: Key, b: Bucket, n: nat, now: int) returns (i: nat)
    requires Fresh(r, key) && FixedBucket(r, key, b) && n <= |r.events|
    requires n > 0 ==> r.Time(n - 1) <= now
    ensures i <= n
    ensures i < n ==> r.TakesAt(i, key) && Level(r.BucketAt(n, key), b, now) == Budget(r, key, b, i, n, now)
    ensures i == n ==> Level(r.BucketAt(n, key), b, now) == Cap(b)
    decreases n, 1
  {
    if n == 0 {
      i := 0;
    } else {
      hide Run.State, Run.Answer, Run.BucketAt, TakeCell, Level, BucketShape, Live;
      var past := r.Time(n - 1);
      BucketStep(r, n - 1, key);
      if r.TakesAt(n - 1, key) {
        i := BudgetAfterTake(r, key, b, n, now);
      } else {
        i := LevelIsSomeBudget(r, key, b, n - 1, now);
        i := if i == n - 1 then n else i;
      }
    }
  }

  /** Admitting call n keeps the takes since call i within burst plus rate times the elapsed time. */
  predicate Affordable(r: Run, key: Key, b: Bucket, i: nat, n: nat)
    requires i <= n < |r.events|
  {
    1000 * (Admitted(r, key, i, n) + 1) <= Cap(b) + b.rate * (Millis(r.Time(n)) - Millis(r.Time(i)))
  }

  /**
   * Token bucket exactness: in any run, on any number of keys, a take is allowed if and only if it is
   * affordable counted from every earlier take on the key. The script keeps two numbers; this is a
   * statement about the whole history.
   */
  lemma Exactness(r: Run, key: Key, b: Bucket, n: nat)
    requires Fresh(r, key) && FixedBucket(r, key, b) && n < |r.events| && r.TakesAt(n, key)
    ensures TakenAt(r, key, n) <==> forall i :: 0 <= i <= n && r.TakesAt(i, key) ==> Affordable(r, key, b, i, n)
  {
    hide Run.State, Run.Answer, Run.BucketAt, TakeCell, Level, BucketShape, Live;
    var now := r.Time(n);
    BucketStep(r, n, key);
    ShapeAt(r, key, b, n, now);
    LevelAfterTake(r.BucketAt(n, key), b, now, now);
    if TakenAt(r, key, n) {
      forall i | 0 <= i <= n && r.TakesAt(i, key) ensures Affordable(r, key, b, i, n) {
        if i < n {
          LevelAtMostBudget(r, key, b, i, n, now);
        }
      }
    } else {
      var i := LevelIsSomeBudget(r, key, b, n, now);
      assert !Affordable(r, key, b, i, n);
    }
  }

  lemma {:induction false} AdmittedFromLeft(r: Run, key: Key, i: nat, n: nat)
    requires i < n <= |r.events|
    ensures Admitted(r, key, i, n) == Admitted(r, key, i + 1, n) + if TakenAt(r, key, i) then 1 else 0
    decreases n
  {
    if i + 1 == n {
    } else {
      AdmittedFromLeft(r, key, i, n - 1);
    }
  }

  /** No interval admits more than burst plus rate times its length, wherever it begins and ends. */
  lemma {:induction false} IntervalBound(r: Run, key: Key, b: Bucket, i: nat, n: nat)
    requires Fresh(r, key) && FixedBucket(r, key, b) && i <= n < |r.events|
    ensures 1000 * Admitted(r, key, i, n + 1) <= Cap(b) + b.rate * (Millis(r.Time(n)) - Millis(r.Time(i)))
    decreases n - i
  {
    hide Run.State, Run.Answer, Run.BucketAt;
    var first, last := Millis(r.Time(i)), Millis(r.Time(n));
    DivMonotone(r.Time(i), r.Time(n), MILLISECOND);
    MulMonotone(0, last - first, b.rate);
    if TakenAt(r, key, i) && TakenAt(r, key, n) {
      Exactness(r, key, b, n);
      assert Affordable(r, key, b, i, n);
    } else if i == n {
      assert Admitted(r, key, i, n) == 0;
    } else if TakenAt(r, key, n) {
      AdmittedFromLeft(r, key, i, n + 1);
      IntervalBound(r, key, b, i + 1, n);
      DivMonotone(r.Time(i), r.Time(i + 1), MILLISECOND);
      MulMonotone(last - Millis(r.Time(i + 1)), last - first, b.rate);
    } else {
      IntervalBound(r, key, b, i, n - 1);
      DivMonotone(r.Time(n - 1), r.Time(n), MILLISECOND);
      MulMonotone(Millis(r.Time(n - 1)) - first, last - first, b.rate);
    }
  }

  // ---------------------------------------------------------------- retry advice

  /** Whole seconds for the Retry-After header, at least one. */
  function RetryAfterSeconds(d: int): (s: int)
    ensures s >= 1 && s * SECOND >= d
    ensures d > 0 ==> (s - 1) * SECOND < d
    ensures d <= 0 ==> s == 1
  {
    if d <= 0 then 1 else CeilDiv(d, SECOND)
  }

  lemma {:induction false} Untouched(r: Run, key: Key, i: nat, n: nat)
    requires r.Valid() && ValidName(key.limiter) && i <= n <= |r.events|
    requires forall m :: i <= m < n ==> !r.TakesAt(m, key)
    ensures r.BucketAt(n, key) == r.BucketAt(i, key)
    decreases n
  {
    if i == n {
    } else {
      hide Run.State, Run.Answer, Run.BucketAt, TakeCell;
      BucketStep(r, n - 1, key);
      Untouched(r, key, i, n - 1);
    }
  }

  /**
   * The advice is sufficient and tight: when call j was refused with a wait, the next take on the key
   * succeeds if and only if that many milliseconds have passed. Waiting the advertised duration, or
   * the whole seconds of the header, therefore suffices.
   */
  lemma RetryAdvice(r: Run, key: Key, b: Bucket, j: nat, n: nat)
    requires Fresh(r, key) && FixedBucket(r, key, b) && j < n < |r.events|
    requires r.TakesAt(j, key) && !TakenAt(r, key, j) && r.TakesAt(n, key)
    requires forall m :: j < m < n ==> !r.TakesAt(m, key)
    ensures r.Answer(j).Taken? && r.Answer(j).take.Ok?
    ensures
      var wait := r.Answer(j).take.value.retryAfter;
      && wait > 0 && wait % MILLISECOND == 0
      && (TakenAt(r, key, n) <==> Millis(r.Time(n)) >= Millis(r.Time(j)) + wait / MILLISECOND)
      && (r.Time(n) >= r.Time(j) + wait ==> TakenAt(r, key, n))
      && (r.Time(n) >= r.Time(j) + RetryAfterSeconds(wait) * SECOND ==> TakenAt(r, key, n))
  {
    hide Run.State, Run.Answer, Run.BucketAt, Level, BucketShape, Live;
    var past, now := r.Time(j), r.Time(n);
    var e := r.BucketAt(j, key);
    BucketStep(r, j, key);
    BucketStep(r, n, key);
    Untouched(r, key, j + 1, n);
    ShapeAt(r, key, b, j, past);
    LevelAfterTake(e, b, past, now);
    TakeKeepsShape(e, b, past, past);
    LevelAfterTake(r.BucketAt(n, key), b, now, now);
    LevelRange(e, b, past, past);
    var missing, elapsed := 1000 - Level(e, b, past), Millis(now) - Millis(past);
    var retry := CeilDiv(missing, b.rate);
    assert TakenAt(r, key, n) <==> b.rate * elapsed >= missing;
    if elapsed >= retry {
      MulMonotone(retry, elapsed, b.rate);
    } else {
      MulMonotone(elapsed, retry - 1, b.rate);
    }
    assert retry > 0 by {
      if retry <= 0 { MulMonotone(retry, 0, b.rate); assert false; }
    }
    if now >= past + retry * MILLISECOND {
      DivMonotone(past + retry * MILLISECOND, now, MILLISECOND);
    }
  }

  // ---------------------------------------------------------------- unobservable events

  /** Two entries that no later take can tell apart. */
  ghost predicate Indistinguishable(e: Option<Entry>, e': Option<Entry>, b: Bucket, now: int)
    requires b.Valid()
  {
    && BucketShape(e, b, now) && BucketShape(e', b, now)
    && forall t :: t >= now ==> Level(e, b, t) == Level(e', b, t)
  }

  function Strip(e: Option<Entry>): Option<Entry> {
    if e.Some? then Some(e.value.(expiry := None)) else None
  }

  lemma IndistinguishableLater(e: Option<Entry>, e': Option<Entry>, b: Bucket, last: int, now: int)
    requires b.Valid() && Indistinguishable(e, e', b, last) && last <= now
    ensures Indistinguishable(e, e', b, now)
  {
    DivMonotone(last, now, MILLISECOND);
  }

  /** The same take on both sides, with the key kept for ever on the right or not. */
  lemma KeptTake(e: Option<Entry>, e': Option<Entry>, b: Bucket, now: int, forever: bool)
    requires b.Valid() && Indistinguishable(e, e', b, now)
    ensures
      var (x, x') := (TakeCell(e, b, now).0, TakeCell(e', b, now).0);
      && TakeCell(e, b, now).1 == TakeCell(e', b, now).1
      && Indistinguishable(x, if forever then Strip(x') else x', b, now)
  {
    assert Level(e, b, now) == Level(e', b, now);
    TakeKeepsShape(e, b, now, now);
    TakeKeepsShape(e', b, now, now);
    var x := TakeCell(e, b, now).0;
    var x' := if forever then Strip(TakeCell(e', b, now).0) else TakeCell(e', b, now).0;
    forall t | t >= now ensures Level(x, b, t) == Level(x', b, t) {
      LevelIgnoresExpiry(x, b, now, t);
      LevelIgnoresExpiry(x', b, now, t);
    }
  }

  /** A refused take on the left only. */
  lemma DroppedTake(e: Option<Entry>, e': Option<Entry>, b: Bucket, now: int)
    requires b.Valid() && Indistinguishable(e, e', b, now)
    requires TakeCell(e, b, now).1.Ok? && !TakeCell(e, b, now).1.value.allowed
    ensures Indistinguishable(TakeCell(e, b, now).0, e', b, now)
  {
    var x := TakeCell(e, b, now).0;
    TakeKeepsShape(e, b, now, now);
    forall t | t >= now ensures Level(x, b, t) == Level(e', b, t) {
      LevelAfterTake(e, b, now, t);
      LevelIgnoresExpiry(e, b, now, t);
      LevelIgnoresExpiry(e, b, now, now);
      DivMonotone(now, t, MILLISECOND);
      if e.Some? {
        RefillComposes(Cap(b), e.value.value.milli, b.rate, Millis(now) - e.value.value.at, Millis(t) - Millis(now));
      }
    }
  }

  /** The keyspace of a run that skips some calls and, if `forever`, never expires bucket keys. */
  function Variant(r: Run, keep: seq<bool>, forever: bool, n: nat): Db
    requires |keep| == |r.events| && n <= |r.events|
  {
    if n == 0 then r.db
    else
      var before := Variant(r, keep, forever, n - 1);
      if !keep[n - 1] then before
      else
        var after := StoreStep(before, r.prefix, r.events[n - 1]).0;
        var call := r.events[n - 1].call;
        if forever && call.TakeCall? then
          Put(after, BucketKey(r.prefix, call.key), Strip(BucketOf(after, r.prefix, call.key)))
        else after
  }

  ghost predicate SameView(db: Db, db': Db, prefix: string, key: Key, b: Bucket, now: int)
    requires b.Valid()
  {
    && CellOf(db, prefix, key) == CellOf(db', prefix, key)
    && Indistinguishable(BucketOf(db, prefix, key), BucketOf(db', prefix, key), b, now)
  }

  /** Every limiter has one bucket configuration, and only refused takes are skipped. */
  ghost predicate Skippable(r: Run, buckets: string -> Bucket, keep: seq<bool>) {
    && r.Valid() && |keep| == |r.events|
    && (forall key: Key :: ValidName(key.limiter) ==> buckets(key.limiter).Valid() && r.BucketAt(0, key) == None)
    && (forall i :: 0 <= i < |r.events| && r.events[i].call.TakeCall? ==>
                      r.events[i].call.bucket == buckets(r.events[i].call.key.limiter))
    && (forall i :: 0 <= i < |r.events| && !keep[i] ==>
                      r.Answer(i).Taken? && r.Answer(i).take.Ok? && !r.Answer(i).take.value.allowed)
  }

  lemma {:induction false} VariantView(r: Run, buckets: string -> Bucket, keep: seq<bool>, forever: bool, n: nat, key: Key, now: int)
    requires Skippable(r, buckets, keep) && n <= |r.events| && ValidName(key.limiter)
    requires n > 0 ==> r.Time(n - 1) <= now
    ensures SameView(r.State(n), Variant(r, keep, forever, n), r.prefix, key, buckets(key.limiter), now)
  {
    VariantStart(r, buckets, keep, forever, key, now);
    hide SameView, Skippable, Variant, Run.State;
    if n == 0 {
    } else {
      SkippableStep(r, buckets, keep, n - 1, key);
      VariantView(r, buckets, keep, forever, n - 1, key, r.Time(n - 1));
      VariantViewStep(r, buckets(key.limiter), keep, forever, n, key, now);
    }
  }

  lemma VariantStart(r: Run, buckets: string -> Bucket, keep: seq<bool>, forever: bool, key: Key, now: int)
    requires Skippable(r, buckets, keep) && ValidName(key.limiter)
    ensures buckets(key.limiter).Valid()
    ensures SameView(r.State(0), Variant(r, keep, forever, 0), r.prefix, key, buckets(key.limiter), now)
  {
    assert r.BucketAt(0, key) == None;
  }

  /** What skipping asks of one call. */
  lemma SkippableStep(r: Run, buckets: string -> Bucket, keep: seq<bool>, n: nat, key: Key)
    requires Skippable(r, buckets, keep) && n < |r.events| && ValidName(key.limiter)
    ensures r.Valid() && |keep| == |r.events|
    ensures r.TakesAt(n, key) ==> r.events[n].call.bucket == buckets(key.limiter)
    ensures !keep[n] ==> r.events[n].call.TakeCall? && r.Answer(n).Taken? && r.Answer(n).take.Ok? && !r.Answer(n).take.value.allowed
  {
  }

  lemma VariantViewStep(r: Run, b: Bucket, keep: seq<bool>, forever: bool, n: nat, key: Key, now: int)
    requires r.Valid() && |keep| == |r.events| && 0 < n <= |r.events| && ValidName(key.limiter) && b.Valid()
    requires r.TakesAt(n - 1, key) ==> r.events[n - 1].call.bucket == b
    requires !keep[n - 1] ==>
               && r.events[n - 1].call.TakeCall?
               && r.Answer(n - 1).Taken? && r.Answer(n - 1).take.Ok? && !r.Answer(n - 1).take.value.allowed
    requires r.Time(n - 1) <= now
    requires SameView(r.State(n - 1), Variant(r, keep, forever, n - 1), r.prefix, key, b, r.Time(n - 1))
    ensures SameView(r.State(n), Variant(r, keep, forever, n), r.prefix, key, b, now)
  {
    hide Run.State, Run.Answer, Variant, Indistinguishable, CellOf;
    VariantCells(r, keep, forever, n, key);
    VariantBuckets(r, b, keep, forever, n, key);
    IndistinguishableLater(r.BucketAt(n, key), BucketOf(Variant(r, keep, forever, n), r.prefix, key), b, r.Time(n - 1), now);
  }

  lemma VariantCells(r: Run, keep: seq<bool>, forever: bool, n: nat, key: Key)
    requires r.Valid() && |keep| == |r.events| && 0 < n <= |r.events| && ValidName(key.limiter)
    requires !keep[n - 1] ==> r.events[n - 1].call.TakeCall?
    requires CellOf(r.State(n - 1), r.prefix, key) == CellOf(Variant(r, keep, forever, n - 1), r.prefix, key)
    ensures CellOf(r.State(n), r.prefix, key) == CellOf(Variant(r, keep, forever, n), r.prefix, key)
  {
    var e, db, db' := r.events[n - 1], r.State(n - 1), Variant(r, keep, forever, n - 1);
    SkipFrame(r, keep, forever, n, key);
    StepFrame(db, r.prefix, e, key);
    StepFrame(db', r.prefix, e, key);
    if r.ConsumesAt(n - 1, key) && e.call.rule.Valid() {
      var rule := e.call.rule;
      assert CellOf(db, r.prefix, e.call.key) == CellOf(db', r.prefix, e.call.key) == CellOf(db, r.prefix, key);
      var (c, _) := DecideCell(CellOf(db, r.prefix, key), rule.limit, Rounded(rule.window), Rounded(rule.block), e.now);
      PutCellGet(db, r.prefix, e.call.key, c);
      PutCellGet(db', r.prefix, e.call.key, c);
    }
  }

  lemma VariantBuckets(r: Run, b: Bucket, keep: seq<bool>, forever: bool, n: nat, key: Key)
    requires r.Valid() && |keep| == |r.events| && 0 < n <= |r.events| && ValidName(key.limiter) && b.Valid()
    requires r.TakesAt(n - 1, key) ==> r.events[n - 1].call.bucket == b
    requires !keep[n - 1] && r.TakesAt(n - 1, key) ==>
               r.Answer(n - 1).Taken? && r.Answer(n - 1).take.Ok? && !r.Answer(n - 1).take.value.allowed
    requires Indistinguishable(r.BucketAt(n - 1, key), BucketOf(Variant(r, keep, forever, n - 1), r.prefix, key), b, r.Time(n - 1))
    ensures Indistinguishable(r.BucketAt(n, key), BucketOf(Variant(r, keep, forever, n), r.prefix, key), b, r.Time(n - 1))
  {
    var e, db' := r.events[n - 1], Variant(r, keep, forever, n - 1);
    var left, right := r.BucketAt(n - 1, key), BucketOf(db', r.prefix, key);
    SkipFrame(r, keep, forever, n, key);
    BucketStep(r, n - 1, key);
    if r.TakesAt(n - 1, key) {
      assert BucketOf(db', r.prefix, e.call.key) == right;
      if keep[n - 1] {
        assert BucketOf(StoreStep(db', r.prefix, e).0, r.prefix, key) == TakeCell(right, b, e.now).0;
        KeptTake(left, right, b, e.now, forever);
      } else {
        DroppedTake(left, right, b, e.now);
      }
    } else {
      StepFrame(db', r.prefix, e, key);
    }
  }

  /** How one call of the variant reads through the view of a key. */
  lemma SkipFrame(r: Run, keep: seq<bool>, forever: bool, n: nat, key: Key)
    requires r.Valid() && |keep| == |r.events| && 0 < n <= |r.events| && ValidName(key.limiter)
    ensures
      var e, db, db' := r.events[n - 1], Variant(r, keep, forever, n - 1), Variant(r, keep, forever, n);
      var after := StoreStep(db, r.prefix, e).0;
      && CellOf(db', r.prefix, key) == CellOf(if keep[n - 1] then after else db, r.prefix, key)
      && BucketOf(db', r.prefix, key) ==
           if !keep[n - 1] then BucketOf(db, r.prefix, key)
           else if forever && r.TakesAt(n - 1, key) then Strip(BucketOf(after, r.prefix, key))
           else BucketOf(after, r.prefix, key)
  {
    var k := r.events[n - 1].call.key;
    StorageKeyInjective(r.prefix, k, Tokens, key, Counter);
    StorageKeyInjective(r.prefix, k, Tokens, key, Block);
    StorageKeyInjective(r.prefix, k, Tokens, key, Tokens);
  }

  /**
   * Refused takes and idle expiry are unobservable: delete any set of refused takes from a run, and
   * keep every bucket key for ever or not; every call that remains gets the same answer.
   */
  lemma RefusedTakesUnobservable(r: Run, buckets: string -> Bucket, keep: seq<bool>, forever: bool, n: nat)
    requires Skippable(r, buckets, keep) && n < |r.events| && keep[n]
    ensures StoreStep(Variant(r, keep, forever, n), r.prefix, r.events[n]).1 == r.Answer(n)
  {
    var e := r.events[n];
    VariantView(r, buckets, keep, forever, n, e.call.key, e.now);
    if e.call.TakeCall? {
      KeptTake(r.BucketAt(n, e.call.key), BucketOf(Variant(r, keep, forever, n), r.prefix, e.call.key), e.call.bucket, e.now, false);
    }
  }
}
